/** The per-URL dictionaries the scripts pass around: a `url` entry plus
    named float metrics (`clicks`, `impressions`, ... `health`). */
module Records {
  import opened Wrappers

  datatype Record = Record(url: string, metrics: map<string, real>)

  /** `entry.get(f)`: the metric `f` if the record carries it. */
  function Field(r: Record, f: string): Option<real> {
    if f in r.metrics then Some(r.metrics[f]) else None
  }
}
