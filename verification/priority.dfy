/** `calculate_priority` (api/generate.py, test_system_simple.py): a
    weighted sum `0.4 * gsc + 0.4 * pe + 0.2 * business` of guarded
    sub-terms, the business part capped at 1.0, the total clamped to
    [0.1, 1.0]. Scores are exact reals; float rounding is not modelled. */
module Priority {
  import opened Strings
  import opened Records
  import opened Cluster

  function Min(a: real, b: real): real { if a <= b then a else b }
  function Max(a: real, b: real): real { if a >= b then a else b }

  /** `url_entry.get(name, 0)`. */
  function Metric(m: map<string, real>, name: string): real {
    if name in m then m[name] else 0.0
  }

  // ---- Search-console terms ----

  /** `clicks / impressions * 0.3`, added only when `impressions > 0`. */
  function ClickRateTerm(clicks: real, impressions: real): (t: real)
    ensures impressions <= 0.0 ==> t == 0.0
    ensures impressions > 0.0 && 0.0 <= clicks <= impressions ==> 0.0 <= t <= 0.3
    ensures impressions > 0.0 && clicks == impressions ==> t == 0.3
  {
    if impressions > 0.0 then clicks / impressions * 0.3 else 0.0
  }

  /** `min(ctr, 1.0) * 0.3`. */
  function CtrTerm(ctr: real): (t: real)
    ensures t <= 0.3
    ensures ctr >= 0.0 ==> t >= 0.0
    ensures ctr >= 1.0 ==> t == 0.3
  {
    Min(ctr, 1.0) * 0.3
  }

  /** `max(0, 1 - position / 100) * 0.4`, added only when `position > 0`:
      never negative, full weight only for an (impossible) position 0. */
  function PositionTerm(position: real): (t: real)
    ensures 0.0 <= t < 0.4
    ensures position <= 0.0 || position >= 100.0 ==> t == 0.0
  {
    if position > 0.0 then Max(0.0, 1.0 - position / 100.0) * 0.4 else 0.0
  }

  function GscScore(m: map<string, real>): real {
    ClickRateTerm(Metric(m, "clicks"), Metric(m, "impressions"))
    + CtrTerm(Metric(m, "ctr"))
    + PositionTerm(Metric(m, "position"))
  }

  // ---- Page-explorer terms ----

  /** `min(importance / 100, 1.0) * 0.4`. */
  function ImportanceTerm(importance: real): (t: real)
    ensures t <= 0.4
    ensures importance >= 0.0 ==> t >= 0.0
    ensures importance >= 100.0 ==> t == 0.4
  {
    Min(importance / 100.0, 1.0) * 0.4
  }

  /** `max(0, 1 - depth / 10) * 0.2`, added only when `depth > 0`. */
  function DepthTerm(depth: real): (t: real)
    ensures 0.0 <= t < 0.2
    ensures depth <= 0.0 || depth >= 10.0 ==> t == 0.0
  {
    if depth > 0.0 then Max(0.0, 1.0 - depth / 10.0) * 0.2 else 0.0
  }

  /** `min(internal_links / 100, 1.0) * 0.2`, added only when
      `internal_links > 0`. */
  function LinksTerm(links: real): (t: real)
    ensures 0.0 <= t <= 0.2
    ensures links <= 0.0 ==> t == 0.0
    ensures links >= 100.0 ==> t == 0.2
  {
    if links > 0.0 then Min(links / 100.0, 1.0) * 0.2 else 0.0
  }

  /** `min(health / 100, 1.0) * 0.2`. */
  function HealthTerm(health: real): (t: real)
    ensures t <= 0.2
    ensures health >= 0.0 ==> t >= 0.0
    ensures health >= 100.0 ==> t == 0.2
  {
    Min(health / 100.0, 1.0) * 0.2
  }

  function PeScore(m: map<string, real>): real {
    ImportanceTerm(Metric(m, "importance"))
    + DepthTerm(Metric(m, "depth"))
    + LinksTerm(Metric(m, "internal_links"))
    + HealthTerm(Metric(m, "health"))
  }

  // ---- Business term ----

  predicate IsIndexLike(u: string) { EndsWith(u, "/") || EndsWith(u, "/index.html") }

  /** The uncapped sum of the business bonuses of the lower-cased URL. */
  function BusinessBonus(url: string): real {
    var u := Lower(url);
    (if IsIndexLike(u) then 0.5 else 0.0)
    + (if IsTld(u) then 0.3 else 0.0)
    + (if IsBlog(u) then 0.2 else 0.0)
    + (if Contains(u, "/support/") then 0.1 else 0.0)
    + (if IsTool(u) then 0.2 else 0.0)
  }

  /** `min(business_score, 1.0)`: the cap binds however many bonuses apply. */
  function BusinessScore(url: string): (b: real)
    ensures 0.0 <= b <= 1.0
    ensures b <= BusinessBonus(url)
    ensures BusinessBonus(url) <= 1.0 ==> b == BusinessBonus(url)
  {
    Min(BusinessBonus(url), 1.0)
  }

  /** The weighted sum before clamping. */
  function Weighted(e: Record): real {
    0.4 * GscScore(e.metrics) + 0.4 * PeScore(e.metrics) + 0.2 * BusinessScore(e.url)
  }

  /** `calculate_priority(url_entry)`: the weighted sum clamped to [0.1, 1.0]. */
  function CalculatePriority(e: Record): (p: real)
    ensures 0.1 <= p <= 1.0
    ensures 0.1 <= Weighted(e) <= 1.0 ==> p == Weighted(e)
    ensures Weighted(e) < 0.1 ==> p == 0.1
    ensures Weighted(e) > 1.0 ==> p == 1.0
  {
    Max(0.1, Min(1.0, Weighted(e)))
  }

  /** Search-console metrics as a real export gives them: counts and rates
      not negative, clicks not above impressions. */
  predicate GscWellFormed(m: map<string, real>) {
    && 0.0 <= Metric(m, "clicks")
    && (Metric(m, "impressions") > 0.0 ==> Metric(m, "clicks") <= Metric(m, "impressions"))
    && 0.0 <= Metric(m, "ctr")
  }

  /** Page-explorer metrics with non-negative importance and health. */
  predicate PeWellFormed(m: map<string, real>) {
    0.0 <= Metric(m, "importance") && 0.0 <= Metric(m, "health")
  }

  /** The three search-console terms of well-formed metrics add up to a
      score in [0, 1]. */
  lemma GscScoreBounds(m: map<string, real>)
    requires GscWellFormed(m)
    ensures 0.0 <= GscScore(m) <= 1.0
  {
    var c := ClickRateTerm(Metric(m, "clicks"), Metric(m, "impressions"));
    var t := CtrTerm(Metric(m, "ctr"));
    var p := PositionTerm(Metric(m, "position"));
    assert 0.0 <= c <= 0.3 && 0.0 <= t <= 0.3 && 0.0 <= p <= 0.4;
    assert GscScore(m) == c + t + p;
  }

  /** The four page-explorer terms of well-formed metrics add up to a score
      in [0, 1]. */
  lemma PeScoreBounds(m: map<string, real>)
    requires PeWellFormed(m)
    ensures 0.0 <= PeScore(m) <= 1.0
  {
    var i := ImportanceTerm(Metric(m, "importance"));
    var d := DepthTerm(Metric(m, "depth"));
    var l := LinksTerm(Metric(m, "internal_links"));
    var h := HealthTerm(Metric(m, "health"));
    assert 0.0 <= i <= 0.4 && 0.0 <= d <= 0.2 && 0.0 <= l <= 0.2 && 0.0 <= h <= 0.2;
    assert PeScore(m) == i + d + l + h;
  }

  /** On well-formed metrics each source score lies in [0, 1], so the 0.4 /
      0.4 / 0.2 weights keep the sum in [0, 1] and only the lower clamp
      can act. */
  lemma WellFormedScores(e: Record)
    requires GscWellFormed(e.metrics) && PeWellFormed(e.metrics)
    ensures 0.0 <= GscScore(e.metrics) <= 1.0
    ensures 0.0 <= PeScore(e.metrics) <= 1.0
    ensures 0.0 <= Weighted(e) <= 1.0
    ensures CalculatePriority(e) == Max(0.1, Weighted(e))
  {
    GscScoreBounds(e.metrics);
    PeScoreBounds(e.metrics);
    var g, q, b := GscScore(e.metrics), PeScore(e.metrics), BusinessScore(e.url);
    WeightedUnit(g, q, b);
    ClampOfUnit(Weighted(e));
  }

  /** Weights summing to 1 keep three scores of [0, 1] in [0, 1]. */
  lemma WeightedUnit(g: real, q: real, b: real)
    requires 0.0 <= g <= 1.0 && 0.0 <= q <= 1.0 && 0.0 <= b <= 1.0
    ensures 0.0 <= 0.4 * g + 0.4 * q + 0.2 * b <= 1.0
  {
  }

  /** On [0, 1] the upper clamp does nothing. */
  lemma ClampOfUnit(w: real)
    requires 0.0 <= w <= 1.0
    ensures Max(0.1, Min(1.0, w)) == Max(0.1, w)
  {
  }

  /** A record whose metrics are all zero or absent scores only on its URL:
      `max(0.1, 0.2 * business)`. */
  lemma ZeroMetricsScore(e: Record)
    requires forall n :: n in e.metrics ==> e.metrics[n] == 0.0
    ensures CalculatePriority(e) == Max(0.1, 0.2 * BusinessScore(e.url))
  {
    var m := e.metrics;
    assert Metric(m, "clicks") == 0.0 && Metric(m, "impressions") == 0.0;
    assert Metric(m, "ctr") == 0.0 && Metric(m, "position") == 0.0;
    assert Metric(m, "importance") == 0.0 && Metric(m, "depth") == 0.0;
    assert Metric(m, "internal_links") == 0.0 && Metric(m, "health") == 0.0;
  }

  /** A record with all metrics zero and a URL matching no business
      pattern scores exactly the floor 0.1. */
  lemma ZeroMetricsNoPatternFloor(e: Record)
    requires forall n :: n in e.metrics ==> e.metrics[n] == 0.0
    requires var u := Lower(e.url);
      !IsIndexLike(u) && !IsTld(u) && !IsBlog(u) && !Contains(u, "/support/") && !IsTool(u)
    ensures CalculatePriority(e) == 0.1
  {
    ZeroMetricsScore(e);
  }

  /** Every business bonus applying at once would sum to 1.3; the cap keeps
      the business part at 1.0. */
  lemma BusinessCapBinds(url: string)
    requires var u := Lower(url);
      IsIndexLike(u) && IsTld(u) && IsBlog(u) && Contains(u, "/support/") && IsTool(u)
    ensures BusinessBonus(url) == 1.3
    ensures BusinessScore(url) == 1.0
  {
  }

  /** The score does not decrease when any of the three parts grows. */
  lemma Monotone(e1: Record, e2: Record)
    requires GscScore(e1.metrics) <= GscScore(e2.metrics)
    requires PeScore(e1.metrics) <= PeScore(e2.metrics)
    requires BusinessScore(e1.url) <= BusinessScore(e2.url)
    ensures CalculatePriority(e1) <= CalculatePriority(e2)
  {
    var g1, p1, b1 := GscScore(e1.metrics), PeScore(e1.metrics), BusinessScore(e1.url);
    var g2, p2, b2 := GscScore(e2.metrics), PeScore(e2.metrics), BusinessScore(e2.url);
    assert Weighted(e1) == 0.4 * g1 + 0.4 * p1 + 0.2 * b1;
    assert Weighted(e2) == 0.4 * g2 + 0.4 * p2 + 0.2 * b2;
    ClampMonotone(Weighted(e1), Weighted(e2));
  }

  lemma ClampMonotone(a: real, b: real)
    requires a <= b
    ensures Max(0.1, Min(1.0, a)) <= Max(0.1, Min(1.0, b))
  {
  }

  /** Each cluster that carries a business bonus passes it on: a `tlds`
      URL scores at least 0.3 on the business part, a `blog` or `tools`
      URL at least 0.2 (a `support` URL reached through `/help/` gets none). */
  lemma ClusterBusinessFloor(url: string)
    ensures AssignCluster(url) == Tlds ==> BusinessScore(url) >= 0.3
    ensures AssignCluster(url) == Blog ==> BusinessScore(url) >= 0.2
    ensures AssignCluster(url) == Tools ==> BusinessScore(url) >= 0.2
  {
  }
}
