/** A loop that walks a list and, for each element, skips it, aborts the
    whole walk with an error, or appends a value to the result: the shape
    of `extract_urls_from_sitemap`, stated once for any element and value
    type. */
module Collecting {
  import opened Wrappers
  import opened Seqs

  /** What the loop body decides for one element. */
  datatype Verdict<V> = Skip | Abort(msg: string) | Take(value: V)

  /** Runs the loop: the values taken, in order, or the first abort. */
  function Collect<E, V>(es: seq<E>, judge: E -> Verdict<V>): (r: Result<seq<V>, string>)
    ensures r.Success? ==> |r.value| <= |es|
    decreases |es|
  {
    if es == [] then Success([])
    else match judge(es[0])
      case Skip => Collect(es[1..], judge)
      case Abort(m) => Failure(m)
      case Take(v) =>
        match Collect(es[1..], judge)
        case Failure(m) => Failure(m)
        case Success(vs) => Success([v] + vs)
  }

  /** The elements the loop takes a value from. */
  function Taking<E, V>(judge: E -> Verdict<V>): E -> bool {
    x => judge(x).Take?
  }

  /** The loop fails exactly when some element aborts it. */
  lemma {:induction false} CollectFails<E, V>(es: seq<E>, judge: E -> Verdict<V>)
    ensures Collect(es, judge).Failure? <==> exists x :: x in es && judge(x).Abort?
    decreases |es|
  {
    if es != [] {
      CollectFails(es[1..], judge);
      assert es == [es[0]] + es[1..];
      assert forall x :: x in es <==> x == es[0] || x in es[1..];
    }
  }

  /** Otherwise it yields, in order, the value of every element it takes. */
  lemma {:induction false} CollectKeeps<E, V>(es: seq<E>, judge: E -> Verdict<V>)
    requires forall x :: x in es ==> !judge(x).Abort?
    ensures Collect(es, judge).Success?
    ensures var r, kept := Collect(es, judge).value, Select(es, Taking(judge), true);
      |r| == |kept| && forall i :: 0 <= i < |r| ==> r[i] == judge(kept[i]).value
    decreases |es|
  {
    if es != [] {
      assert forall y :: y in es[1..] ==> y in es;
      assert es[0] in es;
      CollectKeeps(es[1..], judge);
      SelectCons(es[0], es[1..], Taking(judge), true);
      assert es == [es[0]] + es[1..];
      var kt, rt := Select(es[1..], Taking(judge), true), Collect(es[1..], judge).value;
      var kept, r := Select(es, Taking(judge), true), Collect(es, judge).value;
      if judge(es[0]).Take? {
        assert kept == [es[0]] + kt;
        assert r == [judge(es[0]).value] + rt;
        forall i | 0 <= i < |r|
          ensures r[i] == judge(kept[i]).value
        {
          if i > 0 {
            assert kept[i] == kt[i - 1] && r[i] == rt[i - 1];
          }
        }
      } else {
        assert kept == kt && r == rt;
      }
    }
  }
}
