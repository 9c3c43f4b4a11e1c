/** Filtering a sequence while mapping it, the shape of `for ... { if (!x) continue; out.push(...) }`
    loops: every element is either dropped or turned into one output element. */
module Filters {
  import opened Results

  /** Positions listed in increasing order, each at most once: the shape of the
      index list that picks a subsequence out of a sequence. */
  predicate StrictlyIncreasing(idx: seq<nat>) {
    forall a, b :: 0 <= a < b < |idx| ==> idx[a] < idx[b]
  }

  /** Keep `f(x).value` for each `x` with `f(x).Some?`, in order. */
  function FilterMap<A, B>(xs: seq<A>, f: A -> Option<B>): seq<B>
    decreases |xs|
  {
    if |xs| == 0 then []
    else (match f(xs[0]) case Some(y) => [y] case None => []) + FilterMap(xs[1..], f)
  }

  /** Every index moved up by one, for a filter that gains an element in front. */
  function Shift(prev: seq<nat>): (shifted: seq<nat>)
    ensures |shifted| == |prev| && forall k :: 0 <= k < |prev| ==> shifted[k] == prev[k] + 1
  {
    seq(|prev|, k requires 0 <= k < |prev| => prev[k] + 1)
  }

  /** Shifting keeps the order and moves bounds and membership up by one. */
  lemma ShiftFacts(prev: seq<nat>, n: nat)
    requires StrictlyIncreasing(prev) && forall k :: 0 <= k < |prev| ==> prev[k] < n
    ensures StrictlyIncreasing(Shift(prev)) && forall k :: 0 <= k < |prev| ==> 0 < Shift(prev)[k] < n + 1
    ensures 0 !in Shift(prev)
    ensures forall i :: 0 < i <= n ==> (i in Shift(prev) <==> i - 1 in prev)
  {
    var shifted := Shift(prev);
    forall i | 0 < i <= n
      ensures i in shifted <==> i - 1 in prev
    {
      if i - 1 in prev {
        var k :| 0 <= k < |prev| && prev[k] == i - 1;
        assert shifted[k] == i;
      }
    }
  }

  /** Putting position 0 in front of a shifted index list keeps it increasing. */
  lemma KeptHead(shifted: seq<nat>, n: nat)
    requires StrictlyIncreasing(shifted) && forall k :: 0 <= k < |shifted| ==> 0 < shifted[k] < n + 1
    ensures StrictlyIncreasing([0] + shifted) && forall k :: 0 <= k < |[0] + shifted| ==> ([0] + shifted)[k] < n + 1
    ensures forall i :: 0 < i ==> (i in [0] + shifted <==> i in shifted)
  {
    var idx := [0] + shifted;
    forall a, b | 0 <= a < b < |idx|
      ensures idx[a] < idx[b]
    {
      assert idx[b] == shifted[b - 1];
      if a > 0 {
        assert idx[a] == shifted[a - 1];
      }
    }
  }

  /** The index list of a filter over `[x] + rest`, built from the one over `rest`:
      position 0 when `x` is kept, then every earlier position moved up by one. */
  lemma ConsIndices(prev: seq<nat>, n: nat, keepHead: bool) returns (idx: seq<nat>)
    requires StrictlyIncreasing(prev) && forall k :: 0 <= k < |prev| ==> prev[k] < n
    ensures keepHead ==> |idx| == |prev| + 1 && idx[0] == 0
                         && forall k :: 0 <= k < |prev| ==> idx[k + 1] == prev[k] + 1
    ensures !keepHead ==> |idx| == |prev| && forall k :: 0 <= k < |prev| ==> idx[k] == prev[k] + 1
    ensures StrictlyIncreasing(idx) && forall k :: 0 <= k < |idx| ==> idx[k] < n + 1
    ensures 0 in idx <==> keepHead
    ensures forall i :: 0 < i <= n ==> (i in idx <==> i - 1 in prev)
  {
    ShiftFacts(prev, n);
    if keepHead {
      idx := [0] + Shift(prev);
      KeptHead(Shift(prev), n);
    } else {
      idx := Shift(prev);
    }
  }

  /** The output is exactly the kept elements, each once and in input order:
      `idx` lists the positions they came from. */
  lemma {:induction false} FilterMapIndices<A, B>(xs: seq<A>, f: A -> Option<B>) returns (idx: seq<nat>)
    ensures |idx| == |FilterMap(xs, f)| && StrictlyIncreasing(idx)
    ensures forall k :: 0 <= k < |idx| ==> idx[k] < |xs| && f(xs[idx[k]]) == Some(FilterMap(xs, f)[k])
    ensures forall i :: 0 <= i < |xs| ==> (i in idx <==> f(xs[i]).Some?)
    decreases |xs|
  {
    if |xs| == 0 {
      idx := [];
    } else {
      var rest := xs[1..];
      var prev := FilterMapIndices(rest, f);
      var keep := f(xs[0]).Some?;
      idx := ConsIndices(prev, |rest|, keep);
      var r := FilterMap(xs, f);
      var later := FilterMap(rest, f);
      if keep {
        assert r == [f(xs[0]).value] + later;
        forall k | 0 < k < |idx|
          ensures idx[k] < |xs| && f(xs[idx[k]]) == Some(r[k])
        {
          assert idx[k] == prev[k - 1] + 1;
          assert xs[idx[k]] == rest[prev[k - 1]];
        }
      } else {
        assert r == later;
        forall k | 0 <= k < |idx|
          ensures idx[k] < |xs| && f(xs[idx[k]]) == Some(r[k])
        {
          assert xs[idx[k]] == rest[prev[k]];
        }
      }
      forall i | 0 < i < |xs|
        ensures i in idx <==> f(xs[i]).Some?
      {
        assert xs[i] == rest[i - 1];
      }
    }
  }
}
