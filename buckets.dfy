/**
 * Label-to-count objects such as the result of `groupBy`: entries
 * `(label, count)` kept in the order their labels were first assigned,
 * which is the order `Object.entries` returns them in.
 */
module Buckets {

  /** Position of label `k` in `h`, or `|h|` when `h` has no such label. */
  function IndexOf(h: seq<(string, int)>, k: string): (i: nat)
    ensures i <= |h|
    ensures i < |h| ==> h[i].0 == k
    ensures forall j :: 0 <= j < i ==> h[j].0 != k
  {
    if h == [] then 0
    else if h[0].0 == k then 0
    else 1 + IndexOf(h[1..], k)
  }

  predicate HasKey(h: seq<(string, int)>, k: string) {
    IndexOf(h, k) < |h|
  }

  predicate DistinctKeys(h: seq<(string, int)>) {
    forall i, j :: 0 <= i < j < |h| ==> h[i].0 != h[j].0
  }

  /** The count stored under `k`, `0` when `k` is absent (`result[k] || 0`). */
  function CountOf(h: seq<(string, int)>, k: string): int {
    var i := IndexOf(h, k);
    if i < |h| then h[i].1 else 0
  }

  /** Sum of all counts. */
  function Total(h: seq<(string, int)>): int {
    if h == [] then 0 else Total(h[..|h| - 1]) + h[|h| - 1].1
  }

  /** `result[k] = (result[k] || 0) + 1`. */
  function Bump(h: seq<(string, int)>, k: string): seq<(string, int)> {
    var i := IndexOf(h, k);
    if i < |h| then h[i := (k, h[i].1 + 1)] else h + [(k, 1)]
  }

  /** The object obtained by bumping every label of `ks`, in order. */
  function Tally(ks: seq<string>): seq<(string, int)> {
    if ks == [] then [] else Bump(Tally(ks[..|ks| - 1]), ks[|ks| - 1])
  }

  /** How many times `k` occurs in `ks`. */
  function Occurrences(ks: seq<string>, k: string): nat {
    if ks == [] then 0
    else Occurrences(ks[..|ks| - 1], k) + (if ks[|ks| - 1] == k then 1 else 0)
  }

  /** Index of the first occurrence of `k` in `ks`, `|ks|` when there is none. */
  function FirstPos(ks: seq<string>, k: string): (i: nat)
    ensures i <= |ks|
    ensures i < |ks| ==> ks[i] == k
    ensures forall j :: 0 <= j < i ==> ks[j] != k
  {
    if ks == [] then 0
    else if ks[0] == k then 0
    else 1 + FirstPos(ks[1..], k)
  }

  /** Tallying one more label bumps it. */
  lemma {:induction false} TallySnoc(ks: seq<string>, x: string)
    ensures Tally(ks + [x]) == Bump(Tally(ks), x)
  {
    assert (ks + [x])[..|ks|] == ks;
  }

  lemma {:induction false} IndexOfSameKeys(a: seq<(string, int)>, b: seq<(string, int)>, k: string)
    requires |a| == |b|
    requires forall j :: 0 <= j < |a| ==> a[j].0 == b[j].0
    ensures IndexOf(a, k) == IndexOf(b, k)
  {
  }

  /** In a list with distinct labels, each entry is found at its own
      position. */
  lemma {:induction false} IndexOfDistinct(h: seq<(string, int)>, m: nat)
    requires DistinctKeys(h) && m < |h|
    ensures IndexOf(h, h[m].0) == m
  {
  }

  lemma {:induction false} IndexOfAppend(a: seq<(string, int)>, e: (string, int), k: string)
    ensures IndexOf(a + [e], k) ==
      if HasKey(a, k) then IndexOf(a, k) else if e.0 == k then |a| else |a| + 1
  {
    assert forall j :: 0 <= j < |a| ==> (a + [e])[j] == a[j];
    assert (a + [e])[|a|] == e;
  }

  lemma {:induction false} FirstPosAppend(ks: seq<string>, x: string, k: string)
    ensures FirstPos(ks + [x], k) ==
      if k in ks then FirstPos(ks, k) else if x == k then |ks| else |ks| + 1
  {
    assert forall j :: 0 <= j < |ks| ==> (ks + [x])[j] == ks[j];
    assert (ks + [x])[|ks|] == x;
    if k in ks {
      var w :| 0 <= w < |ks| && ks[w] == k;
      assert FirstPos(ks, k) <= w;
    }
  }

  lemma {:induction false} TotalUpdate(h: seq<(string, int)>, i: nat, e: (string, int))
    requires i < |h|
    ensures Total(h[i := e]) == Total(h) - h[i].1 + e.1
  {
    var n := |h| - 1;
    if i == n {
      assert h[i := e][..n] == h[..n];
    } else {
      assert h[i := e][..n] == h[..n][i := e];
      TotalUpdate(h[..n], i, e);
    }
  }

  lemma {:induction false} TotalAppend(h: seq<(string, int)>, e: (string, int))
    ensures Total(h + [e]) == Total(h) + e.1
  {
    assert (h + [e])[..|h|] == h;
  }

  lemma {:induction false} BumpPresent(h: seq<(string, int)>, k: string)
    requires DistinctKeys(h) && HasKey(h, k)
    ensures DistinctKeys(Bump(h, k))
    ensures Total(Bump(h, k)) == Total(h) + 1
    ensures forall k' :: IndexOf(Bump(h, k), k') == IndexOf(h, k')
    ensures |Bump(h, k)| == |h| && forall i :: 0 <= i < |h| ==>
      Bump(h, k)[i].0 == h[i].0 && Bump(h, k)[i].1 == h[i].1 + (if i == IndexOf(h, k) then 1 else 0)
  {
    var i := IndexOf(h, k);
    var e := (k, h[i].1 + 1);
    var b := h[i := e];
    assert Bump(h, k) == b;
    TotalUpdate(h, i, e);
    assert forall j :: 0 <= j < |h| ==> b[j].0 == h[j].0;
    forall k' ensures IndexOf(b, k') == IndexOf(h, k') {
      IndexOfSameKeys(b, h, k');
    }
  }

  lemma {:induction false} BumpAbsent(h: seq<(string, int)>, k: string)
    requires DistinctKeys(h) && !HasKey(h, k)
    ensures Bump(h, k) == h + [(k, 1)]
    ensures DistinctKeys(Bump(h, k))
    ensures Total(Bump(h, k)) == Total(h) + 1
    ensures forall k' :: IndexOf(Bump(h, k), k') == if HasKey(h, k') then IndexOf(h, k') else if k == k' then |h| else |h| + 1
  {
    TotalAppend(h, (k, 1));
    forall k' ensures IndexOf(h + [(k, 1)], k') == if HasKey(h, k') then IndexOf(h, k') else if k == k' then |h| else |h| + 1 {
      IndexOfAppend(h, (k, 1), k');
    }
  }

  /** One bump changes exactly one count, by one, and keeps the labels
      distinct, positive and in first-assignment order. */
  lemma {:induction false} BumpFacts(h: seq<(string, int)>, k: string)
    requires DistinctKeys(h)
    ensures DistinctKeys(Bump(h, k))
    ensures Total(Bump(h, k)) == Total(h) + 1
    ensures forall k' :: CountOf(Bump(h, k), k') == CountOf(h, k') + (if k' == k then 1 else 0)
    ensures forall k' :: HasKey(Bump(h, k), k') <==> HasKey(h, k') || k' == k
    ensures HasKey(h, k) ==> |Bump(h, k)| == |h| && forall i :: 0 <= i < |h| ==>
      Bump(h, k)[i].0 == h[i].0 && Bump(h, k)[i].1 >= h[i].1
    ensures !HasKey(h, k) ==> Bump(h, k) == h + [(k, 1)]
  {
    var b := Bump(h, k);
    if HasKey(h, k) {
      BumpPresent(h, k);
      forall k' ensures CountOf(b, k') == CountOf(h, k') + (if k' == k then 1 else 0) {
      }
    } else {
      BumpAbsent(h, k);
      forall k' ensures CountOf(b, k') == CountOf(h, k') + (if k' == k then 1 else 0) {
        assert b[|h|] == (k, 1);
        assert forall j :: 0 <= j < |h| ==> b[j] == h[j];
      }
    }
  }

  /** The counts of `groupBy`: one entry per distinct label holding the
      number of occurrences of that label, so every count is at least 1 and
      the counts add up to the number of labels. */
  lemma {:induction false} TallyCounts(ks: seq<string>)
    ensures DistinctKeys(Tally(ks))
    ensures Total(Tally(ks)) == |ks|
    ensures forall k :: CountOf(Tally(ks), k) == Occurrences(ks, k)
    ensures forall i :: 0 <= i < |Tally(ks)| ==> Tally(ks)[i].1 >= 1
  {
    if ks != [] {
      var n := |ks| - 1;
      var pre, x := ks[..n], ks[n];
      TallyCounts(pre);
      var h := Tally(pre);
      BumpFacts(h, x);
      var t := Tally(ks);
      assert t == Bump(h, x);
      forall i | 0 <= i < |t| ensures t[i].1 >= 1 {
      }
    }
  }

  /** The labels of `groupBy` are exactly the labels that occur. */
  lemma {:induction false} TallyKeys(ks: seq<string>)
    ensures forall k :: HasKey(Tally(ks), k) <==> k in ks
  {
    if ks != [] {
      var n := |ks| - 1;
      var pre, x := ks[..n], ks[n];
      assert ks == pre + [x];
      TallyKeys(pre);
      TallyCounts(pre);
      BumpFacts(Tally(pre), x);
    }
  }

  /** The entries of `groupBy` come in the order their labels first occur. */
  lemma {:induction false} TallyOrder(ks: seq<string>)
    ensures forall i, j :: 0 <= i < j < |Tally(ks)| ==>
      FirstPos(ks, Tally(ks)[i].0) < FirstPos(ks, Tally(ks)[j].0)
  {
    if ks != [] {
      var n := |ks| - 1;
      var pre := ks[..n];
      assert ks == pre + [ks[n]];
      TallyOrder(pre);
      TallyKeys(pre);
      TallyCounts(pre);
      TallyOrderStep(pre, ks[n]);
    }
  }

  lemma {:induction false} TallyOrderStep(pre: seq<string>, x: string)
    requires DistinctKeys(Tally(pre))
    requires forall k :: HasKey(Tally(pre), k) <==> k in pre
    requires forall i, j :: 0 <= i < j < |Tally(pre)| ==>
      FirstPos(pre, Tally(pre)[i].0) < FirstPos(pre, Tally(pre)[j].0)
    ensures var ks := pre + [x];
      forall i, j :: 0 <= i < j < |Tally(ks)| ==>
        FirstPos(ks, Tally(ks)[i].0) < FirstPos(ks, Tally(ks)[j].0)
  {
    var ks := pre + [x];
    assert ks[..|pre|] == pre;
    var h := Tally(pre);
    var t := Tally(ks);
    assert t == Bump(h, x);
    BumpFacts(h, x);
    forall k ensures FirstPos(ks, k) == if k in pre then FirstPos(pre, k) else if x == k then |pre| else |pre| + 1 {
      FirstPosAppend(pre, x, k);
    }
    forall i | 0 <= i < |h| ensures h[i].0 in pre && t[i].0 == h[i].0 {
      assert HasKey(h, h[i].0);
    }
    forall i, j | 0 <= i < j < |t| ensures FirstPos(ks, t[i].0) < FirstPos(ks, t[j].0) {
      if j == |h| {
        assert !HasKey(h, x) && t[j].0 == x && x !in pre;
      }
    }
  }
}
