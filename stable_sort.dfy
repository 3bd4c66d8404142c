/**
 * `Object.entries(o).sort(([, a], [, b]) => b - a)`: entries ordered by
 * descending score. `Array.prototype.sort` is stable, so entries with equal
 * scores keep their original relative order; the model is an insertion sort
 * that places each entry after every entry scoring at least as much.
 */
module StableSort {
  import opened Buckets

  function Insert(x: (string, int), s: seq<(string, int)>): seq<(string, int)> {
    if s == [] then [x]
    else if s[0].1 >= x.1 then [s[0]] + Insert(x, s[1..])
    else [x] + s
  }

  function SortDesc(s: seq<(string, int)>): seq<(string, int)> {
    if s == [] then [] else Insert(s[|s| - 1], SortDesc(s[..|s| - 1]))
  }

  predicate SortedDesc(s: seq<(string, int)>) {
    forall i, j :: 0 <= i < j < |s| ==> s[i].1 >= s[j].1
  }

  /** The entries scoring exactly `v`, in their order in `s`. */
  function WithScore(s: seq<(string, int)>, v: int): seq<(string, int)> {
    if s == [] then []
    else (if s[0].1 == v then [s[0]] else []) + WithScore(s[1..], v)
  }

  /** The first entry, in order, that carries the largest score. */
  function FirstMax(s: seq<(string, int)>): (i: nat)
    requires |s| > 0
    ensures i < |s|
    ensures forall j :: 0 <= j < |s| ==> s[j].1 <= s[i].1
    ensures forall j :: 0 <= j < i ==> s[j].1 < s[i].1
  {
    if |s| == 1 then 0
    else
      var j := FirstMax(s[..|s| - 1]);
      if s[|s| - 1].1 > s[j].1 then |s| - 1 else j
  }

  /** The first `n` entries: `.slice(0, n)`. */
  function Take(s: seq<(string, int)>, n: nat): (r: seq<(string, int)>)
    ensures |r| == if |s| < n then |s| else n
    ensures r == s[..|r|]
  {
    if |s| < n then s else s[..n]
  }

  lemma {:induction false} InsertPerm(x: (string, int), s: seq<(string, int)>)
    ensures multiset(Insert(x, s)) == multiset(s) + multiset{x}
    ensures |Insert(x, s)| == |s| + 1
  {
    if s != [] && s[0].1 >= x.1 {
      InsertPerm(x, s[1..]);
      assert s == [s[0]] + s[1..];
    }
  }

  lemma {:induction false} InsertSorted(x: (string, int), s: seq<(string, int)>)
    requires SortedDesc(s)
    ensures SortedDesc(Insert(x, s))
  {
    if s != [] && s[0].1 >= x.1 {
      var tail := s[1..];
      InsertSorted(x, tail);
      InsertPerm(x, tail);
      var r := Insert(x, tail);
      forall j | 0 <= j < |r| ensures s[0].1 >= r[j].1 {
        assert r[j] in multiset(tail) + multiset{x};
        if r[j] in multiset(tail) {
          var k :| 0 <= k < |tail| && tail[k] == r[j];
          assert s[k + 1] == r[j];
        }
      }
    }
  }

  lemma {:induction false} WithScoreAppend(a: seq<(string, int)>, b: seq<(string, int)>, v: int)
    ensures WithScore(a + b, v) == WithScore(a, v) + WithScore(b, v)
  {
    if a != [] {
      assert (a + b)[1..] == a[1..] + b;
      WithScoreAppend(a[1..], b, v);
    } else {
      assert a + b == b;
    }
  }

  lemma {:induction false} WithScoreNone(s: seq<(string, int)>, v: int)
    requires forall i :: 0 <= i < |s| ==> s[i].1 != v
    ensures WithScore(s, v) == []
  {
    if s != [] {
      WithScoreNone(s[1..], v);
    }
  }

  lemma {:induction false} WithScoreCons(e: (string, int), s: seq<(string, int)>, v: int)
    ensures WithScore([e] + s, v) == (if e.1 == v then [e] else []) + WithScore(s, v)
  {
    assert ([e] + s)[0] == e;
    assert ([e] + s)[1..] == s;
  }

  /** Inserting `x` into a sorted list puts it after every entry with the
      same score. */
  lemma {:induction false} InsertStable(x: (string, int), s: seq<(string, int)>, v: int)
    requires SortedDesc(s)
    ensures WithScore(Insert(x, s), v) == WithScore(s, v) + (if x.1 == v then [x] else [])
  {
    if s == [] {
      assert Insert(x, s) == [x];
      WithScoreCons(x, [], v);
    } else if s[0].1 >= x.1 {
      var t := s[1..];
      assert SortedDesc(t) by {
        forall i, j | 0 <= i < j < |t| ensures t[i].1 >= t[j].1 {
          assert t[i] == s[i + 1] && t[j] == s[j + 1];
        }
      }
      InsertStable(x, t, v);
      assert Insert(x, s) == [s[0]] + Insert(x, t);
      WithScoreCons(s[0], Insert(x, t), v);
      WithScoreCons(s[0], t, v);
      assert s == [s[0]] + t;
    } else {
      assert Insert(x, s) == [x] + s;
      WithScoreCons(x, s, v);
      if x.1 == v {
        WithScoreNone(s, v);
      }
    }
  }

  /** The sort is a stable sort: its result is sorted by descending score, is
      a permutation of its input, and lists the entries of each score in the
      order the input lists them. */
  lemma {:induction false} SortDescFacts(s: seq<(string, int)>)
    ensures |SortDesc(s)| == |s|
    ensures SortedDesc(SortDesc(s))
    ensures multiset(SortDesc(s)) == multiset(s)
    ensures forall v :: WithScore(SortDesc(s), v) == WithScore(s, v)
  {
    if s != [] {
      var n := |s| - 1;
      var pre, x := s[..n], s[n];
      assert s == pre + [x];
      SortDescFacts(pre);
      InsertPerm(x, SortDesc(pre));
      InsertSorted(x, SortDesc(pre));
      forall v ensures WithScore(SortDesc(s), v) == WithScore(s, v) {
        InsertStable(x, SortDesc(pre), v);
        WithScoreAppend(pre, [x], v);
      }
    }
  }

  lemma {:induction false} WithScoreFirst(s: seq<(string, int)>, m: nat)
    requires m < |s|
    requires forall j :: 0 <= j < m ==> s[j].1 != s[m].1
    ensures |WithScore(s, s[m].1)| > 0 && WithScore(s, s[m].1)[0] == s[m]
  {
    if m > 0 {
      WithScoreFirst(s[1..], m - 1);
    }
  }

  /** The head of the sorted list, which `generateInsights` reports, is the
      first entry carrying the largest score. */
  lemma {:induction false} SortHead(s: seq<(string, int)>)
    requires |s| > 0
    ensures |SortDesc(s)| == |s|
    ensures SortDesc(s)[0] == s[FirstMax(s)]
  {
    var o := SortDesc(s);
    var m := FirstMax(s);
    var v := s[m].1;
    SortDescFacts(s);
    assert s[m] in multiset(o);
    var p :| 0 <= p < |o| && o[p] == s[m];
    assert o[0] in multiset(s);
    var q :| 0 <= q < |s| && s[q] == o[0];
    assert o[0].1 == v;
    WithScoreFirst(s, m);
    assert WithScore(o, v)[0] == o[0];
  }

  /** Entries with equal scores come in the order their labels first occur
      in `order`. */
  predicate TiesOrdered(s: seq<(string, int)>, order: seq<string>) {
    forall i, j :: 0 <= i < j < |s| && s[i].1 == s[j].1 ==> FirstPos(order, s[i].0) < FirstPos(order, s[j].0)
  }

  /** Every entry's label first occurs in `order` before the next entry's. */
  predicate InOrder(s: seq<(string, int)>, order: seq<string>) {
    forall i, j :: 0 <= i < j < |s| ==> FirstPos(order, s[i].0) < FirstPos(order, s[j].0)
  }

  /** Inserting an entry whose label occurs after every label of a sorted
      list keeps ties in order and labels distinct. */
  lemma {:induction false} InsertTies(x: (string, int), o: seq<(string, int)>, order: seq<string>)
    requires SortedDesc(o) && TiesOrdered(o, order) && DistinctKeys(o)
    requires forall y :: y in o ==> FirstPos(order, y.0) < FirstPos(order, x.0)
    ensures TiesOrdered(Insert(x, o), order) && DistinctKeys(Insert(x, o))
  {
    if o == [] {
      assert Insert(x, o) == [x];
    } else if o[0].1 >= x.1 {
      var t := o[1..];
      TailKeeps(x, o, order);
      InsertTies(x, t, order);
      InsertPerm(x, t);
      var r := Insert(x, t);
      HeadApart(x, o, r, order);
      ConsTies(o[0], r, order);
      assert Insert(x, o) == [o[0]] + r;
    } else {
      InsertFront(x, o, order);
      assert Insert(x, o) == [x] + o;
    }
  }

  lemma {:induction false} TailKeeps(x: (string, int), o: seq<(string, int)>, order: seq<string>)
    requires o != [] && SortedDesc(o) && TiesOrdered(o, order) && DistinctKeys(o)
    requires forall y :: y in o ==> FirstPos(order, y.0) < FirstPos(order, x.0)
    ensures var t := o[1..]; SortedDesc(t) && TiesOrdered(t, order) && DistinctKeys(t)
    ensures forall y :: y in o[1..] ==> FirstPos(order, y.0) < FirstPos(order, x.0)
  {
    var t := o[1..];
    assert forall i :: 0 <= i < |t| ==> t[i] == o[i + 1];
    forall y | y in t ensures y in o {
      var k :| 0 <= k < |t| && t[k] == y;
    }
  }

  /** The head of the list stays apart from, and ahead of its ties among,
      the entries after it, whichever of them is the inserted one. */
  lemma {:induction false} HeadApart(x: (string, int), o: seq<(string, int)>, r: seq<(string, int)>, order: seq<string>)
    requires o != [] && TiesOrdered(o, order) && DistinctKeys(o)
    requires forall y :: y in o ==> FirstPos(order, y.0) < FirstPos(order, x.0)
    requires multiset(r) == multiset(o[1..]) + multiset{x}
    ensures forall j :: 0 <= j < |r| ==>
      o[0].0 != r[j].0 && (o[0].1 == r[j].1 ==> FirstPos(order, o[0].0) < FirstPos(order, r[j].0))
  {
    var t := o[1..];
    forall j | 0 <= j < |r|
      ensures o[0].0 != r[j].0 && (o[0].1 == r[j].1 ==> FirstPos(order, o[0].0) < FirstPos(order, r[j].0))
    {
      assert r[j] in multiset(r);
      if r[j] in multiset(t) {
        var k :| 0 <= k < |t| && t[k] == r[j];
        assert o[k + 1] == r[j];
      } else {
        assert r[j] == x;
      }
    }
  }

  lemma {:induction false} ConsTies(e: (string, int), r: seq<(string, int)>, order: seq<string>)
    requires TiesOrdered(r, order) && DistinctKeys(r)
    requires forall j :: 0 <= j < |r| ==>
      e.0 != r[j].0 && (e.1 == r[j].1 ==> FirstPos(order, e.0) < FirstPos(order, r[j].0))
    ensures TiesOrdered([e] + r, order) && DistinctKeys([e] + r)
  {
    var l := [e] + r;
    assert forall j :: 0 < j < |l| ==> l[j] == r[j - 1];
  }

  lemma {:induction false} InsertFront(x: (string, int), o: seq<(string, int)>, order: seq<string>)
    requires o != [] && o[0].1 < x.1
    requires SortedDesc(o) && TiesOrdered(o, order) && DistinctKeys(o)
    requires forall y :: y in o ==> FirstPos(order, y.0) < FirstPos(order, x.0)
    ensures TiesOrdered([x] + o, order) && DistinctKeys([x] + o)
  {
    var l := [x] + o;
    assert forall j :: 0 < j < |l| ==>
      l[j] == o[j - 1] && l[j].1 < x.1 && FirstPos(order, l[j].0) < FirstPos(order, x.0);
  }

  /** Sorting a list whose labels come in the order of `order` lists the
      entries of equal score in that order, and keeps labels distinct. */
  lemma {:induction false} SortTies(s: seq<(string, int)>, order: seq<string>)
    requires InOrder(s, order)
    ensures TiesOrdered(SortDesc(s), order) && DistinctKeys(SortDesc(s))
  {
    if s != [] {
      var n := |s| - 1;
      var pre, x := s[..n], s[n];
      assert forall i :: 0 <= i < n ==> pre[i] == s[i];
      SortTies(pre, order);
      SortDescFacts(pre);
      var o := SortDesc(pre);
      forall y | y in o ensures FirstPos(order, y.0) < FirstPos(order, x.0) {
        assert y in multiset(pre);
        var k :| 0 <= k < n && pre[k] == y;
      }
      InsertTies(x, o, order);
    }
  }

  /** A prefix keeps ties in order and labels distinct. */
  lemma {:induction false} TakeKeeps(s: seq<(string, int)>, n: nat, order: seq<string>)
    requires TiesOrdered(s, order) && DistinctKeys(s)
    ensures TiesOrdered(Take(s, n), order) && DistinctKeys(Take(s, n))
  {
    var r := Take(s, n);
    assert forall i :: 0 <= i < |r| ==> r[i] == s[i];
  }

  /** An entry of a tie-ordered list that misses the first `n` comes after
      every kept entry with the same score. */
  lemma {:induction false} CutTies(o: seq<(string, int)>, n: nat, order: seq<string>, x: (string, int))
    requires TiesOrdered(o, order) && x in o
    requires forall i :: 0 <= i < |Take(o, n)| ==> Take(o, n)[i].0 != x.0
    ensures forall i :: 0 <= i < |Take(o, n)| && Take(o, n)[i].1 == x.1 ==>
      FirstPos(order, Take(o, n)[i].0) < FirstPos(order, x.0)
  {
  }
}
