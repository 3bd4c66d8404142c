/**
 * `rankFeatures`: every field of every response whose key names a feature
 * and whose value parses to a positive rating adds to that feature's total
 * and count; each feature's mean rating is rounded to hundredths, the means
 * are sorted in descending order and the first ten are kept.
 */
module Features {
  import opened JsValue
  import opened ParseInt
  import opened Buckets
  import opened StableSort
  import opened Arith

  /** `s.includes(p)`. */
  predicate Includes(s: string, p: string) {
    if |s| < |p| then false else s[..|p|] == p || Includes(s[1..], p)
  }

  /** A key that `rankFeatures` looks at. */
  predicate IsFeatureKey(k: string) {
    Includes(k, "feature") || Includes(k, "Feature") || Includes(k, "ميزة")
  }

  /** `parseInt(value) || 0`: NaN and `0` both give `0`. */
  function Rating(v: Value): int {
    match ParseIntValue(Some(v))
    case Some(n) => n
    case None => 0
  }

  /** One entry of `featureScores`. */
  datatype Score = Score(key: string, total: int, count: nat)

  /** A `(key, rating)` pair that adds to its feature's score. */
  predicate Counts(p: (string, int)) {
    IsFeatureKey(p.0) && p.1 > 0
  }

  /** A field that adds to its feature's score. */
  predicate Contributes(f: Field) {
    Counts((f.key, Rating(f.value)))
  }

  /** The key and the rating of every field visited, in visiting order. */
  function Rated(fs: seq<Field>): (ps: seq<(string, int)>)
    ensures |ps| == |fs|
    ensures forall i :: 0 <= i < |fs| ==> ps[i] == (fs[i].key, Rating(fs[i].value))
  {
    seq(|fs|, i requires 0 <= i < |fs| => (fs[i].key, Rating(fs[i].value)))
  }

  /** The pairs that pass both tests of the loop body. */
  function Kept(ps: seq<(string, int)>): seq<(string, int)> {
    if ps == [] then []
    else Kept(ps[..|ps| - 1]) + (if Counts(ps[|ps| - 1]) then [ps[|ps| - 1]] else [])
  }

  /** The `(key, rating)` pairs that reach the scores, in visiting order. */
  function Contributions(fs: seq<Field>): seq<(string, int)> {
    Kept(Rated(fs))
  }

  /** Position of feature `k` in `ss`, or `|ss|` when it has no entry. */
  function ScoreIndex(ss: seq<Score>, k: string): (i: nat)
    ensures i <= |ss|
    ensures i < |ss| ==> ss[i].key == k
    ensures forall j :: 0 <= j < i ==> ss[j].key != k
  {
    if ss == [] then 0
    else if ss[0].key == k then 0
    else 1 + ScoreIndex(ss[1..], k)
  }

  predicate HasScore(ss: seq<Score>, k: string) {
    ScoreIndex(ss, k) < |ss|
  }

  predicate DistinctFeatures(ss: seq<Score>) {
    forall i, j :: 0 <= i < j < |ss| ==> ss[i].key != ss[j].key
  }

  /** `featureScores[k] = featureScores[k] || {total: 0, count: 0}`, then
      `total += rating` and `count += 1`. */
  function Credit(ss: seq<Score>, k: string, rating: int): seq<Score> {
    var i := ScoreIndex(ss, k);
    if i < |ss| then ss[i := Score(k, ss[i].total + rating, ss[i].count + 1)]
    else ss + [Score(k, rating, 1)]
  }

  /** One field visited: its rating is credited when it contributes. */
  function Visit(ss: seq<Score>, p: (string, int)): seq<Score> {
    if Counts(p) then Credit(ss, p.0, p.1) else ss
  }

  /** The scores after crediting the pairs `ps` in order. */
  function ScoreTally(ps: seq<(string, int)>): seq<Score> {
    if ps == [] then [] else Credit(ScoreTally(ps[..|ps| - 1]), ps[|ps| - 1].0, ps[|ps| - 1].1)
  }

  /** Reference definitions: how many ratings feature `k` received, and
      their sum. */
  function CountFor(ps: seq<(string, int)>, k: string): nat {
    if ps == [] then 0
    else CountFor(ps[..|ps| - 1], k) + (if ps[|ps| - 1].0 == k then 1 else 0)
  }

  function SumFor(ps: seq<(string, int)>, k: string): int {
    if ps == [] then 0
    else SumFor(ps[..|ps| - 1], k) + (if ps[|ps| - 1].0 == k then ps[|ps| - 1].1 else 0)
  }

  /** `(total / count).toFixed(2)`, as a number of hundredths: the quotient
      rounded to the nearest hundredth, halves rounded up. */
  function Hundredths(total: int, count: int): (h: int)
    requires count > 0
    ensures 2 * count * h <= 200 * total + count < 2 * count * (h + 1)
  {
    (200 * total + count) / (2 * count)
  }

  /** `data.count ? (data.total / data.count).toFixed(2) : 0`. */
  function Average(s: Score): int {
    if s.count != 0 then Hundredths(s.total, s.count) else 0
  }

  /** The `averages` object: one entry per scored feature, in the same order. */
  function Averages(ss: seq<Score>): (r: seq<(string, int)>)
    ensures |r| == |ss|
    ensures forall i :: 0 <= i < |ss| ==> r[i] == (ss[i].key, Average(ss[i]))
  {
    seq(|ss|, i requires 0 <= i < |ss| => (ss[i].key, Average(ss[i])))
  }

  /** The result of `rankFeatures` as a specification. */
  function Ranking(responses: seq<Record>): seq<(string, int)> {
    Take(SortDesc(Averages(ScoreTally(Contributions(Flatten(responses))))), 10)
  }

  method RankFeatures(responses: seq<Record>) returns (ranked: seq<(string, int)>)
    ensures ranked == Ranking(responses)
    ensures |ranked| <= 10 && SortedDesc(ranked)
    ensures var ps := Contributions(Flatten(responses));
      forall i :: 0 <= i < |ranked| ==>
        IsFeatureKey(ranked[i].0) && CountFor(ps, ranked[i].0) > 0 &&
        ranked[i].1 == Hundredths(SumFor(ps, ranked[i].0), CountFor(ps, ranked[i].0))
    ensures var ps := Contributions(Flatten(responses));
      forall k :: CountFor(ps, k) > 0 ==>
        HasKey(ranked, k) || (|ranked| == 10 && Hundredths(SumFor(ps, k), CountFor(ps, k)) <= ranked[9].1)
    ensures DistinctKeys(ranked)
    ensures var ks := PairKeys(Contributions(Flatten(responses)));
      forall i, j :: 0 <= i < j < |ranked| && ranked[i].1 == ranked[j].1 ==>
        FirstPos(ks, ranked[i].0) < FirstPos(ks, ranked[j].0)
    ensures var ps := Contributions(Flatten(responses)); var ks := PairKeys(ps);
      forall k :: CountFor(ps, k) > 0 && !HasKey(ranked, k) ==>
        forall i :: 0 <= i < |ranked| && ranked[i].1 == Hundredths(SumFor(ps, k), CountFor(ps, k)) ==>
          FirstPos(ks, ranked[i].0) < FirstPos(ks, k)
  {
    var scores := AccumulateScores(responses);
    var averages := AverageScores(scores);
    ranked := Take(SortDesc(averages), 10);
    RankedEntries(responses);
    RankedCoverage(responses);
    RankedTies(responses);
  }

  /** The outer `forEach` over the responses. */
  method AccumulateScores(responses: seq<Record>) returns (scores: seq<Score>)
    ensures scores == ScoreTally(Contributions(Flatten(responses)))
  {
    scores := [];
    for i := 0 to |responses|
      invariant scores == ScoreTally(Contributions(Flatten(responses[..i])))
    {
      scores := ScoreResponse(scores, Flatten(responses[..i]), responses[i]);
      FlattenSnoc(responses, i);
    }
    assert responses[..|responses|] == responses;
  }

  /** The inner `forEach` over the entries of one response, given the scores
      left by the fields `seen` visited before it. */
  method ScoreResponse(scores: seq<Score>, ghost seen: seq<Field>, response: Record) returns (out: seq<Score>)
    requires scores == ScoreTally(Contributions(seen))
    ensures out == ScoreTally(Contributions(seen + response))
  {
    out := scores;
    assert seen + response[..0] == seen;
    for j := 0 to |response|
      invariant out == ScoreTally(Contributions(seen + response[..j]))
    {
      out := ScoreEntry(out, response[j].key, response[j].value);
      VisitEntry(seen, response, j);
    }
    assert response[..|response|] == response;
  }

  /** The body of the inner `forEach`: one `[key, value]` entry. */
  method ScoreEntry(scores: seq<Score>, key: string, value: Value) returns (out: seq<Score>)
    ensures out == Visit(scores, (key, Rating(value)))
  {
    out := scores;
    if IsFeatureKey(key) {
      var rating := Rating(value);
      if rating > 0 {
        var k := ScoreIndex(out, key);
        if k < |out| {
          out := out[k := Score(key, out[k].total + rating, out[k].count + 1)];
        } else {
          out := out + [Score(key, rating, 1)];
        }
        assert out == Credit(scores, key, rating);
      } else {
        assert !Counts((key, rating));
      }
    } else {
      assert !Counts((key, Rating(value)));
    }
  }

  /** The loop that fills `averages`. */
  method AverageScores(scores: seq<Score>) returns (averages: seq<(string, int)>)
    ensures averages == Averages(scores)
  {
    averages := [];
    for i := 0 to |scores|
      invariant averages == Averages(scores[..i])
    {
      var data := scores[i];
      averages := averages + [(data.key, if data.count != 0 then Hundredths(data.total, data.count) else 0)];
      assert averages == Averages(scores[..i + 1]);
    }
    assert scores[..|scores|] == scores;
  }

  lemma {:induction false} ContributionsSnoc(fs: seq<Field>, f: Field)
    ensures Contributions(fs + [f]) == Contributions(fs) + (if Contributes(f) then [(f.key, Rating(f.value))] else [])
  {
    var ps := Rated(fs + [f]);
    assert ps[..|fs|] == Rated(fs);
    assert ps[|fs|] == (f.key, Rating(f.value));
  }

  lemma {:induction false} ScoreTallySnoc(ps: seq<(string, int)>, p: (string, int))
    ensures ScoreTally(ps + [p]) == Credit(ScoreTally(ps), p.0, p.1)
  {
    assert (ps + [p])[..|ps|] == ps;
  }

  /** Visiting one more field credits its rating when it contributes and
      changes nothing otherwise. */
  lemma {:induction false} VisitField(seen: seq<Field>, f: Field)
    ensures ScoreTally(Contributions(seen + [f])) == Visit(ScoreTally(Contributions(seen)), (f.key, Rating(f.value)))
  {
    ContributionsSnoc(seen, f);
    if Contributes(f) {
      ScoreTallySnoc(Contributions(seen), (f.key, Rating(f.value)));
    } else {
      assert Contributions(seen) + [] == Contributions(seen);
    }
  }

  lemma {:induction false} VisitEntry(seen: seq<Field>, response: seq<Field>, j: nat)
    requires j < |response|
    ensures ScoreTally(Contributions(seen + response[..j + 1])) ==
      Visit(ScoreTally(Contributions(seen + response[..j])), (response[j].key, Rating(response[j].value)))
  {
    assert seen + response[..j + 1] == (seen + response[..j]) + [response[j]];
    VisitField(seen + response[..j], response[j]);
  }

  /** Every pair comes from a feature key and carries a positive rating. */
  lemma {:induction false} ContributionsFacts(fs: seq<Field>)
    ensures forall j :: 0 <= j < |Contributions(fs)| ==>
      IsFeatureKey(Contributions(fs)[j].0) && Contributions(fs)[j].1 > 0
  {
    KeptFacts(Rated(fs));
  }

  lemma {:induction false} KeptFacts(ps: seq<(string, int)>)
    ensures forall j :: 0 <= j < |Kept(ps)| ==> Counts(Kept(ps)[j])
  {
    if ps != [] {
      KeptFacts(ps[..|ps| - 1]);
    }
  }

  /** A feature gets no rating exactly when none of its fields contributes:
      a feature whose values are all NaN or non-positive is left out rather
      than scored 0. */
  lemma {:induction false} ContributionsAbsent(fs: seq<Field>, k: string)
    ensures CountFor(Contributions(fs), k) == 0 <==>
      forall i :: 0 <= i < |fs| && fs[i].key == k ==> !Contributes(fs[i])
  {
    var ps := Rated(fs);
    KeptAbsent(ps, k);
    assert forall i :: 0 <= i < |fs| ==> ps[i] == (fs[i].key, Rating(fs[i].value));
  }

  lemma {:induction false} KeptAbsent(ps: seq<(string, int)>, k: string)
    ensures CountFor(Kept(ps), k) == 0 <==> forall i :: 0 <= i < |ps| && ps[i].0 == k ==> !Counts(ps[i])
  {
    if ps != [] {
      var n := |ps| - 1;
      var pre, p := ps[..n], ps[n];
      KeptAbsent(pre, k);
      CountForAppend(Kept(pre), if Counts(p) then [p] else [], k);
      assert forall i :: 0 <= i < n ==> pre[i] == ps[i];
    }
  }

  lemma {:induction false} CountForAppend(ps: seq<(string, int)>, extra: seq<(string, int)>, k: string)
    requires |extra| <= 1
    ensures CountFor(ps + extra, k) == CountFor(ps, k) + (if |extra| == 1 && extra[0].0 == k then 1 else 0)
    ensures SumFor(ps + extra, k) == SumFor(ps, k) + (if |extra| == 1 && extra[0].0 == k then extra[0].1 else 0)
  {
    if |extra| == 1 {
      assert (ps + extra)[..|ps|] == ps;
    } else {
      assert ps + extra == ps;
    }
  }

  /** Ratings of feature `k` that all lie in `[lo, hi]` give pairs for `k`
      that do too. */
  lemma {:induction false} ContributionsBounds(fs: seq<Field>, k: string, lo: int, hi: int)
    requires forall i :: 0 <= i < |fs| && fs[i].key == k && Contributes(fs[i]) ==> lo <= Rating(fs[i].value) <= hi
    ensures forall j :: 0 <= j < |Contributions(fs)| && Contributions(fs)[j].0 == k ==>
      lo <= Contributions(fs)[j].1 <= hi
  {
    var ps := Rated(fs);
    forall i | 0 <= i < |ps| && ps[i].0 == k && Counts(ps[i]) ensures lo <= ps[i].1 <= hi {
      assert ps[i] == (fs[i].key, Rating(fs[i].value));
    }
    KeptBounds(ps, k, lo, hi);
  }

  lemma {:induction false} KeptBounds(ps: seq<(string, int)>, k: string, lo: int, hi: int)
    requires forall i :: 0 <= i < |ps| && ps[i].0 == k && Counts(ps[i]) ==> lo <= ps[i].1 <= hi
    ensures forall j :: 0 <= j < |Kept(ps)| && Kept(ps)[j].0 == k ==> lo <= Kept(ps)[j].1 <= hi
  {
    if ps != [] {
      var n := |ps| - 1;
      assert forall i :: 0 <= i < n ==> ps[..n][i] == ps[i];
      KeptBounds(ps[..n], k, lo, hi);
    }
  }

  lemma {:induction false} CreditFacts(ss: seq<Score>, k: string, rating: int)
    requires DistinctFeatures(ss)
    ensures DistinctFeatures(Credit(ss, k, rating))
    ensures forall k' :: HasScore(Credit(ss, k, rating), k') <==> HasScore(ss, k') || k' == k
    ensures forall k' :: k' != k && HasScore(ss, k') ==>
      var c := Credit(ss, k, rating);
      ScoreIndex(c, k') < |c| && c[ScoreIndex(c, k')] == ss[ScoreIndex(ss, k')]
    ensures var c := Credit(ss, k, rating); var i := ScoreIndex(c, k);
      i < |c| && c[i] == if HasScore(ss, k) then
        Score(k, ss[ScoreIndex(ss, k)].total + rating, ss[ScoreIndex(ss, k)].count + 1)
      else Score(k, rating, 1)
  {
    var i := ScoreIndex(ss, k);
    var c := Credit(ss, k, rating);
    if i < |ss| {
      assert forall j :: 0 <= j < |ss| ==> c[j].key == ss[j].key;
      forall k' ensures ScoreIndex(c, k') == ScoreIndex(ss, k') {
        ScoreIndexSameKeys(c, ss, k');
      }
    } else {
      forall k' ensures ScoreIndex(c, k') == if HasScore(ss, k') then ScoreIndex(ss, k') else if k' == k then |ss| else |ss| + 1 {
        ScoreIndexAppend(ss, Score(k, rating, 1), k');
      }
    }
  }

  lemma {:induction false} ScoreIndexSameKeys(a: seq<Score>, b: seq<Score>, k: string)
    requires |a| == |b|
    requires forall j :: 0 <= j < |a| ==> a[j].key == b[j].key
    ensures ScoreIndex(a, k) == ScoreIndex(b, k)
  {
  }

  lemma {:induction false} ScoreIndexAppend(a: seq<Score>, e: Score, k: string)
    ensures ScoreIndex(a + [e], k) ==
      if HasScore(a, k) then ScoreIndex(a, k) else if e.key == k then |a| else |a| + 1
  {
    assert forall j :: 0 <= j < |a| ==> (a + [e])[j] == a[j];
    assert (a + [e])[|a|] == e;
  }

  /** The scores are the reference totals and counts: a feature has an entry
      exactly when it received a rating, the entry holds the sum and the
      number of its ratings, and no feature has two entries. */
  lemma {:induction false} ScoreTallyFacts(ps: seq<(string, int)>)
    ensures DistinctFeatures(ScoreTally(ps))
    ensures forall k :: HasScore(ScoreTally(ps), k) <==> CountFor(ps, k) > 0
    ensures forall i :: 0 <= i < |ScoreTally(ps)| ==>
      ScoreTally(ps)[i].total == SumFor(ps, ScoreTally(ps)[i].key) &&
      ScoreTally(ps)[i].count == CountFor(ps, ScoreTally(ps)[i].key)
  {
    if ps != [] {
      var n := |ps| - 1;
      ScoreTallyFacts(ps[..n]);
      assert ps == ps[..n] + [ps[n]];
      ScoreTallyStep(ps[..n], ps[n]);
    }
  }

  /** Crediting one more pair keeps the scores equal to the reference totals
      and counts. */
  lemma {:induction false} ScoreTallyStep(pre: seq<(string, int)>, p: (string, int))
    requires DistinctFeatures(ScoreTally(pre))
    requires forall k :: HasScore(ScoreTally(pre), k) <==> CountFor(pre, k) > 0
    requires forall i :: 0 <= i < |ScoreTally(pre)| ==>
      ScoreTally(pre)[i].total == SumFor(pre, ScoreTally(pre)[i].key) &&
      ScoreTally(pre)[i].count == CountFor(pre, ScoreTally(pre)[i].key)
    ensures var ps := pre + [p];
      DistinctFeatures(ScoreTally(ps)) &&
      (forall k :: HasScore(ScoreTally(ps), k) <==> CountFor(ps, k) > 0) &&
      forall i :: 0 <= i < |ScoreTally(ps)| ==>
        ScoreTally(ps)[i].total == SumFor(ps, ScoreTally(ps)[i].key) &&
        ScoreTally(ps)[i].count == CountFor(ps, ScoreTally(ps)[i].key)
  {
    var ps := pre + [p];
    var h := ScoreTally(pre);
    var t := ScoreTally(ps);
    ScoreTallySnoc(pre, p);
    CreditFacts(h, p.0, p.1);
    forall k ensures SumFor(ps, k) == SumFor(pre, k) + (if p.0 == k then p.1 else 0)
      ensures CountFor(ps, k) == CountFor(pre, k) + (if p.0 == k then 1 else 0)
    {
      CountForAppend(pre, [p], k);
    }
    forall i | 0 <= i < |t|
      ensures t[i].total == SumFor(ps, t[i].key) && t[i].count == CountFor(ps, t[i].key)
    {
      var k := t[i].key;
      assert ScoreIndex(t, k) == i;
      if k != p.0 {
        assert HasScore(h, k);
      } else if !HasScore(h, k) {
        SumForNone(pre, k);
      }
    }
  }

  lemma {:induction false} SumForNone(ps: seq<(string, int)>, k: string)
    requires CountFor(ps, k) == 0
    ensures SumFor(ps, k) == 0
  {
    if ps != [] {
      SumForNone(ps[..|ps| - 1], k);
    }
  }

  /** A feature's total lies between its count times the smallest and times
      the largest of its ratings. */
  lemma {:induction false} SumForBounds(ps: seq<(string, int)>, k: string, lo: int, hi: int)
    requires forall j :: 0 <= j < |ps| && ps[j].0 == k ==> lo <= ps[j].1 <= hi
    ensures CountFor(ps, k) * lo <= SumFor(ps, k) <= CountFor(ps, k) * hi
  {
    if ps != [] {
      var n := |ps| - 1;
      var pre := ps[..n];
      assert forall j :: 0 <= j < n ==> pre[j] == ps[j];
      SumForBounds(pre, k, lo, hi);
      if ps[n].0 == k {
        MulSucc(CountFor(pre, k), lo);
        MulSucc(CountFor(pre, k), hi);
      }
    }
  }

  /** Rounding to hundredths keeps a mean within the rating range. */
  lemma {:induction false} HundredthsBounds(total: int, count: int, lo: int, hi: int)
    requires count > 0 && count * lo <= total <= count * hi
    ensures 100 * lo <= Hundredths(total, count) <= 100 * hi
  {
    var h := Hundredths(total, count);
    var c := 2 * count;
    if h < 100 * lo {
      MulLe(c, h + 1, 100 * lo);
      assert false;
    }
    if h > 100 * hi {
      MulLe(c, 100 * hi + 1, h);
      assert false;
    }
  }

  /** Every feature score is its rounded mean rating, so it lies between
      that feature's smallest and largest rating. */
  lemma {:induction false} FeatureScoreBounds(fs: seq<Field>, k: string, lo: int, hi: int)
    requires CountFor(Contributions(fs), k) > 0
    requires forall i :: 0 <= i < |fs| && fs[i].key == k && Contributes(fs[i]) ==> lo <= Rating(fs[i].value) <= hi
    ensures 100 * lo <= Hundredths(SumFor(Contributions(fs), k), CountFor(Contributions(fs), k)) <= 100 * hi
  {
    var ps := Contributions(fs);
    ContributionsBounds(fs, k, lo, hi);
    SumForBounds(ps, k, lo, hi);
    HundredthsBounds(SumFor(ps, k), CountFor(ps, k), lo, hi);
  }

  /** Every entry of the sorted list either made the first ten or scores no
      more than the tenth. */
  lemma {:induction false} TopTen(s: seq<(string, int)>)
    ensures forall i :: 0 <= i < |s| ==>
      s[i] in Take(SortDesc(s), 10) || (|Take(SortDesc(s), 10)| == 10 && s[i].1 <= Take(SortDesc(s), 10)[9].1)
  {
    var o := SortDesc(s);
    var r := Take(o, 10);
    SortDescFacts(s);
    forall i | 0 <= i < |s| ensures s[i] in r || (|r| == 10 && s[i].1 <= r[9].1) {
      assert s[i] in multiset(o);
      var p :| 0 <= p < |o| && o[p] == s[i];
      if p >= 10 {
        assert o[9].1 >= o[p].1;
      } else {
        assert r[p] == s[i];
      }
    }
  }

  /** What `rankFeatures` promises of each entry it keeps: at most ten
      entries, in non-increasing score order, each a feature that received a
      positive rating and scored its rounded mean. */
  lemma {:induction false} RankedEntries(responses: seq<Record>)
    ensures var r := Ranking(responses); var ps := Contributions(Flatten(responses));
      |r| <= 10 && SortedDesc(r) &&
      forall i :: 0 <= i < |r| ==>
        IsFeatureKey(r[i].0) && CountFor(ps, r[i].0) > 0 &&
        r[i].1 == Hundredths(SumFor(ps, r[i].0), CountFor(ps, r[i].0))
  {
    var ps := Contributions(Flatten(responses));
    ContributionsFacts(Flatten(responses));
    RankedPairs(ps);
  }

  lemma {:induction false} RankedPairs(ps: seq<(string, int)>)
    requires forall j :: 0 <= j < |ps| ==> IsFeatureKey(ps[j].0)
    ensures var r := Take(SortDesc(Averages(ScoreTally(ps))), 10);
      |r| <= 10 && SortedDesc(r) &&
      forall i :: 0 <= i < |r| ==>
        IsFeatureKey(r[i].0) && CountFor(ps, r[i].0) > 0 &&
        r[i].1 == Hundredths(SumFor(ps, r[i].0), CountFor(ps, r[i].0))
  {
    var a := Averages(ScoreTally(ps));
    var o := SortDesc(a);
    var r := Take(o, 10);
    AveragesFacts(ps);
    SortDescFacts(a);
    forall i | 0 <= i < |r| ensures r[i] in a {
      assert r[i] == o[i];
      assert o[i] in multiset(a);
    }
  }

  /** Each entry of `averages` is a rated feature with its rounded mean. */
  lemma {:induction false} AveragesFacts(ps: seq<(string, int)>)
    requires forall j :: 0 <= j < |ps| ==> IsFeatureKey(ps[j].0)
    ensures forall x :: x in Averages(ScoreTally(ps)) ==>
      IsFeatureKey(x.0) && CountFor(ps, x.0) > 0 && x.1 == Hundredths(SumFor(ps, x.0), CountFor(ps, x.0))
  {
    var ss := ScoreTally(ps);
    var a := Averages(ss);
    ScoreTallyFacts(ps);
    forall x | x in a
      ensures IsFeatureKey(x.0) && CountFor(ps, x.0) > 0 && x.1 == Hundredths(SumFor(ps, x.0), CountFor(ps, x.0))
    {
      var p :| 0 <= p < |a| && a[p] == x;
      assert HasScore(ss, ss[p].key);
      ScoredIsFeature(ps, x.0);
    }
  }

  /** No rated feature is lost except to the cut at ten: a rated feature
      that is not kept scores no more than the tenth entry. */
  lemma {:induction false} RankedCoverage(responses: seq<Record>)
    ensures var r := Ranking(responses); var ps := Contributions(Flatten(responses));
      forall k :: CountFor(ps, k) > 0 ==>
        HasKey(r, k) || (|r| == 10 && Hundredths(SumFor(ps, k), CountFor(ps, k)) <= r[9].1)
    ensures var r := Ranking(responses); var ps := Contributions(Flatten(responses)); var ks := PairKeys(ps);
      forall k :: CountFor(ps, k) > 0 && !HasKey(r, k) ==>
        forall i :: 0 <= i < |r| && r[i].1 == Hundredths(SumFor(ps, k), CountFor(ps, k)) ==>
          FirstPos(ks, r[i].0) < FirstPos(ks, k)
  {
    RankedCut(responses);
    var ps := Contributions(Flatten(responses));
    var ss := ScoreTally(ps);
    var a := Averages(ss);
    var r := Ranking(responses);
    ScoreTallyFacts(ps);
    TopTen(a);
    forall k | CountFor(ps, k) > 0
      ensures HasKey(r, k) || (|r| == 10 && Hundredths(SumFor(ps, k), CountFor(ps, k)) <= r[9].1)
    {
      var p := ScoreIndex(ss, k);
      assert a[p] == (k, Hundredths(SumFor(ps, k), CountFor(ps, k)));
      if a[p] in r {
        var q :| 0 <= q < |r| && r[q] == a[p];
        assert IndexOf(r, k) <= q;
      }
    }
  }

  /** A feature with a rating has a feature key. */
  lemma {:induction false} ScoredIsFeature(ps: seq<(string, int)>, k: string)
    requires forall j :: 0 <= j < |ps| ==> IsFeatureKey(ps[j].0)
    requires CountFor(ps, k) > 0
    ensures IsFeatureKey(k)
  {
    var n := |ps| - 1;
    if ps[n].0 != k {
      assert forall j :: 0 <= j < n ==> ps[..n][j] == ps[j];
      ScoredIsFeature(ps[..n], k);
    }
  }

  /** The features of the pairs, in visiting order. */
  function PairKeys(ps: seq<(string, int)>): (ks: seq<string>)
    ensures |ks| == |ps|
    ensures forall i :: 0 <= i < |ps| ==> ks[i] == ps[i].0
  {
    seq(|ps|, i requires 0 <= i < |ps| => ps[i].0)
  }

  /** A feature has a rating exactly when one of the pairs names it. */
  lemma {:induction false} CountForIn(ps: seq<(string, int)>, k: string)
    ensures CountFor(ps, k) > 0 <==> k in PairKeys(ps)
  {
    if ps != [] {
      var n := |ps| - 1;
      CountForIn(ps[..n], k);
      assert PairKeys(ps) == PairKeys(ps[..n]) + [ps[n].0];
    }
  }

  /** The entries of `featureScores` keep the order in which their features
      first received a rating. */
  lemma {:induction false} ScoreTallyOrder(ps: seq<(string, int)>)
    ensures forall i, j :: 0 <= i < j < |ScoreTally(ps)| ==>
      FirstPos(PairKeys(ps), ScoreTally(ps)[i].key) < FirstPos(PairKeys(ps), ScoreTally(ps)[j].key)
  {
    if ps != [] {
      var n := |ps| - 1;
      var pre := ps[..n];
      assert ps == pre + [ps[n]];
      ScoreTallyOrder(pre);
      ScoreTallyFacts(pre);
      forall k ensures HasScore(ScoreTally(pre), k) <==> k in PairKeys(pre) {
        CountForIn(pre, k);
      }
      ScoreTallyOrderStep(pre, ps[n]);
    }
  }

  lemma {:induction false} ScoreTallyOrderStep(pre: seq<(string, int)>, p: (string, int))
    requires DistinctFeatures(ScoreTally(pre))
    requires forall k :: HasScore(ScoreTally(pre), k) <==> k in PairKeys(pre)
    requires var h := ScoreTally(pre); var ks := PairKeys(pre);
      forall i, j :: 0 <= i < j < |h| ==> FirstPos(ks, h[i].key) < FirstPos(ks, h[j].key)
    ensures var t := ScoreTally(pre + [p]); var ks := PairKeys(pre + [p]);
      forall i, j :: 0 <= i < j < |t| ==> FirstPos(ks, t[i].key) < FirstPos(ks, t[j].key)
  {
    var h := ScoreTally(pre);
    var ks := PairKeys(pre);
    assert PairKeys(pre + [p]) == ks + [p.0];
    ScoreTallySnoc(pre, p);
    HeldKeys(h, ks);
    OrderKept(h, ks, p.0);
    CreditShape(h, p.0, p.1);
    if HasScore(h, p.0) {
      OrderSameKeys(h, Credit(h, p.0, p.1), ks + [p.0]);
    } else {
      OrderNewKey(h, ks, Score(p.0, p.1, 1));
    }
  }

  /** Every entry of the scores is a feature that has a score. */
  lemma {:induction false} HeldKeys(h: seq<Score>, ks: seq<string>)
    requires forall k :: HasScore(h, k) <==> k in ks
    ensures forall i :: 0 <= i < |h| ==> h[i].key in ks
  {
    forall i | 0 <= i < |h| ensures h[i].key in ks {
      assert ScoreIndex(h, h[i].key) <= i;
    }
  }

  /** A feature already among `ks` keeps its first position when one more
      key is visited. */
  lemma {:induction false} OrderKept(h: seq<Score>, ks: seq<string>, x: string)
    requires forall i :: 0 <= i < |h| ==> h[i].key in ks
    requires forall i, j :: 0 <= i < j < |h| ==> FirstPos(ks, h[i].key) < FirstPos(ks, h[j].key)
    ensures forall i :: 0 <= i < |h| ==> FirstPos(ks + [x], h[i].key) == FirstPos(ks, h[i].key) < |ks|
    ensures forall i, j :: 0 <= i < j < |h| ==> FirstPos(ks + [x], h[i].key) < FirstPos(ks + [x], h[j].key)
  {
    forall i | 0 <= i < |h| ensures FirstPos(ks + [x], h[i].key) == FirstPos(ks, h[i].key) < |ks| {
      FirstPosAppend(ks, x, h[i].key);
    }
  }

  /** Crediting a feature that has an entry changes no key; crediting one
      that has none appends its entry. */
  lemma {:induction false} CreditShape(ss: seq<Score>, k: string, rating: int)
    ensures HasScore(ss, k) ==> |Credit(ss, k, rating)| == |ss|
    ensures HasScore(ss, k) ==> forall i :: 0 <= i < |ss| ==> Credit(ss, k, rating)[i].key == ss[i].key
    ensures !HasScore(ss, k) ==> Credit(ss, k, rating) == ss + [Score(k, rating, 1)]
  {
  }

  lemma {:induction false} OrderSameKeys(h: seq<Score>, t: seq<Score>, ks: seq<string>)
    requires |t| == |h| && forall i :: 0 <= i < |h| ==> t[i].key == h[i].key
    requires forall i, j :: 0 <= i < j < |h| ==> FirstPos(ks, h[i].key) < FirstPos(ks, h[j].key)
    ensures forall i, j :: 0 <= i < j < |t| ==> FirstPos(ks, t[i].key) < FirstPos(ks, t[j].key)
  {
    forall i, j | 0 <= i < j < |t| ensures FirstPos(ks, t[i].key) < FirstPos(ks, t[j].key) {
      assert t[i].key == h[i].key && t[j].key == h[j].key;
    }
  }

  lemma {:induction false} OrderNewKey(h: seq<Score>, ks: seq<string>, e: Score)
    requires e.key !in ks
    requires forall i :: 0 <= i < |h| ==> FirstPos(ks + [e.key], h[i].key) < |ks|
    requires forall i, j :: 0 <= i < j < |h| ==> FirstPos(ks + [e.key], h[i].key) < FirstPos(ks + [e.key], h[j].key)
    ensures var t := h + [e];
      forall i, j :: 0 <= i < j < |t| ==> FirstPos(ks + [e.key], t[i].key) < FirstPos(ks + [e.key], t[j].key)
  {
    var t := h + [e];
    FirstPosAppend(ks, e.key, e.key);
    forall i, j | 0 <= i < j < |t| ensures FirstPos(ks + [e.key], t[i].key) < FirstPos(ks + [e.key], t[j].key) {
      assert t[i] == h[i];
      if j < |h| {
        assert t[j] == h[j];
      }
    }
  }

  /** The ranking names each feature once, and features with equal averages
      keep the order in which they first received a rating: the sort is
      stable and `featureScores` is in first-rating order. */
  lemma {:induction false} RankedTies(responses: seq<Record>)
    ensures DistinctKeys(Ranking(responses))
    ensures var r := Ranking(responses); var ks := PairKeys(Contributions(Flatten(responses)));
      forall i, j :: 0 <= i < j < |r| && r[i].1 == r[j].1 ==> FirstPos(ks, r[i].0) < FirstPos(ks, r[j].0)
  {
    var ps := Contributions(Flatten(responses));
    var ks := PairKeys(ps);
    var a := Averages(ScoreTally(ps));
    AveragesInOrder(ps);
    SortTies(a, ks);
    TakeKeeps(SortDesc(a), 10, ks);
  }

  /** Two responses rating `featureExams` 4 and 5 rank it at 4.50. */
  lemma {:induction false} FeatureExample(responses: seq<Record>)
    requires |responses| == 2
    requires responses[0] == [Field("featureExams", Num(4))]
    requires responses[1] == [Field("featureExams", Num(5))]
    ensures Ranking(responses) == [("featureExams", 450)]
  {
    var ps := [("featureExams", 4), ("featureExams", 5)];
    ExampleContributions(responses);
    ExampleTally(ps);
    var a := [("featureExams", 450)];
    assert a[..0] == [];
    assert SortDesc(a) == a;
  }

  lemma {:induction false} ExampleContributions(responses: seq<Record>)
    requires |responses| == 2
    requires responses[0] == [Field("featureExams", Num(4))]
    requires responses[1] == [Field("featureExams", Num(5))]
    ensures Contributions(Flatten(responses)) == [("featureExams", 4), ("featureExams", 5)]
  {
    var f4 := Field("featureExams", Num(4));
    var f5 := Field("featureExams", Num(5));
    assert responses[..1] == [responses[0]];
    assert Flatten(responses[..1]) == [f4];
    assert Flatten(responses) == [f4, f5];
    assert Includes("featureExams", "feature");
    assert Contributes(f4) && Contributes(f5);
    ContributionsSnoc([f4], f5);
    ContributionsSnoc([], f4);
  }

  lemma {:induction false} ExampleTally(ps: seq<(string, int)>)
    requires ps == [("featureExams", 4), ("featureExams", 5)]
    ensures Averages(ScoreTally(ps)) == [("featureExams", 450)]
  {
    assert ps[..1] == [("featureExams", 4)];
    assert ScoreTally(ps[..1]) == [Score("featureExams", 4, 1)];
    assert ScoreTally(ps) == [Score("featureExams", 9, 2)];
    assert Hundredths(9, 2) == 450;
  }

  /** The averages come in the order their features first received a
      rating. */
  lemma {:induction false} AveragesInOrder(ps: seq<(string, int)>)
    ensures InOrder(Averages(ScoreTally(ps)), PairKeys(ps))
  {
    var ks := PairKeys(ps);
    ScoreTallyOrder(ps);
    var t := ScoreTally(ps);
    var a := Averages(t);
    forall i, j | 0 <= i < j < |a| ensures FirstPos(ks, a[i].0) < FirstPos(ks, a[j].0) {
      assert j < |t| && a[i].0 == t[i].key && a[j].0 == t[j].key;
      assert FirstPos(ks, t[i].key) < FirstPos(ks, t[j].key);
    }
  }

  /** Which ties the cut at ten keeps: a rated feature left out of the
      ranking received its first rating after every kept feature with the
      same average. */
  lemma {:induction false} RankedCut(responses: seq<Record>)
    ensures var r := Ranking(responses); var ps := Contributions(Flatten(responses)); var ks := PairKeys(ps);
      forall k :: CountFor(ps, k) > 0 && !HasKey(r, k) ==>
        forall i :: 0 <= i < |r| && r[i].1 == Hundredths(SumFor(ps, k), CountFor(ps, k)) ==>
          FirstPos(ks, r[i].0) < FirstPos(ks, k)
  {
    var ps := Contributions(Flatten(responses));
    var ks := PairKeys(ps);
    var ss := ScoreTally(ps);
    var a := Averages(ss);
    var o := SortDesc(a);
    var r := Ranking(responses);
    ScoreTallyFacts(ps);
    AveragesInOrder(ps);
    SortTies(a, ks);
    SortDescFacts(a);
    forall k | CountFor(ps, k) > 0 && !HasKey(r, k)
      ensures forall i :: 0 <= i < |r| && r[i].1 == Hundredths(SumFor(ps, k), CountFor(ps, k)) ==>
        FirstPos(ks, r[i].0) < FirstPos(ks, k)
    {
      var p := ScoreIndex(ss, k);
      var x := a[p];
      assert x == (k, Hundredths(SumFor(ps, k), CountFor(ps, k)));
      assert x in multiset(o);
      CutTies(o, 10, ks, x);
    }
  }
}
