/**
 * `calculateSatisfaction`: how often each of ten fixed rating labels occurs
 * as a string value anywhere in the responses. The `levels` object starts
 * with every level at 0, in the order below, which is the order its keys
 * keep; every field whose value is a string equal to a level bumps that
 * level; then the labels still at 0 are deleted.
 */
module Satisfaction {
  import opened JsValue
  import opened Buckets

  /** The keys of `levels`: "very high", "high", "medium", "low", "very low",
      "excellent", "very good", "good", "acceptable", "weak". */
  const Levels: seq<string> := [
      "مرتفع جداً",
      "مرتفع",
      "متوسط",
      "منخفض",
      "منخفض جداً",
      "ممتاز",
      "جيد جداً",
      "جيد",
      "مقبول",
      "ضعيف"
    ]

  /** No level is listed twice, so `levels` has ten distinct keys. */
  lemma {:induction false} LevelsDistinct()
    ensures |Levels| == 10
    ensures forall i, j :: 0 <= i < j < |Levels| ==> Levels[i] != Levels[j]
  {
  }

  /** How many of the fields `fs` hold a string equal to `level`. */
  function StrCount(fs: seq<Field>, level: string): nat {
    if fs == [] then 0
    else StrCount(fs[..|fs| - 1], level) + (if fs[|fs| - 1].value == Str(level) then 1 else 0)
  }

  /** The `levels` object after the counting loops visited `fs`: every level,
      in order, with its count. */
  function LevelCounts(fs: seq<Field>): (h: seq<(string, int)>)
    ensures |h| == |Levels|
    ensures forall i :: 0 <= i < |Levels| ==> h[i] == (Levels[i], StrCount(fs, Levels[i]))
  {
    seq(|Levels|, i requires 0 <= i < |Levels| => (Levels[i], StrCount(fs, Levels[i]) as int))
  }

  /** The entries whose count is not zero, in order. */
  function NonZero(h: seq<(string, int)>): seq<(string, int)> {
    if h == [] then []
    else NonZero(h[..|h| - 1]) + (if h[|h| - 1].1 != 0 then [h[|h| - 1]] else [])
  }

  /** The result of `calculateSatisfaction` as a specification. */
  function Satisfaction(responses: seq<Record>): seq<(string, int)> {
    NonZero(LevelCounts(Flatten(responses)))
  }

  /** One `[key, value]` entry: `typeof value === 'string' &&
      levels.hasOwnProperty(value)` bumps `levels[value]`. */
  function Tick(h: seq<(string, int)>, v: Value): seq<(string, int)> {
    if v.Str? && HasKey(h, v.s) then Bump(h, v.s) else h
  }

  method CalculateSatisfaction(responses: seq<Record>) returns (levels: seq<(string, int)>)
    ensures levels == Satisfaction(responses)
  {
    levels := seq(|Levels|, i requires 0 <= i < |Levels| => (Levels[i], 0));
    assert levels == LevelCounts([]);
    for i := 0 to |responses|
      invariant levels == LevelCounts(Flatten(responses[..i]))
    {
      levels := CountResponse(levels, Flatten(responses[..i]), responses[i]);
      FlattenSnoc(responses, i);
    }
    assert responses[..|responses|] == responses;
    levels := DropZeros(levels);
  }

  /** The inner `forEach` over the entries of one response. */
  method CountResponse(levels: seq<(string, int)>, ghost seen: seq<Field>, response: Record) returns (out: seq<(string, int)>)
    requires levels == LevelCounts(seen)
    ensures out == LevelCounts(seen + response)
  {
    out := levels;
    assert seen + response[..0] == seen;
    for j := 0 to |response|
      invariant out == LevelCounts(seen + response[..j])
    {
      var value := response[j].value;
      ghost var before := out;
      if value.Str? {
        var p := IndexOf(out, value.s);
        if p < |out| {
          out := out[p := (value.s, out[p].1 + 1)];
        }
      }
      assert out == Tick(before, value);
      assert seen + response[..j + 1] == (seen + response[..j]) + [response[j]];
      TickStep(seen + response[..j], response[j]);
    }
    assert response[..|response|] == response;
  }

  /** `delete h[k]`: the entry under `k`, if any, is removed and the others
      keep their order. */
  function Remove(h: seq<(string, int)>, k: string): seq<(string, int)> {
    var i := IndexOf(h, k);
    if i < |h| then h[..i] + h[i + 1..] else h
  }

  /** `Object.keys(levels).forEach(key => { if (levels[key] === 0) delete
      levels[key]; })`. */
  method DropZeros(counts: seq<(string, int)>) returns (levels: seq<(string, int)>)
    requires DistinctKeys(counts)
    ensures levels == NonZero(counts)
  {
    levels := counts;
    var keys := seq(|counts|, i requires 0 <= i < |counts| => counts[i].0);
    for t := 0 to |keys|
      invariant levels == NonZero(counts[..t]) + counts[t..]
    {
      DropStep(counts, t);
      var p := IndexOf(levels, keys[t]);
      if levels[p].1 == 0 {
        levels := Remove(levels, keys[t]);
      }
    }
    assert counts[..|counts|] == counts;
  }

  lemma {:induction false} StrCountSnoc(fs: seq<Field>, f: Field, level: string)
    ensures StrCount(fs + [f], level) == StrCount(fs, level) + (if f.value == Str(level) then 1 else 0)
  {
    assert (fs + [f])[..|fs|] == fs;
  }

  /** Visiting one more field bumps the level it holds, if any. */
  lemma {:induction false} TickStep(fs: seq<Field>, f: Field)
    ensures LevelCounts(fs + [f]) == Tick(LevelCounts(fs), f.value)
  {
    var h, h' := LevelCounts(fs), LevelCounts(fs + [f]);
    LevelsDistinct();
    forall level ensures StrCount(fs + [f], level) == StrCount(fs, level) + (if f.value == Str(level) then 1 else 0) {
      StrCountSnoc(fs, f, level);
    }
    if f.value.Str? && HasKey(h, f.value.s) {
      var p := IndexOf(h, f.value.s);
      forall i | 0 <= i < |Levels| ensures h'[i] == Bump(h, f.value.s)[i] {
        if i != p {
          assert Levels[i] != Levels[p];
        }
      }
    } else {
      forall i | 0 <= i < |Levels| ensures h'[i] == h[i] {
        if f.value == Str(Levels[i]) {
          assert false;
        }
      }
    }
  }

  lemma {:induction false} NonZeroSnoc(h: seq<(string, int)>, t: nat)
    requires t < |h|
    ensures NonZero(h[..t + 1]) == NonZero(h[..t]) + (if h[t].1 != 0 then [h[t]] else [])
  {
    assert h[..t + 1][..t] == h[..t];
  }

  /** The kept entries carry no key the input does not carry. */
  lemma {:induction false} NonZeroWithout(h: seq<(string, int)>, k: string)
    requires forall i :: 0 <= i < |h| ==> h[i].0 != k
    ensures forall j :: 0 <= j < |NonZero(h)| ==> NonZero(h)[j].0 != k
  {
    if h != [] {
      NonZeroWithout(h[..|h| - 1], k);
    }
  }

  /** When `DropZeros` reaches key `t`, the entries before it are the kept
      ones, so `delete` finds key `t` right after them. */
  lemma {:induction false} DropPosition(counts: seq<(string, int)>, t: nat)
    requires DistinctKeys(counts) && t < |counts|
    ensures var kept := NonZero(counts[..t]); var l := kept + counts[t..];
      IndexOf(l, counts[t].0) == |kept| &&
      l == (kept + [counts[t]]) + counts[t + 1..] &&
      l[..|kept|] + l[|kept| + 1..] == kept + counts[t + 1..]
  {
    var kept := NonZero(counts[..t]);
    var l := kept + counts[t..];
    NonZeroWithout(counts[..t], counts[t].0);
    assert l[|kept|] == counts[t];
    assert l == (kept + [counts[t]]) + counts[t + 1..];
    assert l[..|kept|] == kept;
    assert l[|kept| + 1..] == counts[t + 1..];
  }

  /** One turn of the `delete` loop: the key it visits sits right after the
      entries kept so far, and deleting it when its count is zero, or
      keeping it otherwise, extends the kept entries by one step. */
  lemma {:induction false} DropStep(counts: seq<(string, int)>, t: nat)
    requires DistinctKeys(counts) && t < |counts|
    ensures var l := NonZero(counts[..t]) + counts[t..]; var p := IndexOf(l, counts[t].0);
      p < |l| && l[p] == counts[t] &&
      (if l[p].1 == 0 then Remove(l, counts[t].0) else l) == NonZero(counts[..t + 1]) + counts[t + 1..]
  {
    var kept := NonZero(counts[..t]);
    var l := kept + counts[t..];
    DropPosition(counts, t);
    NonZeroSnoc(counts, t);
    if counts[t].1 == 0 {
      assert Remove(l, counts[t].0) == kept + counts[t + 1..];
    } else {
      assert NonZero(counts[..t + 1]) == kept + [counts[t]];
    }
  }

  /** Every kept entry is an entry of the input with a non-zero count, and
      every such entry is kept. */
  lemma {:induction false} NonZeroMembers(h: seq<(string, int)>)
    ensures forall x :: x in NonZero(h) <==> x in h && x.1 != 0
  {
    if h != [] {
      var n := |h| - 1;
      NonZeroMembers(h[..n]);
      assert h == h[..n] + [h[n]];
    }
  }

  /** The kept entries come in the order of the input. */
  lemma {:induction false} NonZeroOrder(h: seq<(string, int)>)
    requires DistinctKeys(h)
    ensures forall i, j :: 0 <= i < j < |NonZero(h)| ==> IndexOf(h, NonZero(h)[i].0) < IndexOf(h, NonZero(h)[j].0)
  {
    if h != [] {
      var n := |h| - 1;
      var pre := h[..n];
      assert h == pre + [h[n]];
      NonZeroOrder(pre);
      NonZeroMembers(pre);
      var z, z' := NonZero(pre), NonZero(h);
      forall k ensures IndexOf(h, k) == if HasKey(pre, k) then IndexOf(pre, k) else if h[n].0 == k then n else n + 1 {
        IndexOfAppend(pre, h[n], k);
      }
      forall j | 0 <= j < |z| ensures HasKey(pre, z[j].0) {
        assert z[j] in pre;
        var q :| 0 <= q < |pre| && pre[q] == z[j];
        assert IndexOf(pre, z[j].0) <= q;
      }
      forall i, j | 0 <= i < j < |z'| ensures IndexOf(h, z'[i].0) < IndexOf(h, z'[j].0) {
        if j == |z| {
          assert z'[i] == z[i] && z'[j] == h[n];
        } else {
          assert z'[i] == z[i] && z'[j] == z[j];
        }
      }
    }
  }

  /** Dropping the zero entries keeps the counts of every key and the keys
      whose count is not zero. */
  lemma {:induction false} NonZeroFacts(h: seq<(string, int)>)
    requires DistinctKeys(h)
    ensures DistinctKeys(NonZero(h))
    ensures forall k :: HasKey(NonZero(h), k) <==> HasKey(h, k) && CountOf(h, k) != 0
    ensures forall k :: CountOf(NonZero(h), k) == CountOf(h, k)
  {
    if h != [] {
      var n := |h| - 1;
      var pre, e := h[..n], h[n];
      assert h == pre + [e];
      NonZeroFacts(pre);
      NonZeroStep(pre, e);
    }
  }

  lemma {:induction false} NonZeroStep(pre: seq<(string, int)>, e: (string, int))
    requires DistinctKeys(pre + [e])
    requires DistinctKeys(NonZero(pre))
    requires forall k :: HasKey(NonZero(pre), k) <==> HasKey(pre, k) && CountOf(pre, k) != 0
    requires forall k :: CountOf(NonZero(pre), k) == CountOf(pre, k)
    ensures var h := pre + [e];
      DistinctKeys(NonZero(h)) &&
      (forall k :: HasKey(NonZero(h), k) <==> HasKey(h, k) && CountOf(h, k) != 0) &&
      (forall k :: CountOf(NonZero(h), k) == CountOf(h, k))
  {
    var h := pre + [e];
    assert h[..|pre|] == pre;
    var z := NonZero(pre);
    FreshLast(pre, e);
    NonZeroWithout(pre, e.0);
    assert !HasKey(z, e.0);
    AppendCounts(pre, e);
    if e.1 != 0 {
      assert NonZero(h) == z + [e];
      AppendFresh(z, e);
      AppendCounts(z, e);
    } else {
      assert NonZero(h) == z;
    }
  }

  /** The last key of a list with distinct keys occurs nowhere before. */
  lemma {:induction false} FreshLast(pre: seq<(string, int)>, e: (string, int))
    requires DistinctKeys(pre + [e])
    ensures forall i :: 0 <= i < |pre| ==> pre[i].0 != e.0
    ensures !HasKey(pre, e.0)
  {
    var h := pre + [e];
    forall i | 0 <= i < |pre| ensures pre[i].0 != e.0 {
      assert pre[i] == h[i] && e == h[|pre|];
    }
  }

  /** The counts and keys after appending an entry under a new key. */
  lemma {:induction false} AppendCounts(z: seq<(string, int)>, e: (string, int))
    requires !HasKey(z, e.0)
    ensures forall k :: HasKey(z + [e], k) <==> HasKey(z, k) || k == e.0
    ensures forall k :: CountOf(z + [e], k) == if k == e.0 then e.1 else CountOf(z, k)
  {
    forall k ensures IndexOf(z + [e], k) == if HasKey(z, k) then IndexOf(z, k) else if e.0 == k then |z| else |z| + 1 {
      IndexOfAppend(z, e, k);
    }
    assert forall j :: 0 <= j < |z| ==> (z + [e])[j] == z[j];
  }

  /** Appending an entry under a new key keeps keys distinct and leaves the
      positions of the other keys alone. */
  lemma {:induction false} AppendFresh(z: seq<(string, int)>, e: (string, int))
    requires DistinctKeys(z) && !HasKey(z, e.0)
    ensures DistinctKeys(z + [e])
    ensures forall k :: IndexOf(z + [e], k) == if HasKey(z, k) then IndexOf(z, k) else if e.0 == k then |z| else |z| + 1
  {
    forall k ensures IndexOf(z + [e], k) == if HasKey(z, k) then IndexOf(z, k) else if e.0 == k then |z| else |z| + 1 {
      IndexOfAppend(z, e, k);
    }
    forall i, j | 0 <= i < j < |z + [e]| ensures (z + [e])[i].0 != (z + [e])[j].0 {
      if j == |z| {
        assert (z + [e])[i] == z[i] && IndexOf(z, e.0) == |z|;
      } else {
        assert (z + [e])[i] == z[i] && (z + [e])[j] == z[j];
      }
    }
  }

  /** `levels` is keyed by the labels in their listed order. */
  lemma {:induction false} LevelIndex(fs: seq<Field>, k: string)
    ensures IndexOf(LevelCounts(fs), k) == FirstPos(Levels, k)
  {
  }

  /** Before zeros are dropped, `levels` holds every label once, with the
      number of fields holding it. */
  lemma {:induction false} LevelCountsFacts(fs: seq<Field>)
    ensures DistinctKeys(LevelCounts(fs))
    ensures forall k :: HasKey(LevelCounts(fs), k) <==> k in Levels
    ensures forall k :: CountOf(LevelCounts(fs), k) == if k in Levels then StrCount(fs, k) else 0
  {
    var h := LevelCounts(fs);
    LevelsDistinct();
    forall k ensures IndexOf(h, k) == FirstPos(Levels, k) {
      LevelIndex(fs, k);
    }
    forall k | k in Levels ensures FirstPos(Levels, k) < |Levels| {
      var w :| 0 <= w < |Levels| && Levels[w] == k;
      assert FirstPos(Levels, k) <= w;
    }
  }

  /** The result holds each label once, exactly the labels some field holds,
      each with the number of fields that hold exactly that string, and in
      their listed order; any other string has no entry. */
  lemma {:induction false} SatisfactionFacts(responses: seq<Record>)
    ensures var r := Satisfaction(responses); var fs := Flatten(responses);
      DistinctKeys(r) &&
      (forall k :: HasKey(r, k) <==> k in Levels && StrCount(fs, k) > 0) &&
      (forall k :: CountOf(r, k) == if k in Levels then StrCount(fs, k) else 0) &&
      (forall i, j :: 0 <= i < j < |r| ==> FirstPos(Levels, r[i].0) < FirstPos(Levels, r[j].0))
  {
    var fs := Flatten(responses);
    var h := LevelCounts(fs);
    LevelCountsFacts(fs);
    NonZeroFacts(h);
    NonZeroOrder(h);
    forall k ensures IndexOf(h, k) == FirstPos(Levels, k) {
      LevelIndex(fs, k);
    }
  }

  /** One response can add more than one to the same label: two fields that
      both say "good" count twice. */
  lemma {:induction false} RepeatedLevel(r: Record)
    requires |r| == 2 && r[0].value == Str(Levels[7]) && r[1].value == Str(Levels[7])
    ensures HasKey(Satisfaction([r]), Levels[7])
    ensures CountOf(Satisfaction([r]), Levels[7]) == 2
  {
    var g := Levels[7];
    assert Flatten([r]) == r by {
      assert [r][..0] == [];
    }
    assert StrCount(r[..1], g) == 1 by {
      assert r[..1][..0] == [] && r[..1][0] == r[0];
    }
    assert r[..1] == r[..|r| - 1];
    assert StrCount(r, g) == 2;
    SatisfactionFacts([r]);
  }
}
