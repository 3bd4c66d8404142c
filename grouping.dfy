/**
 * `groupBy(array, key)`: a histogram of the values one field takes over a
 * list of records. A record whose field is missing or falsy is counted under
 * the single "unspecified" label; any other value is counted under its
 * property-key string, so `5` and `"5"` share a bucket.
 */
module Grouping {
  import opened JsValue
  import opened Buckets

  /** `item[key] || 'غير محدد'`, as the property key it is used as. */
  function GroupKey(item: Record, key: string): string {
    var v := Get(item, key);
    if Truthy(v) then ToString(v.value) else Unspecified
  }

  /** The label of every record, in order. */
  function GroupKeys(items: seq<Record>, key: string): seq<string> {
    seq(|items|, i requires 0 <= i < |items| => GroupKey(items[i], key))
  }

  lemma {:induction false} GroupKeysSnoc(items: seq<Record>, key: string, i: nat)
    requires i < |items|
    ensures GroupKeys(items[..i + 1], key) == GroupKeys(items[..i], key) + [GroupKey(items[i], key)]
  {
  }

  method GroupBy(items: seq<Record>, key: string) returns (result: seq<(string, int)>)
    ensures result == Tally(GroupKeys(items, key))
    ensures DistinctKeys(result)
    ensures Total(result) == |items|
    ensures forall i :: 0 <= i < |result| ==> result[i].1 >= 1
    ensures forall k :: CountOf(result, k) == Occurrences(GroupKeys(items, key), k)
    ensures forall k :: HasKey(result, k) <==> k in GroupKeys(items, key)
    ensures |items| == 0 ==> result == []
  {
    result := [];
    for i := 0 to |items|
      invariant result == Tally(GroupKeys(items[..i], key))
    {
      var value := GroupKey(items[i], key);
      GroupKeysSnoc(items, key, i);
      TallySnoc(GroupKeys(items[..i], key), value);
      ghost var before := result;
      var j := IndexOf(result, value);
      if j < |result| {
        result := result[j := (value, result[j].1 + 1)];
      } else {
        result := result + [(value, 1)];
      }
      assert result == Bump(before, value);
    }
    assert items[..|items|] == items;
    TallyFacts(GroupKeys(items, key));
  }

  /** What `GroupBy` promises of the tally of the labels. */
  lemma {:induction false} TallyFacts(ks: seq<string>)
    ensures DistinctKeys(Tally(ks))
    ensures Total(Tally(ks)) == |ks|
    ensures forall i :: 0 <= i < |Tally(ks)| ==> Tally(ks)[i].1 >= 1
    ensures forall k :: CountOf(Tally(ks), k) == Occurrences(ks, k)
    ensures forall k :: HasKey(Tally(ks), k) <==> k in ks
    ensures |ks| == 0 ==> Tally(ks) == []
  {
    TallyCounts(ks);
    TallyKeys(ks);
  }

  lemma {:induction false} TallyRepeated(ks: seq<string>, k: string)
    requires |ks| > 0
    requires forall i :: 0 <= i < |ks| ==> ks[i] == k
    ensures Tally(ks) == [(k, |ks|)]
  {
    if |ks| > 1 {
      TallyRepeated(ks[..|ks| - 1], k);
    }
  }

  /** A field that no record holds a truthy value for yields one
      "unspecified" bucket with the full count. */
  lemma {:induction false} AbsentFieldIsUnspecified(items: seq<Record>, key: string)
    requires |items| > 0
    requires forall i :: 0 <= i < |items| ==> !Truthy(Get(items[i], key))
    ensures Tally(GroupKeys(items, key)) == [(Unspecified, |items|)]
  {
    TallyRepeated(GroupKeys(items, key), Unspecified);
  }
}
