/**
 * JSON values and survey records as the server sees them after `JSON.parse`:
 * a record is an object whose own keys are kept in insertion order, the
 * order `Object.entries` and the spread operator walk them in.
 */
module JsValue {

  datatype Option<+T> = None | Some(value: T)

  /** A value that a submitted survey field can hold. */
  datatype Value =
    | Str(s: string)
    | Num(n: int)
    | Bool(b: bool)
    | Null
    | StrList(items: seq<string>)

  datatype Field = Field(key: string, value: Value)

  /** "Unspecified": the label for a missing or falsy field. */
  const Unspecified: string := "غير محدد"

  /** A JavaScript object never has two own properties with the same key. */
  predicate UniqueKeys(fs: seq<Field>) {
    forall i, j :: 0 <= i < j < |fs| ==> fs[i].key != fs[j].key
  }

  /** A survey record: an object with its own keys in insertion order. */
  type Record = fs: seq<Field> | UniqueKeys(fs) witness []

  function Keys(fs: seq<Field>): set<string> {
    set i | 0 <= i < |fs| :: fs[i].key
  }

  /** Position of key `k` in `fs`, or `|fs|` when `fs` has no such key. */
  function KeyIndex(fs: seq<Field>, k: string): (i: nat)
    ensures i <= |fs|
    ensures i < |fs| ==> fs[i].key == k
    ensures forall j :: 0 <= j < i ==> fs[j].key != k
  {
    if fs == [] then 0
    else if fs[0].key == k then 0
    else 1 + KeyIndex(fs[1..], k)
  }

  /** Property read `obj[k]`; `None` stands for `undefined`. */
  function Get(fs: seq<Field>, k: string): (r: Option<Value>)
    ensures r.Some? <==> k in Keys(fs)
  {
    var i := KeyIndex(fs, k);
    if i < |fs| then Some(fs[i].value) else None
  }

  /** Property assignment `obj[k] = v`: an existing key keeps its position. */
  function Put(r: Record, k: string, v: Value): (r': Record)
    ensures Keys(r') == Keys(r) + {k}
    ensures |r'| == if k in Keys(r) then |r| else |r| + 1
    ensures Get(r', k) == Some(v)
    ensures forall k' :: k' != k ==> Get(r', k') == Get(r, k')
    ensures forall j :: 0 <= j < |r| ==> r'[j].key == r[j].key
    ensures k !in Keys(r) ==> r'[|r|] == Field(k, v)
  {
    var i := KeyIndex(r, k);
    if i < |r| then
      var r' := r[i := Field(k, v)];
      assert forall j :: 0 <= j < |r| ==> r'[j].key == r[j].key;
      assert Keys(r') == Keys(r);
      assert forall k' :: k' != k ==> KeyIndex(r', k') == KeyIndex(r, k') by {
        forall k' | k' != k { KeyIndexSameKeys(r', r, k'); }
      }
      r'
    else
      var r' := r + [Field(k, v)];
      assert forall j :: 0 <= j < |r| ==> r'[j] == r[j];
      assert r'[|r|].key == k;
      assert Keys(r') == Keys(r) + {k};
      assert forall k' :: k' != k ==> KeyIndex(r', k') == if k' in Keys(r) then KeyIndex(r, k') else |r'| by {
        forall k' | k' != k { KeyIndexAppend(r, Field(k, v), k'); }
      }
      r'
  }

  lemma {:induction false} KeyIndexSameKeys(a: seq<Field>, b: seq<Field>, k: string)
    requires |a| == |b|
    requires forall j :: 0 <= j < |a| ==> a[j].key == b[j].key
    ensures KeyIndex(a, k) == KeyIndex(b, k)
  {
  }

  lemma {:induction false} KeyIndexAppend(a: seq<Field>, f: Field, k: string)
    requires k != f.key
    ensures KeyIndex(a + [f], k) == if k in Keys(a) then KeyIndex(a, k) else |a| + 1
  {
    assert forall j :: 0 <= j < |a| ==> (a + [f])[j] == a[j];
    assert (a + [f])[|a|] == f;
  }

  /** JavaScript truthiness of a property read: `undefined`, `null`,
      `false`, `0` and `""` are falsy; every array, even `[]`, is truthy. */
  predicate Truthy(v: Option<Value>) {
    match v
    case None => false
    case Some(Str(s)) => s != ""
    case Some(Num(n)) => n != 0
    case Some(Bool(b)) => b
    case Some(Null) => false
    case Some(StrList(_)) => true
  }

  /** Decimal digits of a natural number, most significant first. */
  function NatToString(n: nat): (s: string)
    ensures |s| >= 1
    ensures forall i :: 0 <= i < |s| ==> '0' <= s[i] <= '9'
    ensures s[0] == '0' ==> n == 0
  {
    if n < 10 then ["0123456789"[n]]
    else NatToString(n / 10) + ["0123456789"[n % 10]]
  }

  /** `String(n)` for an integer Number. */
  function IntToString(n: int): string {
    if n < 0 then "-" + NatToString(-n) else NatToString(n)
  }

  /** `Array.prototype.join(",")`, which is how `String` renders an array. */
  function Join(items: seq<string>): string {
    if items == [] then ""
    else if |items| == 1 then items[0]
    else items[0] + "," + Join(items[1..])
  }

  /** `String(v)`: the property-key coercion and the first step of `parseInt`. */
  function ToString(v: Value): string {
    match v
    case Str(s) => s
    case Num(n) => IntToString(n)
    case Bool(b) => if b then "true" else "false"
    case Null => "null"
    case StrList(items) => Join(items)
  }

  /** `String(x)` for a property read that may be `undefined`. */
  function Coerce(v: Option<Value>): string {
    match v
    case None => "undefined"
    case Some(x) => ToString(x)
  }

  /** All fields of a sequence of records, record by record, in entry order:
      the pairs a nested `forEach` over `Object.entries` visits. */
  function Flatten(rs: seq<Record>): seq<Field> {
    if rs == [] then [] else Flatten(rs[..|rs| - 1]) + rs[|rs| - 1]
  }

  lemma {:induction false} FlattenSnoc(rs: seq<Record>, i: nat)
    requires i < |rs|
    ensures Flatten(rs[..i + 1]) == Flatten(rs[..i]) + rs[i]
  {
    assert rs[..i + 1][..i] == rs[..i];
  }
}
