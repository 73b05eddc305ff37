/** Python values and dictionary records as the record-processing engine sees them. */
module Values {
  import opened Wrappers

  /** The Python values the model distinguishes. Values whose behaviour the model
      does not interpret (floats, datetimes, ...) are `Other`, tagged with their
      Python type name. */
  datatype Value =
    | Null
    | Bool(b: bool)
    | Int(i: int)
    | Str(s: string)
    | List(items: seq<Value>)
    | Dict(fields: seq<(string, Value)>)
    | Other(typeName: string, id: int)

  /** `type(v).__name__` */
  function TypeName(v: Value): string {
    match v
    case Null => "NoneType"
    case Bool(_) => "bool"
    case Int(_) => "int"
    case Str(_) => "str"
    case List(_) => "list"
    case Dict(_) => "dict"
    case Other(name, _) => name
  }

  /** A record is a Python dict: an insertion-ordered list of (key, value) pairs. */
  type Record = seq<(string, Value)>

  predicate NoDup<T(==)>(s: seq<T>) {
    forall i, j :: 0 <= i < j < |s| ==> s[i] != s[j]
  }

  /** `d.keys()` of any dict held as its entries, in insertion order. */
  function Keys<V>(r: seq<(string, V)>): (ks: seq<string>)
    ensures |ks| == |r|
    ensures forall i :: 0 <= i < |r| ==> ks[i] == r[i].0
  {
    seq(|r|, i requires 0 <= i < |r| => r[i].0)
  }

  /** A genuine dict never holds a key twice. */
  predicate WellFormed(r: Record) {
    NoDup(Keys(r))
  }

  /** `record.get(k)` as an option: the value stored under the first (only) occurrence of `k`. */
  function Get(r: Record, k: string): (o: Option<Value>)
    ensures o.Some? <==> k in Keys(r)
    ensures o.Some? ==> exists i :: 0 <= i < |r| && r[i] == (k, o.value)
    ensures o.Some? && WellFormed(r) ==> forall i :: 0 <= i < |r| && r[i].0 == k ==> r[i].1 == o.value
  {
    if |r| == 0 then None
    else if r[0].0 == k then Some(r[0].1)
    else
      var o := Get(r[1..], k);
      assert Keys(r) == [r[0].0] + Keys(r[1..]);
      if o.Some? then
        var i :| 0 <= i < |r[1..]| && r[1..][i] == (k, o.value);
        assert r[i + 1] == (k, o.value);
        o
      else o
  }

  /** `record.get(k, None)` */
  function GetOr(r: Record, k: string): Value {
    match Get(r, k)
    case Some(v) => v
    case None => Null
  }

  /** A column argument: a list or tuple of names, or a single name that the
      callee wraps into a one-element collection. */
  datatype Columns = Several(names: seq<string>) | Single(name: string)

  function Requested(columns: Columns): (names: seq<string>)
    ensures columns.Single? ==> names == [columns.name]
  {
    match columns
    case Several(names) => names
    case Single(name) => [name]
  }
}
