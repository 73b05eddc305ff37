/** The in-memory Relation of the data internals: a schema (an insertion-ordered
    dict from attribute names to profiles) and its data, a list or a generator
    of tuples whose positions follow the schema's key order. Until it is
    materialised, the data may still be dicts. */
module InternalRelation {
  import opened Wrappers
  import opened Values
  import opened SeqUtil
  import Aggregates

  /** A member of MABEL_TYPES, by name. */
  type Domain = string

  const OTHER: Domain := "OTHER"

  /** The profile of one attribute: its "type" entry (None when it is missing or
      None) and the remaining statistics ("min", "max", "count", ...). */
  datatype Profile = Profile(domain: Option<Domain>, stats: Record)

  /** The schema dict in insertion order. A None value is the entry a projection
      makes for a name the schema does not know. */
  type Schema = seq<(string, Option<Profile>)>

  type Tuple = seq<Value>

  /** The rows of the data: all tuples, or all dicts. */
  datatype Rows = Tuples(tuples: seq<Tuple>) | Dicts(dicts: seq<Record>)
  {
    function Size(): nat {
      match this
      case Tuples(ts) => |ts|
      case Dicts(ds) => |ds|
    }
  }

  /** `self.data`: its rows, and whether they are held in a list (as opposed to
      a generator over them). */
  datatype Data = Data(rows: Rows, listed: bool)

  datatype Relation = Relation(schema: Schema, data: Data)

  /** The collaborators the relation calls but does not define: the
      `PYTHON_TYPES` table from Python type names to domains, and `coerce_types`. */
  datatype Env = Env(pythonTypes: string -> Option<Domain>, coerce: Value -> Value)

  /** A genuine dict: no key twice. */
  predicate Keyed<V>(s: seq<(string, V)>) {
    NoDup(Keys(s))
  }

  /** The position of `k` in a dict's entries, if present. */
  function FindKey<V>(s: seq<(string, V)>, k: string): (o: Option<nat>)
    ensures o.Some? ==> o.value < |s| && s[o.value].0 == k
    ensures o.Some? ==> forall j :: 0 <= j < o.value ==> s[j].0 != k
    ensures o.None? <==> k !in Keys(s)
    decreases |s|
  {
    if |s| == 0 then None
    else if s[0].0 == k then Some(0)
    else
      var o := FindKey(s[1..], k);
      assert Keys(s) == [s[0].0] + Keys(s[1..]);
      if o.Some? then Some(o.value + 1) else None
  }

  /** In a genuine dict, the key at position `j` is found at `j`. */
  lemma {:induction false} FindKeyAt<V>(s: seq<(string, V)>, j: nat)
    requires Keyed(s) && j < |s|
    ensures FindKey(s, s[j].0) == Some(j)
    decreases j
  {
    if j > 0 {
      var ks := Keys(s);
      assert ks[0] != ks[j];
      assert Keys(s[1..]) == ks[1..];
      FindKeyAt(s[1..], j - 1);
    }
  }

  /** `schema.get(k)`: the profile stored under `k`; None when `k` is absent. */
  function Lookup(s: Schema, k: string): (p: Option<Profile>)
    ensures k !in Keys(s) ==> p == None
    ensures Keyed(s) ==> forall j :: 0 <= j < |s| && s[j].0 == k ==> p == s[j].1
  {
    match FindKey(s, k)
    case None => None
    case Some(i) =>
      assert forall j :: 0 <= j < |s| && s[j].0 == k && Keyed(s) ==> j == i by {
        forall j | 0 <= j < |s| && s[j].0 == k && Keyed(s)
          ensures j == i
        {
          FindKeyAt(s, j);
        }
      }
      s[i].1
  }

  /** `dict(zip(keys, values))` for distinct keys: pairs up to the shorter side. */
  function Zip(ks: seq<string>, vs: seq<Value>): (r: Record)
    ensures |r| == if |ks| <= |vs| then |ks| else |vs|
    ensures forall i :: 0 <= i < |r| ==> r[i] == (ks[i], vs[i])
  {
    var n := if |ks| <= |vs| then |ks| else |vs|;
    seq(n, i requires 0 <= i < n => (ks[i], vs[i]))
  }

  /** Reading a zipped record: a key gets the value at its own position, and a
      key not zipped is absent. */
  lemma GetZip(ks: seq<string>, vs: seq<Value>, k: string)
    requires NoDup(ks) && |ks| <= |vs|
    ensures k !in ks ==> Get(Zip(ks, vs), k) == None
    ensures forall j :: 0 <= j < |ks| && ks[j] == k ==> Get(Zip(ks, vs), k) == Some(vs[j])
  {
    var r := Zip(ks, vs);
    assert Keys(r) == ks;
  }

  // ---------------------------------------------------------------------------
  // Schema inference and construction

  /** `PYTHON_TYPES.get(type(v).__name__, MABEL_TYPES.OTHER)` */
  function DomainOf(v: Value, env: Env): Domain {
    match env.pythonTypes(TypeName(v))
    case Some(d) => d
    case None => OTHER
  }

  /** The inner `types(row)` of `from_dictionaries`: each key's domain, widened
      to OTHER when a later entry of the same key disagrees. */
  function Types(row: Record, env: Env): (t: seq<(string, Domain)>)
    ensures forall j :: 0 <= j < |t| ==> t[j].0 in Keys(row)
    decreases |row|
  {
    if |row| == 0 then []
    else
      var n := |row| - 1;
      var prev := Types(row[..n], env);
      assert forall j :: 0 <= j < n ==> Keys(row[..n])[j] == Keys(row)[j];
      var (k, v) := row[n];
      var d := DomainOf(v, env);
      assert k == Keys(row)[n];
      match FindKey(prev, k)
      case None => prev + [(k, d)]
      case Some(i) => if prev[i].1 != d then prev[i := (k, OTHER)] else prev
  }

  /** A dict never repeats a key, so the widening branch is never taken: the
      inferred schema is the row's keys, in order, each with its own value's domain. */
  lemma {:induction false} TypesOfDict(row: Record, env: Env)
    requires WellFormed(row)
    ensures |Types(row, env)| == |row|
    ensures forall j :: 0 <= j < |row| ==> Types(row, env)[j] == (row[j].0, DomainOf(row[j].1, env))
    decreases |row|
  {
    if |row| > 0 {
      var n := |row| - 1;
      var prefix := row[..n];
      var ks := Keys(row);
      assert Keys(prefix) == ks[..n];
      assert WellFormed(prefix);
      TypesOfDict(prefix, env);
      var prev := Types(prefix, env);
      var k := row[n].0;
      assert k !in Keys(prev) by {
        assert Keys(prev) == ks[..n];
        assert forall j :: 0 <= j < n ==> ks[j] != ks[n];
      }
      var t := Types(row, env);
      assert t == prev + [(k, DomainOf(row[n].1, env))];
      forall j | 0 <= j < |row|
        ensures t[j] == (row[j].0, DomainOf(row[j].1, env))
      {
        if j < n {
          assert prefix[j] == row[j];
        }
      }
    }
  }

  lemma InferredKeys(row: Record, env: Env)
    ensures WellFormed(row) ==> Keys(Types(row, env)) == Keys(row)
    ensures WellFormed(row) ==> |Types(row, env)| == |row|
    ensures WellFormed(row) ==> forall j :: 0 <= j < |row| ==> Types(row, env)[j] == (row[j].0, DomainOf(row[j].1, env))
  {
    if WellFormed(row) {
      TypesOfDict(row, env);
    }
  }

  /** The schema `types` builds: each attribute profiled by its domain alone. */
  function Profiled(t: seq<(string, Domain)>): (s: Schema)
    ensures Keys(s) == Keys(t)
  {
    seq(|t|, j requires 0 <= j < |t| => (t[j].0, Some(Profile(Some(t[j].1), []))))
  }

  /** `tuple([coerce_types(row.get(k)) for k in keys])` */
  function Coerce(row: Record, keys: seq<string>, env: Env): (t: Tuple)
    ensures |t| == |keys|
  {
    seq(|keys|, j requires 0 <= j < |keys| => env.coerce(GetOr(row, keys[j])))
  }

  /** `from_dictionaries(dicts)` with no schema given: the schema is inferred from
      the first dict alone and every dict, the first included, becomes a tuple
      in schema order. An empty input fails at `next(dicts)`. */
  function FromDictionaries(dicts: seq<Record>, env: Env): (r: Result<Relation>)
    ensures r.Ok? <==> |dicts| > 0
    ensures r.Err? ==> r.error == StopIteration
    ensures r.Ok? ==> r.value.data.listed && r.value.data.rows.Tuples?
    ensures r.Ok? ==> |r.value.data.rows.tuples| == |dicts|
    ensures r.Ok? ==> Keyed(r.value.schema) || !WellFormed(dicts[0])
    ensures r.Ok? ==> forall i :: 0 <= i < |dicts| ==> |r.value.data.rows.tuples[i]| == |r.value.schema|
    ensures r.Ok? ==> forall i, j :: 0 <= i < |dicts| && 0 <= j < |r.value.schema| ==>
      r.value.data.rows.tuples[i][j] == env.coerce(GetOr(dicts[i], r.value.schema[j].0))
    ensures r.Ok? && WellFormed(dicts[0]) ==> |r.value.schema| == |dicts[0]|
    ensures r.Ok? && WellFormed(dicts[0]) ==> forall j :: 0 <= j < |dicts[0]| ==>
      r.value.schema[j] == (dicts[0][j].0, Some(Profile(Some(DomainOf(dicts[0][j].1, env)), [])))
  {
    if |dicts| == 0 then Err(StopIteration)
    else
      var schema := Profiled(Types(dicts[0], env));
      var keys := Keys(schema);
      InferredKeys(dicts[0], env);
      Ok(Relation(schema, Data(Tuples(seq(|dicts|, i requires 0 <= i < |dicts| => Coerce(dicts[i], keys, env))), true)))
  }

  /** `Relation(data, schema=schema)`: a list is taken over at once (dicts
      through `from_dictionaries`), a generator is kept as it is. An empty list
      fails at `data[0]`. */
  function New(data: Data, schema: Schema, env: Env): (r: Result<Relation>)
    ensures data.listed && data.rows.Size() == 0 ==> r == Err(IndexError)
    ensures !data.listed ==> r == Ok(Relation(schema, data))
    ensures data.listed && data.rows.Tuples? && data.rows.Size() > 0 ==> r == Ok(Relation(schema, data))
    ensures data.listed && data.rows.Dicts? && data.rows.Size() > 0 ==> r == FromDictionaries(data.rows.dicts, env)
    ensures r.Ok? ==> r.value.data.rows.Size() == data.rows.Size()
  {
    if !data.listed then Ok(Relation(schema, data))
    else if data.rows.Size() == 0 then Err(IndexError)
    else match data.rows
      case Tuples(_) => Ok(Relation(schema, data))
      case Dicts(ds) => FromDictionaries(ds, env)
  }

  // ---------------------------------------------------------------------------
  // Materialising, counting and fetching

  /** A materialised relation: a list, and of tuples (an empty list counts). */
  predicate Materialized(r: Relation) {
    r.data.listed && (r.data.rows.Tuples? || r.data.rows.dicts == [])
  }

  /** `materialize()`: drain a generator into a list, and turn dicts into tuples
      under a schema inferred afresh from the first dict. */
  function Materialize(r: Relation, env: Env): (m: Relation)
    ensures Materialized(m)
    ensures Materialized(r) ==> m == r
    ensures m.data.rows.Size() == r.data.rows.Size()
    ensures r.data.rows.Tuples? ==> m == Relation(r.schema, Data(r.data.rows, true))
  {
    match r.data.rows
    case Dicts(ds) =>
      if |ds| >= 1 then FromDictionaries(ds, env).value
      else Relation(r.schema, Data(r.data.rows, true))
    case Tuples(_) => Relation(r.schema, Data(r.data.rows, true))
  }

  /** The tuples of the materialised relation. */
  function Table(r: Relation, env: Env): (ts: seq<Tuple>)
    ensures |ts| == r.data.rows.Size()
    ensures r.data.rows.Tuples? ==> ts == r.data.rows.tuples
  {
    var m := Materialize(r, env);
    if m.data.rows.Tuples? then m.data.rows.tuples else []
  }

  /** `count()` (and `len()`): the number of rows the data holds or yields. */
  function Count(r: Relation, env: Env): (n: nat)
    ensures n == r.data.rows.Size()
    ensures n == |Table(r, env)|
  {
    |Table(r, env)|
  }

  /** `shape`: attributes by rows, after materialising. */
  function Shape(r: Relation, env: Env): (s: (nat, nat))
    ensures s.1 == Count(r, env)
    ensures r.data.rows.Tuples? ==> s.0 == |r.schema|
    ensures r.data.rows.Dicts? && |r.data.rows.dicts| > 0 && WellFormed(r.data.rows.dicts[0]) ==>
      s.0 == |r.data.rows.dicts[0]|
  {
    (|Materialize(r, env).schema|, |Table(r, env)|)
  }

  /** `fetchone(offset)`: the record at a Python index of the materialised
      tuples, labelled by the materialised schema; None out of range. */
  function FetchOne(r: Relation, offset: int, env: Env): (o: Option<Record>)
    ensures o.Some? <==> PyIndexOk(Count(r, env), offset)
    ensures o.Some? ==> var ts := Table(r, env);
      o.value == Zip(Keys(Materialize(r, env).schema), ts[PyNormalize(|ts|, offset)])
  {
    var ts := Table(r, env);
    if PyIndexOk(|ts|, offset) then Some(Zip(Keys(Materialize(r, env).schema), ts[PyNormalize(|ts|, offset)]))
    else None
  }

  /** The records at Python indices `lo <= i < hi` of `ts`, labelled by `keys`;
      an index before the start fails with IndexError. */
  function FetchRange(keys: seq<string>, ts: seq<Tuple>, lo: int, hi: int): (r: Result<seq<Record>>)
    requires hi <= |ts|
    ensures r.Ok? <==> forall i :: lo <= i < hi ==> PyIndexOk(|ts|, i)
    ensures r.Err? ==> r.error == IndexError
    ensures r.Ok? ==> |r.value| == if lo < hi then hi - lo else 0
    ensures r.Ok? ==> forall j :: 0 <= j < |r.value| ==>
      PyIndexOk(|ts|, lo + j) && r.value[j] == Zip(keys, ts[PyNormalize(|ts|, lo + j)])
  {
    if hi <= lo then Ok([])
    else if lo < -|ts| then
      assert !PyIndexOk(|ts|, lo);
      Err(IndexError)
    else Ok(seq(hi - lo, j requires 0 <= j < hi - lo => Zip(keys, ts[PyNormalize(|ts|, lo + j)])))
  }

  function Smaller(a: int, b: int): int {
    if a <= b then a else b
  }

  /** `fetchmany(size, offset)` as written: the keys are taken from the schema
      before `materialize` replaces it. */
  function FetchMany(r: Relation, size: int, offset: int, env: Env): (f: Result<seq<Record>>)
    ensures var end := Smaller(Count(r, env), offset + size);
      f.Ok? ==> |f.value| == if offset < end then end - offset else 0
    ensures 0 <= offset ==> f.Ok?
    ensures f.Ok? && 0 <= offset ==> forall j :: 0 <= j < |f.value| ==>
      f.value[j] == Zip(Keys(r.schema), Table(r, env)[offset + j])
  {
    var ts := Table(r, env);
    FetchRange(Keys(r.schema), ts, offset, Smaller(|ts|, offset + size))
  }

  /** `fetchall(offset)` / `i_fetchall(offset)` as written, with the same early
      capture of the keys. */
  function FetchAll(r: Relation, offset: int, env: Env): (f: Result<seq<Record>>)
    ensures 0 <= offset ==> f.Ok?
    ensures f.Ok? ==> |f.value| == if offset < Count(r, env) then Count(r, env) - offset else 0
    ensures f.Ok? && 0 <= offset ==> forall j :: 0 <= j < |f.value| ==>
      f.value[j] == Zip(Keys(r.schema), Table(r, env)[offset + j])
  {
    var ts := Table(r, env);
    FetchRange(Keys(r.schema), ts, offset, |ts|)
  }

  /** `fetchmany` as evidently intended: labelled by the schema in force when
      the tuples are read. */
  function FetchManyCorrected(r: Relation, size: int, offset: int, env: Env): (f: Result<seq<Record>>)
    ensures 0 <= offset ==> f.Ok?
  {
    var ts := Table(r, env);
    FetchRange(Keys(Materialize(r, env).schema), ts, offset, Smaller(|ts|, offset + size))
  }

  /** The corrected `fetchmany` returns, record by record, what `fetchone`
      returns at the same positions. */
  lemma FetchManyMatchesFetchOne(r: Relation, size: int, offset: int, env: Env)
    requires 0 <= offset
    ensures var f := FetchManyCorrected(r, size, offset, env).value;
      |f| == if offset < Smaller(Count(r, env), offset + size) then Smaller(Count(r, env), offset + size) - offset else 0
    ensures var f := FetchManyCorrected(r, size, offset, env).value;
      forall j :: 0 <= j < |f| ==> FetchOne(r, offset + j, env) == Some(f[j])
  {
  }

  /** Once the data are tuples the early capture is harmless: both agree. */
  lemma FetchManyAgreesOnTuples(r: Relation, size: int, offset: int, env: Env)
    requires r.data.rows.Tuples?
    ensures FetchMany(r, size, offset, env) == FetchManyCorrected(r, size, offset, env)
  {
  }

  /** Over a generator of dicts with no schema given, `fetchmany` labels every
      record with the old, empty schema: the record comes back empty, while
      `fetchone` returns it in full. */
  lemma FetchManyStaleKeys(env: Env)
    ensures var r := Relation([], Data(Dicts([[("a", Int(1))]]), false));
      && FetchMany(r, 100, 0, env) == Ok([[]])
      && FetchOne(r, 0, env) == Some([("a", env.coerce(Int(1)))])
      && FetchManyCorrected(r, 100, 0, env) == Ok([[("a", env.coerce(Int(1)))]])
  {
    var row: Record := [("a", Int(1))];
    var r := Relation([], Data(Dicts([row]), false));
    assert row[..0] == [];
    assert Types(row, env) == [("a", DomainOf(Int(1), env))];
    var m := Materialize(r, env);
    assert Keys(m.schema) == ["a"];
    assert GetOr(row, "a") == Int(1);
    assert Coerce(row, ["a"], env) == [env.coerce(Int(1))];
    var t := [env.coerce(Int(1))];
    assert Table(r, env) == [t];
    assert Zip([], t) == [];
    assert Zip(["a"], t) == [("a", env.coerce(Int(1)))];
    assert Smaller(1, 100) == 1;
    var many := FetchMany(r, 100, 0, env).value;
    assert |many| == 1 && many[0] == [];
    assert many == [[]];
    var fixed := FetchManyCorrected(r, 100, 0, env).value;
    assert |fixed| == 1;
    assert fixed[0] == Zip(["a"], t);
    assert fixed == [Zip(["a"], t)];
  }

  // ---------------------------------------------------------------------------
  // Selection and projection

  /** `apply_selection(predicate)`: the rows the DNF filter keeps (the filter is
      given, as `selected`), under a schema that keeps every attribute, in order,
      with its "type" alone. An attribute whose profile is None fails on `.get`. */
  function ApplySelection(r: Relation, selected: Rows -> Rows): (s: Result<Relation>)
    ensures s.Ok? <==> forall i :: 0 <= i < |r.schema| ==> r.schema[i].1.Some?
    ensures s.Err? ==> s.error == AttributeError
    ensures s.Ok? ==> Keys(s.value.schema) == Keys(r.schema)
    ensures s.Ok? ==> forall i :: 0 <= i < |r.schema| ==>
      s.value.schema[i].1 == Some(Profile(r.schema[i].1.value.domain, []))
    ensures s.Ok? ==> s.value.data == Data(selected(r.data.rows), false)
  {
    if forall i :: 0 <= i < |r.schema| ==> r.schema[i].1.Some? then
      var schema := seq(|r.schema|, i requires 0 <= i < |r.schema| =>
        (r.schema[i].0, Some(Profile(r.schema[i].1.value.domain, []))));
      Ok(Relation(schema, Data(selected(r.data.rows), false)))
    else Err(AttributeError)
  }

  /** The positions, in schema order, of the attributes whose name is requested. */
  function Positions(keys: seq<string>, names: seq<string>): (idx: seq<nat>)
    ensures forall k :: 0 <= k < |idx| ==> idx[k] < |keys|
    ensures Increasing(idx)
    ensures forall j :: 0 <= j < |keys| ==> (j in idx <==> keys[j] in names)
    decreases |keys|
  {
    if |keys| == 0 then []
    else
      var n := |keys| - 1;
      var p := Positions(keys[..n], names);
      assert forall j :: 0 <= j < n ==> keys[..n][j] == keys[j];
      if keys[n] in names then p + [n] else p
  }

  /** Every position of `idx` lies inside `t`. */
  predicate Reaches(t: Tuple, idx: seq<nat>) {
    forall k :: 0 <= k < |idx| ==> idx[k] < |t|
  }

  /** The data half of `apply_projection`: each tuple cut down to the positions
      `idx`. A tuple too short fails with IndexError; a dict, indexed by
      position, with KeyError. */
  function Cut(rows: Rows, idx: seq<nat>): (c: Result<seq<Tuple>>)
    ensures c.Ok? ==> |c.value| == rows.Size()
    ensures rows.Tuples? ==> (c.Ok? <==> forall i :: 0 <= i < |rows.tuples| ==> Reaches(rows.tuples[i], idx))
    ensures rows.Tuples? && c.Ok? ==> forall i :: 0 <= i < |rows.tuples| ==> c.value[i] == Pick(rows.tuples[i], idx)
    ensures rows.Dicts? ==> (c.Ok? <==> |rows.dicts| == 0 || |idx| == 0)
    ensures c.Err? ==> c.error == (if rows.Tuples? then IndexError else KeyError)
  {
    match rows
    case Tuples(ts) =>
      if forall i :: 0 <= i < |ts| ==> Reaches(ts[i], idx) then
        Ok(seq(|ts|, i requires 0 <= i < |ts| => Pick(ts[i], idx)))
      else Err(IndexError)
    case Dicts(ds) =>
      if |ds| == 0 || |idx| == 0 then Ok(seq(|ds|, i => [])) else Err(KeyError)
  }

  /** `apply_projection(attributes)` as written: the new schema is keyed by the
      requested names in the order requested (a name the schema lacks maps to
      None), while each tuple keeps the requested components in schema order. */
  function ApplyProjection(r: Relation, columns: Columns): (p: Result<Relation>)
    ensures p.Ok? ==> Keys(p.value.schema) == UniqueInOrder(Requested(columns))
    ensures p.Ok? ==> forall k :: k in Requested(columns) ==> Lookup(p.value.schema, k) == Lookup(r.schema, k)
    ensures var c := Cut(r.data.rows, Positions(Keys(r.schema), Requested(columns)));
      && (p.Ok? <==> c.Ok?)
      && (p.Err? ==> p.error == c.error)
      && (p.Ok? ==> p.value.data == Data(Tuples(c.value), false))
  {
    var names := Requested(columns);
    var ks := UniqueInOrder(names);
    var schema := seq(|ks|, j requires 0 <= j < |ks| => (ks[j], Lookup(r.schema, ks[j])));
    assert Keys(schema) == ks;
    var c :- Cut(r.data.rows, Positions(Keys(r.schema), names));
    Ok(Relation(schema, Data(Tuples(c), false)))
  }

  /** `apply_projection` as evidently intended: the new schema keeps the
      requested attributes in schema order, matching the tuples, and ignores
      names it does not know. */
  function ApplyProjectionCorrected(r: Relation, columns: Columns): (p: Result<Relation>)
    ensures var c := Cut(r.data.rows, Positions(Keys(r.schema), Requested(columns)));
      && (p.Ok? <==> c.Ok?)
      && (p.Ok? ==> p.value.data == Data(Tuples(c.value), false))
    ensures p.Ok? ==> forall k :: k in Keys(p.value.schema) <==> k in Keys(r.schema) && k in Requested(columns)
  {
    var keys := Keys(r.schema);
    var idx := Positions(keys, Requested(columns));
    var c :- Cut(r.data.rows, idx);
    PickedKeys(r.schema, Requested(columns));
    Ok(Relation(Pick(r.schema, idx), Data(Tuples(c), false)))
  }

  /** The attributes at the requested positions: the requested names the
      schema knows, in schema order. */
  lemma PickedKeys(s: Schema, names: seq<string>)
    ensures var idx := Positions(Keys(s), names);
      Keys(Pick(s, idx)) == Pick(Keys(s), idx)
    ensures var idx := Positions(Keys(s), names);
      forall k :: k in Keys(Pick(s, idx)) <==> k in Keys(s) && k in names
  {
    var keys := Keys(s);
    var idx := Positions(keys, names);
    var schema := Pick(s, idx);
    forall k | k in Keys(schema)
      ensures k in keys && k in names
    {
      var q :| 0 <= q < |schema| && Keys(schema)[q] == k;
      assert k == keys[idx[q]];
    }
    forall k | k in keys && k in names
      ensures k in Keys(schema)
    {
      var j :| 0 <= j < |keys| && keys[j] == k;
      var q :| 0 <= q < |idx| && idx[q] == j;
      assert Keys(schema)[q] == k;
    }
  }

  /** Picking at ascending positions keeps distinct items distinct. */
  lemma PickNoDup<T>(xs: seq<T>, idx: seq<nat>)
    requires NoDup(xs) && Increasing(idx)
    requires forall k :: 0 <= k < |idx| ==> idx[k] < |xs|
    ensures NoDup(Pick(xs, idx))
  {
    var p := Pick(xs, idx);
    forall a, b | 0 <= a < b < |p|
      ensures p[a] != p[b]
    {
      assert idx[a] < idx[b];
    }
  }

  /** With the schema in step with its tuples, a record fetched after the
      corrected projection holds exactly the requested attributes, each with
      the value the unprojected record holds. */
  lemma ProjectionCorrectedFetch(r: Relation, columns: Columns, offset: int, env: Env)
    requires r.data.rows.Tuples? && Keyed(r.schema)
    requires forall i :: 0 <= i < |r.data.rows.tuples| ==> |r.data.rows.tuples[i]| == |r.schema|
    requires PyIndexOk(Count(r, env), offset)
    ensures ApplyProjectionCorrected(r, columns).Ok?
    ensures var after := FetchOne(ApplyProjectionCorrected(r, columns).value, offset, env);
      var before := FetchOne(r, offset, env);
      && after.Some?
      && forall k :: Get(after.value, k) == if k in Requested(columns) then Get(before.value, k) else None
  {
    var names := Requested(columns);
    var keys := Keys(r.schema);
    var idx := Positions(keys, names);
    var ts := r.data.rows.tuples;
    var p := ApplyProjectionCorrected(r, columns).value;
    var n := PyNormalize(|ts|, offset);
    PickedKeys(r.schema, names);
    assert Keys(p.schema) == Pick(keys, idx);
    assert Table(p, env)[n] == Pick(ts[n], idx);
    forall k
      ensures Get(Zip(Pick(keys, idx), Pick(ts[n], idx)), k) == if k in names then Get(Zip(keys, ts[n]), k) else None
    {
      ProjectedGet(keys, ts[n], names, k);
    }
  }

  /** Reading a key from a tuple cut down to the requested positions. */
  lemma ProjectedGet(keys: seq<string>, t: Tuple, names: seq<string>, k: string)
    requires NoDup(keys) && |t| == |keys|
    ensures var idx := Positions(keys, names);
      Get(Zip(Pick(keys, idx), Pick(t, idx)), k) == if k in names then Get(Zip(keys, t), k) else None
  {
    var idx := Positions(keys, names);
    var pkeys, pt := Pick(keys, idx), Pick(t, idx);
    PickNoDup(keys, idx);
    GetZip(keys, t, k);
    GetZip(pkeys, pt, k);
    if k in keys && k in names {
      var j :| 0 <= j < |keys| && keys[j] == k;
      var q :| 0 <= q < |idx| && idx[q] == j;
      assert pkeys[q] == k && pt[q] == t[j];
    }
  }

  /** Projecting a two-attribute relation `a, b` onto `b, a` keeps each tuple as
      it is but relabels it: `a`'s value comes back under `b` and `b`'s under `a`. */
  lemma ProjectionMislabels(a: string, b: string, pa: Option<Profile>, pb: Option<Profile>, x: Value, y: Value, env: Env)
    requires a != b
    ensures var r := Relation([(a, pa), (b, pb)], Data(Tuples([[x, y]]), true));
      && FetchOne(r, 0, env) == Some([(a, x), (b, y)])
      && ApplyProjection(r, Several([b, a])).Ok?
      && FetchOne(ApplyProjection(r, Several([b, a])).value, 0, env) == Some([(b, x), (a, y)])
  {
    var r := Relation([(a, pa), (b, pb)], Data(Tuples([[x, y]]), true));
    assert Keys(r.schema) == [a, b];
    FetchPair(r, a, b, x, y, env);
    SwappedProjection(r, a, b, x, y);
    FetchPair(ApplyProjection(r, Several([b, a])).value, b, a, x, y, env);
  }

  /** Fetching the only tuple of a two-attribute relation. */
  lemma FetchPair(r: Relation, a: string, b: string, x: Value, y: Value, env: Env)
    requires Keys(r.schema) == [a, b] && r.data.rows == Tuples([[x, y]])
    ensures FetchOne(r, 0, env) == Some([(a, x), (b, y)])
  {
    assert Zip([a, b], [x, y]) == [(a, x), (b, y)];
  }

  lemma SwappedProjection(r: Relation, a: string, b: string, x: Value, y: Value)
    requires a != b && Keys(r.schema) == [a, b]
    requires r.data.rows == Tuples([[x, y]])
    ensures ApplyProjection(r, Several([b, a])).Ok?
    ensures var q := ApplyProjection(r, Several([b, a])).value;
      Keys(q.schema) == [b, a] && q.data.rows == Tuples([[x, y]])
  {
    var names := [b, a];
    var keys := Keys(r.schema);
    SwappedPositions(a, b);
    var idx := Positions(keys, names);
    assert idx == [0, 1];
    assert Pick([x, y], idx) == [x, y];
    assert Reaches([x, y], idx);
    var c := Cut(r.data.rows, idx);
    assert c.Ok? && |c.value| == 1 && c.value[0] == [x, y];
    assert c.value == [[x, y]];
    assert NoDup(names);
    var ks := UniqueInOrder(names);
    assert ks == names;
  }

  lemma SwappedPositions(a: string, b: string)
    requires a != b
    ensures Positions([a, b], [b, a]) == [0, 1]
  {
    var keys, names := [a, b], [b, a];
    assert keys[..1] == [a] && keys[..1][..0] == [];
    assert Positions(keys[..1], names) == [0];
  }

  // ---------------------------------------------------------------------------
  // Renaming

  /** `d.pop(k)` for the key at position `i`. */
  function Pop(s: Schema, i: nat): (t: Schema)
    requires i < |s|
    ensures |t| == |s| - 1
    ensures Keyed(s) ==> Keyed(t)
    ensures Keyed(s) ==> forall e :: e in t <==> e in s && e.0 != s[i].0
  {
    var t := s[..i] + s[i + 1..];
    assert forall j :: 0 <= j < |t| ==> t[j] == if j < i then s[j] else s[j + 1];
    assert forall e :: e in s ==> e == s[i] || e in t by {
      forall e | e in s
        ensures e == s[i] || e in t
      {
        var j :| 0 <= j < |s| && s[j] == e;
        if j < i { assert t[j] == e; } else if j > i { assert t[j - 1] == e; }
      }
    }
    PopKeyed(s, i);
    t
  }

  lemma PopKeyed(s: Schema, i: nat)
    requires i < |s|
    ensures var t := s[..i] + s[i + 1..];
      Keyed(s) ==> Keyed(t) && forall e :: e in t ==> e.0 != s[i].0
  {
    var t := s[..i] + s[i + 1..];
    assert forall j :: 0 <= j < |t| ==> t[j] == if j < i then s[j] else s[j + 1];
    if Keyed(s) {
      var ks := Keys(s);
      forall a, b | 0 <= a < b < |t|
        ensures Keys(t)[a] != Keys(t)[b]
      {
        var a', b' := if a < i then a else a + 1, if b < i then b else b + 1;
        assert ks[a'] != ks[b'];
      }
      forall e | e in t
        ensures e.0 != s[i].0
      {
        var j :| 0 <= j < |t| && t[j] == e;
        var j' := if j < i then j else j + 1;
        assert ks[j'] != ks[i];
      }
    }
  }

  /** `d[k] = v`: overwrite `k` where it stands, or append it. */
  function Store(s: Schema, k: string, v: Option<Profile>): (t: Schema)
    ensures (k, v) in t
    ensures k !in Keys(s) ==> t == s + [(k, v)]
    ensures k in Keys(s) ==> |t| == |s|
    ensures forall e :: e in t && e.0 != k ==> e in s
    ensures forall e :: e in s && e.0 != k ==> e in t
    ensures Keyed(s) ==> Keyed(t)
  {
    match FindKey(s, k)
    case None =>
      var t := s + [(k, v)];
      assert Keys(t) == Keys(s) + [k];
      assert Keyed(s) ==> Keyed(t) by {
        if Keyed(s) {
          NoDupAppend(Keys(s), [k]);
        }
      }
      t
    case Some(i) =>
      var t := s[i := (k, v)];
      assert Keys(t) == Keys(s);
      assert forall e :: e in s && e.0 != k ==> e in t by {
        forall e | e in s && e.0 != k
          ensures e in t
        {
          var j :| 0 <= j < |s| && s[j] == e;
          assert t[j] == e;
        }
      }
      t
  }

  /** Two dicts with the same entries under `x` agree on `x`. */
  lemma SameLookup(s: Schema, t: Schema, x: string)
    requires Keyed(s) && Keyed(t)
    requires forall e :: e in t && e.0 == x ==> e in s
    requires forall e :: e in s && e.0 == x ==> e in t
    ensures Lookup(s, x) == Lookup(t, x)
  {
    if x in Keys(t) {
      var j :| 0 <= j < |t| && Keys(t)[j] == x;
      var m :| 0 <= m < |s| && s[m] == t[j];
    }
  }

  lemma RenameFacts(s: Schema, i: nat, newName: string)
    requires i < |s|
    ensures var current, popped := s[i].0, s[i].1;
      var after := Store(Pop(s, i), newName, popped);
      Keyed(s) ==>
        && Lookup(after, newName) == Lookup(s, current)
        && (forall k :: k != newName && k != current ==> Lookup(after, k) == Lookup(s, k))
        && (forall k :: k in Keys(after) <==> k == newName || (k in Keys(s) && k != current))
        && ((newName == current || newName !in Keys(s)) ==> after == Pop(s, i) + [(newName, popped)])
  {
    if Keyed(s) {
      if newName == s[i].0 || newName !in Keys(s) {
        RenameAppends(s, i, newName);
      }
      RenameLookups(s, i, newName);
      RenameKeys(s, i, newName);
    }
  }

  lemma RenameAppends(s: Schema, i: nat, newName: string)
    requires i < |s| && Keyed(s)
    requires newName == s[i].0 || newName !in Keys(s)
    ensures Store(Pop(s, i), newName, s[i].1) == Pop(s, i) + [(newName, s[i].1)]
  {
  }

  lemma RenameLookups(s: Schema, i: nat, newName: string)
    requires i < |s| && Keyed(s)
    ensures var after := Store(Pop(s, i), newName, s[i].1);
      && Lookup(after, newName) == Lookup(s, s[i].0)
      && forall k :: k != newName && k != s[i].0 ==> Lookup(after, k) == Lookup(s, k)
  {
    var after := Store(Pop(s, i), newName, s[i].1);
    assert Lookup(after, newName) == s[i].1;
    forall k | k != newName && k != s[i].0
      ensures Lookup(after, k) == Lookup(s, k)
    {
      SameLookup(s, after, k);
    }
  }

  lemma RenameKeys(s: Schema, i: nat, newName: string)
    requires i < |s| && Keyed(s)
    ensures var after := Store(Pop(s, i), newName, s[i].1);
      forall k :: k in Keys(after) <==> k == newName || (k in Keys(s) && k != s[i].0)
  {
    var after := Store(Pop(s, i), newName, s[i].1);
    forall k
      ensures k in Keys(after) <==> k == newName || (k in Keys(s) && k != s[i].0)
    {
      if k in Keys(after) && k != newName {
        var j :| 0 <= j < |after| && Keys(after)[j] == k;
        assert after[j] in s;
      }
      if k in Keys(s) && k != s[i].0 && k != newName {
        var j :| 0 <= j < |s| && Keys(s)[j] == k;
        assert s[j] in after;
      }
    }
  }

  /** `rename_attribute(current, new_name)` as written: the profile popped from
      `current` is stored under `new_name` (at the end of the schema unless
      that name is already a key); the tuples are left as they are. */
  function RenameAttribute(r: Relation, current: string, newName: string): (n: Result<Relation>)
    ensures n.Ok? <==> current in Keys(r.schema)
    ensures n.Err? ==> n.error == KeyError
    ensures n.Ok? ==> n.value.data == r.data
    ensures n.Ok? && Keyed(r.schema) ==> Keyed(n.value.schema)
    ensures n.Ok? && Keyed(r.schema) ==> Lookup(n.value.schema, newName) == Lookup(r.schema, current)
    ensures n.Ok? && Keyed(r.schema) ==> forall k :: k != newName && k != current ==>
      Lookup(n.value.schema, k) == Lookup(r.schema, k)
    ensures n.Ok? && Keyed(r.schema) ==> forall k :: k in Keys(n.value.schema) <==>
      k == newName || (k in Keys(r.schema) && k != current)
    ensures n.Ok? && Keyed(r.schema) && (newName == current || newName !in Keys(r.schema)) ==>
      |n.value.schema| == |r.schema| && n.value.schema[|r.schema| - 1].0 == newName
  {
    match FindKey(r.schema, current)
    case None => Err(KeyError)
    case Some(i) =>
      var popped := r.schema[i].1;
      var rest := Pop(r.schema, i);
      var after := Store(rest, newName, popped);
      RenameFacts(r.schema, i, newName);
      Ok(Relation(after, r.data))
  }

  /** Renaming `a` to a fresh `c` in a relation `a, b` moves `c` to the end of
      the schema while the tuples stay as they are: `a`'s value comes back
      under `b`, and `b`'s under `c`. */
  lemma RenameMislabels(a: string, b: string, c: string, pa: Option<Profile>, pb: Option<Profile>, x: Value, y: Value, env: Env)
    requires a != b && c != a && c != b
    ensures var r := Relation([(a, pa), (b, pb)], Data(Tuples([[x, y]]), true));
      && FetchOne(r, 0, env) == Some([(a, x), (b, y)])
      && RenameAttribute(r, a, c).Ok?
      && FetchOne(RenameAttribute(r, a, c).value, 0, env) == Some([(b, x), (c, y)])
  {
    var r := Relation([(a, pa), (b, pb)], Data(Tuples([[x, y]]), true));
    assert Keys(r.schema) == [a, b];
    FetchPair(r, a, b, x, y, env);
    RenamedPair(r, a, b, c, pa, pb);
    assert Keys([(b, pb), (c, pa)]) == [b, c];
    FetchPair(RenameAttribute(r, a, c).value, b, c, x, y, env);
  }

  lemma RenamedPair(r: Relation, a: string, b: string, c: string, pa: Option<Profile>, pb: Option<Profile>)
    requires a != b && c != a && c != b && r.schema == [(a, pa), (b, pb)]
    ensures RenameAttribute(r, a, c) == Ok(Relation([(b, pb), (c, pa)], r.data))
  {
    assert FindKey(r.schema, a) == Some(0);
    assert Pop(r.schema, 0) == [(b, pb)];
    assert FindKey([(b, pb)], c) == None;
    assert Store([(b, pb)], c, pa) == [(b, pb)] + [(c, pa)] == [(b, pb), (c, pa)];
  }

  /** The attribute whose values `k` holds once `current` is renamed `newName`. */
  function Origin(k: string, current: string, newName: string): string {
    if k == newName then current else k
  }

  /** A tuple laid out afresh for the renamed keys: each key takes the value
      its origin held under the old keys. */
  function Relay(oldKeys: seq<string>, t: Tuple, newKeys: seq<string>, current: string, newName: string): (u: Tuple)
    ensures |u| == |newKeys|
    ensures forall j :: 0 <= j < |newKeys| ==> u[j] == GetOr(Zip(oldKeys, t), Origin(newKeys[j], current, newName))
  {
    seq(|newKeys|, j requires 0 <= j < |newKeys| => GetOr(Zip(oldKeys, t), Origin(newKeys[j], current, newName)))
  }

  /** `rename_attribute` as evidently intended: the schema is renamed as before
      (after materialising), and every tuple is laid out afresh so that each
      attribute keeps its values. */
  function RenameCorrected(r: Relation, current: string, newName: string, env: Env): (n: Result<Relation>)
    ensures n.Ok? <==> current in Keys(Materialize(r, env).schema)
    ensures n.Err? ==> n.error == KeyError
    ensures n.Ok? ==> n.value.schema == RenameAttribute(Materialize(r, env), current, newName).value.schema
    ensures n.Ok? ==> Materialized(n.value) && Count(n.value, env) == Count(r, env)
  {
    var m := Materialize(r, env);
    var renamed :- RenameAttribute(m, current, newName);
    var oldKeys, newKeys := Keys(m.schema), Keys(renamed.schema);
    var ts := Table(r, env);
    Ok(Relation(renamed.schema, Data(Tuples(seq(|ts|, i requires 0 <= i < |ts| => Relay(oldKeys, ts[i], newKeys, current, newName))), true)))
  }

  /** With the schema in step with its tuples, a record fetched after the
      corrected rename holds under `newName` what it held under `current`,
      everything else unchanged, and `current` no more. */
  lemma RenameCorrectedFetch(r: Relation, current: string, newName: string, offset: int, env: Env)
    requires r.data.rows.Tuples? && Keyed(r.schema)
    requires forall i :: 0 <= i < |r.data.rows.tuples| ==> |r.data.rows.tuples[i]| == |r.schema|
    requires current in Keys(r.schema)
    requires PyIndexOk(Count(r, env), offset)
    ensures RenameCorrected(r, current, newName, env).Ok?
    ensures var after := FetchOne(RenameCorrected(r, current, newName, env).value, offset, env);
      var before := FetchOne(r, offset, env);
      && after.Some? && before.Some?
      && Get(after.value, newName) == Get(before.value, current)
      && (forall k :: k != newName && k != current ==> Get(after.value, k) == Get(before.value, k))
      && (current != newName ==> Get(after.value, current) == None)
  {
    var n := RenameCorrected(r, current, newName, env).value;
    var ts := r.data.rows.tuples;
    var t := ts[PyNormalize(|ts|, offset)];
    var oldKeys, newKeys := Keys(r.schema), Keys(n.schema);
    RenamedRecord(r, current, newName, offset, env);
    RenameOrigins(r.schema, r.data, current, newName);
    RelayFacts(oldKeys, t, newKeys, current, newName);
  }

  /** What a relayed tuple holds under the renamed keys. */
  lemma RelayFacts(oldKeys: seq<string>, t: Tuple, newKeys: seq<string>, current: string, newName: string)
    requires NoDup(oldKeys) && NoDup(newKeys) && |t| == |oldKeys| && current in oldKeys
    requires forall k :: k in newKeys <==> k == newName || (k in oldKeys && k != current)
    ensures var before, after := Zip(oldKeys, t), Zip(newKeys, Relay(oldKeys, t, newKeys, current, newName));
      && Get(after, newName) == Get(before, current)
      && (forall k :: k != newName && k != current ==> Get(after, k) == Get(before, k))
      && (current != newName ==> Get(after, current) == None)
  {
    var before, after := Zip(oldKeys, t), Zip(newKeys, Relay(oldKeys, t, newKeys, current, newName));
    forall x | x in newKeys
      ensures Origin(x, current, newName) in oldKeys
    {
    }
    forall k
      ensures Get(after, k) == if k in newKeys then Get(before, Origin(k, current, newName)) else None
    {
      RelayedGet(oldKeys, t, newKeys, current, newName, k);
    }
    GetZip(oldKeys, t, current);
    forall k | k != newName && k != current
      ensures Get(after, k) == Get(before, k)
    {
      GetZip(oldKeys, t, k);
    }
  }

  /** The record fetched after the corrected rename is the relayed tuple under
      the renamed keys. */
  lemma RenamedRecord(r: Relation, current: string, newName: string, offset: int, env: Env)
    requires r.data.rows.Tuples? && current in Keys(r.schema)
    requires PyIndexOk(Count(r, env), offset)
    ensures RenameCorrected(r, current, newName, env).Ok?
    ensures var n := RenameCorrected(r, current, newName, env).value;
      var ts := r.data.rows.tuples;
      var oldKeys, newKeys := Keys(r.schema), Keys(n.schema);
      && n.schema == RenameAttribute(r, current, newName).value.schema
      && FetchOne(r, offset, env) == Some(Zip(oldKeys, ts[PyNormalize(|ts|, offset)]))
      && FetchOne(n, offset, env) == Some(Zip(newKeys, Relay(oldKeys, ts[PyNormalize(|ts|, offset)], newKeys, current, newName)))
  {
    var n := RenameCorrected(r, current, newName, env).value;
    var i := PyNormalize(|r.data.rows.tuples|, offset);
    assert Table(n, env)[i] == Relay(Keys(r.schema), r.data.rows.tuples[i], Keys(n.schema), current, newName);
  }

  /** After renaming in a genuine dict, the keys are still distinct and each
      one's origin is an old key. */
  lemma RenameOrigins(s: Schema, d: Data, current: string, newName: string)
    requires Keyed(s) && current in Keys(s)
    ensures var newKeys := Keys(RenameAttribute(Relation(s, d), current, newName).value.schema);
      && NoDup(newKeys)
      && forall k :: k in newKeys <==> k == newName || (k in Keys(s) && k != current)
  {
  }

  /** Reading a key from a relayed tuple. */
  lemma RelayedGet(oldKeys: seq<string>, t: Tuple, newKeys: seq<string>, current: string, newName: string, k: string)
    requires NoDup(oldKeys) && NoDup(newKeys) && |t| == |oldKeys|
    requires forall x :: x in newKeys ==> Origin(x, current, newName) in oldKeys
    ensures var u := Relay(oldKeys, t, newKeys, current, newName);
      Get(Zip(newKeys, u), k) == if k in newKeys then Get(Zip(oldKeys, t), Origin(k, current, newName)) else None
  {
    var u := Relay(oldKeys, t, newKeys, current, newName);
    GetZip(newKeys, u, k);
    if k in newKeys {
      var j :| 0 <= j < |newKeys| && newKeys[j] == k;
      var o := Origin(k, current, newName);
      GetZip(oldKeys, t, o);
      var m :| 0 <= m < |oldKeys| && oldKeys[m] == o;
      assert Get(Zip(oldKeys, t), o) == Some(t[m]);
    }
  }

  // ---------------------------------------------------------------------------
  // Distinct, column aggregates, union and hash

  /** `hash(t)` succeeds on a tuple unless one of its items is a list or a dict. */
  predicate Hashable(t: Tuple) {
    forall k :: 0 <= k < |t| ==> !t[k].List? && !t[k].Dict?
  }

  /** `distinct()`: materialise, then a generator yielding each tuple whose
      Python `hash` (given as `pyHash`) has not been registered yet; TypeError
      when some tuple holds a list or a dict. */
  function Distinct(r: Relation, pyHash: Tuple -> int, env: Env): (d: Result<Relation>)
    ensures d.Ok? <==> forall i :: 0 <= i < Count(r, env) ==> Hashable(Table(r, env)[i])
    ensures d.Err? ==> d.error == TypeError
    ensures d.Ok? ==> d.value.schema == Materialize(r, env).schema
    ensures d.Ok? ==> d.value.data.rows.Tuples? && !d.value.data.listed
    ensures var ts := Table(r, env);
      d.Ok? ==> d.value.data.rows.tuples == Pick(ts, FirstSeenIndices(ts, pyHash))
    ensures d.Ok? ==> NoDup(Image(d.value.data.rows.tuples, pyHash))
    ensures d.Ok? ==> forall i :: 0 <= i < Count(r, env) ==> pyHash(Table(r, env)[i]) in Image(d.value.data.rows.tuples, pyHash)
    ensures d.Ok? && NoDup(Image(Table(r, env), pyHash)) ==> d.value.data.rows.tuples == Table(r, env)
  {
    var ts := Table(r, env);
    if exists i :: 0 <= i < |ts| && !Hashable(ts[i]) then Err(TypeError)
    else
      DedupeLoopIsFirstSeen(ts, pyHash);
      FirstSeenSpec(ts, pyHash);
      FirstSeenAllNew(ts, pyHash);
      Ok(Relation(Materialize(r, env).schema, Data(Tuples(DedupeLoop(ts, pyHash).0), false)))
  }

  /** Deduplicating twice keeps what deduplicating once kept. */
  lemma DistinctIdempotent(r: Relation, pyHash: Tuple -> int, env: Env)
    requires Distinct(r, pyHash, env).Ok?
    ensures Distinct(Distinct(r, pyHash, env).value, pyHash, env).Ok?
    ensures Table(Distinct(Distinct(r, pyHash, env).value, pyHash, env).value, env) == Table(Distinct(r, pyHash, env).value, env)
  {
    var ts := Table(r, env);
    var us := Distinct(r, pyHash, env).value.data.rows.tuples;
    assert forall t :: t in us ==> t in ts;
  }

  /** Python truthiness of the `key` argument: None and "" are false. */
  predicate Truthy(key: Option<string>) {
    key.Some? && key.value != ""
  }

  /** `collect_list(key)`: with no key, every record `fetchall()` returns (as a
      dict value). Otherwise the key's position among the schema's keys (a
      ValueError when absent), read from every row of the data as it stands,
      without materialising: a tuple too short fails with IndexError, and a
      dict, indexed by a position, with KeyError. */
  function CollectList(r: Relation, key: Option<string>, env: Env): (c: Result<seq<Value>>)
    ensures !Truthy(key) ==> c.Ok? && |c.value| == Count(r, env)
    ensures !Truthy(key) ==> forall i :: 0 <= i < |c.value| ==>
      c.value[i] == Dict(Zip(Keys(r.schema), Table(r, env)[i]))
    ensures Truthy(key) && key.value !in Keys(r.schema) ==> c == Err(ValueError)
    ensures Truthy(key) && key.value in Keys(r.schema) && r.data.rows.Dicts? ==>
      c == if |r.data.rows.dicts| == 0 then Ok([]) else Err(KeyError)
    ensures Truthy(key) && key.value in Keys(r.schema) && r.data.rows.Tuples? ==>
      var ts, j := r.data.rows.tuples, FindKey(r.schema, key.value).value;
      && (c.Ok? <==> forall i :: 0 <= i < |ts| ==> j < |ts[i]|)
      && (c.Err? ==> c.error == IndexError)
      && (c.Ok? ==> |c.value| == |ts| && forall i :: 0 <= i < |ts| ==> c.value[i] == ts[i][j])
  {
    if !Truthy(key) then
      var all := FetchAll(r, 0, env).value;
      Ok(seq(|all|, i requires 0 <= i < |all| => Dict(all[i])))
    else match FindKey(r.schema, key.value)
      case None => Err(ValueError)
      case Some(j) =>
        match r.data.rows
        case Tuples(ts) =>
          if forall i :: 0 <= i < |ts| ==> j < |ts[i]| then Ok(seq(|ts|, i requires 0 <= i < |ts| => ts[i][j]))
          else Err(IndexError)
        case Dicts(ds) => if |ds| == 0 then Ok([]) else Err(KeyError)
  }

  /** Collecting a column reads, row by row, what `fetchone` returns under
      that key. */
  lemma CollectMatchesFetch(r: Relation, k: string, i: nat, env: Env)
    requires r.data.rows.Tuples? && Keyed(r.schema) && k != ""
    requires forall n :: 0 <= n < |r.data.rows.tuples| ==> |r.data.rows.tuples[n]| == |r.schema|
    requires k in Keys(r.schema) && i < |r.data.rows.tuples|
    ensures CollectList(r, Some(k), env).Ok? && FetchOne(r, i, env).Some?
    ensures Get(FetchOne(r, i, env).value, k) == Some(CollectList(r, Some(k), env).value[i])
  {
    var ts := r.data.rows.tuples;
    var keys := Keys(r.schema);
    var j := FindKey(r.schema, k).value;
    assert PyNormalize(|ts|, i) == i;
    GetZip(keys, ts[i], k);
  }

  /** `sum(key)`: `reduce(lambda x, y: x + y, collect_list(key), 0)`, the total
      of the collected column. */
  function Sum(r: Relation, key: Option<string>, env: Env): (s: Result<int>)
    ensures CollectList(r, key, env).Err? ==> s == Err(CollectList(r, key, env).error)
    ensures var c := CollectList(r, key, env);
      c.Ok? ==> (s.Ok? <==> Aggregates.AllNumeric(c.value))
    ensures var c := CollectList(r, key, env);
      c.Ok? && |c.value| == 0 ==> s == Ok(0)
    ensures var c := CollectList(r, key, env);
      c.Ok? && s.Ok? ==> Aggregates.AllNumeric(c.value) && s.value == Aggregates.Total(c.value)
  {
    var vs :- CollectList(r, key, env);
    Aggregates.Sum(vs)
  }

  lemma UnionPair<T>(a: seq<T>, b: seq<T>)
    ensures Union([a, b]) == a + b
  {
    assert Flatten([a, b]) == a + Flatten([b]);
    assert Flatten([b]) == b + Flatten([]);
  }

  /** Collecting a column over the union of two relations' tuples concatenates
      the two columns (so `sum` over the union adds the two sums, by
      `Aggregates.SumAppend`). */
  lemma CollectOverUnion(schema: Schema, a: seq<Tuple>, b: seq<Tuple>, key: string, env: Env)
    requires key != ""
    ensures var ca := CollectList(Relation(schema, Data(Tuples(a), true)), Some(key), env);
      var cb := CollectList(Relation(schema, Data(Tuples(b), true)), Some(key), env);
      ca.Ok? && cb.Ok? ==> CollectList(Relation(schema, Data(Tuples(Union([a, b])), true)), Some(key), env) == Ok(ca.value + cb.value)
  {
    UnionPair(a, b);
    var ca := CollectList(Relation(schema, Data(Tuples(a), true)), Some(key), env);
    var cb := CollectList(Relation(schema, Data(Tuples(b), true)), Some(key), env);
    if ca.Ok? && cb.Ok? {
      var cu := CollectList(Relation(schema, Data(Tuples(a + b), true)), Some(key), env);
      assert key in Keys(schema);
      var j := FindKey(schema, key).value;
      assert forall i :: 0 <= i < |a + b| ==> j < |(a + b)[i]| by {
        forall i | 0 <= i < |a + b|
          ensures j < |(a + b)[i]|
        {
          if i >= |a| {
            assert (a + b)[i] == b[i - |a|];
          }
        }
      }
      assert cu.Ok?;
      assert cu.value == ca.value + cb.value;
    }
  }

  /** `max(key)`: `reduce(max, collect_list(key))`. */
  function Max(r: Relation, key: Option<string>, env: Env): (m: Result<Value>)
    ensures CollectList(r, key, env).Err? ==> m == Err(CollectList(r, key, env).error)
    ensures var c := CollectList(r, key, env);
      c.Ok? ==> (m.Ok? <==> |c.value| == 1 || (|c.value| > 1 && (Aggregates.AllNumeric(c.value) || Aggregates.AllStr(c.value))))
    ensures m.Ok? ==> m.value in CollectList(r, key, env).value
    ensures m.Ok? ==> forall v :: v in CollectList(r, key, env).value ==> v == m.value || !Aggregates.Below(m.value, v)
  {
    var vs :- CollectList(r, key, env);
    Aggregates.Max(vs)
  }

  /** `min(key)`: `reduce(min, collect_list(key))`. */
  function Min(r: Relation, key: Option<string>, env: Env): (m: Result<Value>)
    ensures CollectList(r, key, env).Err? ==> m == Err(CollectList(r, key, env).error)
    ensures var c := CollectList(r, key, env);
      c.Ok? ==> (m.Ok? <==> |c.value| == 1 || (|c.value| > 1 && (Aggregates.AllNumeric(c.value) || Aggregates.AllStr(c.value))))
    ensures m.Ok? ==> m.value in CollectList(r, key, env).value
    ensures m.Ok? ==> forall v :: v in CollectList(r, key, env).value ==> v == m.value || !Aggregates.Below(v, m.value)
  {
    var vs :- CollectList(r, key, env);
    Aggregates.Min(vs)
  }

  /** `_union(*its)`: the iterables one after another. */
  function Union<T>(its: seq<seq<T>>): (u: seq<T>)
    ensures forall i, k :: 0 <= i < |its| && 0 <= k < |its[i]| ==> its[i][k] in u
    ensures forall x :: x in u ==> exists i, k :: 0 <= i < |its| && 0 <= k < |its[i]| && its[i][k] == x
  {
    forall i, k | 0 <= i < |its| && 0 <= k < |its[i]|
      ensures its[i][k] in Flatten(its)
    {
      InFlatten(its, i, k);
    }
    forall x | x in Flatten(its)
      ensures exists i, k :: 0 <= i < |its| && 0 <= k < |its[i]| && its[i][k] == x
    {
      FromFlatten(its, x);
    }
    Flatten(its)
  }

  /** The union keeps the order of its arguments: concatenating argument lists
      concatenates the unions. */
  lemma UnionConcatenates<T>(a: seq<seq<T>>, b: seq<seq<T>>)
    ensures Union(a + b) == Union(a) + Union(b)
  {
    FlattenAppend(a, b);
  }

  /** `_union([first_dict], dicts)` after `next(dicts)` yields the input again. */
  lemma UnionFirstRest<T>(xs: seq<T>)
    requires |xs| > 0
    ensures Union([[xs[0]], xs[1..]]) == xs
  {
    assert Flatten([[xs[0]], xs[1..]]) == [xs[0]] + Flatten([xs[1..]]);
    assert Flatten([xs[1..]]) == xs[1..] + Flatten([]);
  }

  /** A tuple's digest in `__hash__`: the seeded XOR fold of `sip` (siphash of
      `str(v)` under the fixed key) over its items. */
  function TupleDigest(t: seq<Value>, sip: Value -> bv64): bv64 {
    XorFold(HASH_SEED, Image(t, sip))
  }

  function Digester(sip: Value -> bv64): seq<Value> -> bv64 {
    t => TupleDigest(t, sip)
  }

  function KeyValue(k: string): Value {
    Str(k)
  }

  /** What `__hash__` iterates, without materialising: each tuple's items, or
      each dict's keys (iterating a dict yields its keys). */
  function HashItems(rows: Rows): (items: seq<seq<Value>>)
    ensures |items| == rows.Size()
    ensures rows.Tuples? ==> items == rows.tuples
    ensures rows.Dicts? ==> forall i :: 0 <= i < |items| ==> |items[i]| == |rows.dicts[i]|
  {
    match rows
    case Tuples(ts) => ts
    case Dicts(ds) => seq(|ds|, i requires 0 <= i < |ds| => Image(Keys(ds[i]), KeyValue))
  }

  /** `__hash__()`: the seeded XOR fold of the rows' digests. */
  function Hash(r: Relation, sip: Value -> bv64): (h: bv64)
    ensures r.data.rows.Size() == 0 ==> h == HASH_SEED
    ensures r.data.rows.Tuples? && |r.data.rows.tuples| == 1 ==> h == Xor(HASH_SEED, TupleDigest(r.data.rows.tuples[0], sip))
  {
    var ds := Image(HashItems(r.data.rows), Digester(sip));
    assert r.data.rows.Tuples? && |ds| == 1 ==>
      XorFold(HASH_SEED, ds[..0]) == HASH_SEED && ds[0] == TupleDigest(r.data.rows.tuples[0], sip);
    XorFold(HASH_SEED, ds)
  }

  /** The hash does not depend on the order of the tuples, nor on the schema. */
  lemma HashIgnoresOrder(r: Relation, s: Relation, sip: Value -> bv64)
    requires r.data.rows.Tuples? && s.data.rows.Tuples?
    requires multiset(r.data.rows.tuples) == multiset(s.data.rows.tuples)
    ensures Hash(r, sip) == Hash(s, sip)
  {
    var f := Digester(sip);
    ImagePermutation(r.data.rows.tuples, s.data.rows.tuples, f);
    XorFoldPermutation(HASH_SEED, Image(r.data.rows.tuples, f), Image(s.data.rows.tuples, f));
  }

  /** A tuple present twice more leaves the hash unchanged. */
  lemma HashCancelsPairs(schema: Schema, ts: seq<Tuple>, t: Tuple, listed: bool, sip: Value -> bv64)
    ensures Hash(Relation(schema, Data(Tuples(ts + [t, t]), listed)), sip) == Hash(Relation(schema, Data(Tuples(ts), listed)), sip)
  {
    var f := Digester(sip);
    ImageAppend(ts, [t, t], f);
    assert Image([t, t], f) == [f(t), f(t)];
    XorFoldCancel(HASH_SEED, Image(ts, f), f(t));
  }

  /** A tuple's digest does not depend on the order of its items, so tuples
      that rearrange the same values hash alike. */
  lemma TupleDigestIgnoresOrder(a: seq<Value>, b: seq<Value>, sip: Value -> bv64)
    requires multiset(a) == multiset(b)
    ensures TupleDigest(a, sip) == TupleDigest(b, sip)
  {
    ImagePermutation(a, b, sip);
    XorFoldPermutation(HASH_SEED, Image(a, sip), Image(b, sip));
  }

  /** Over dicts, the hash sees the keys alone: dicts with the same keys in the
      same order hash alike whatever their values. */
  lemma HashOfDictsSeesKeysOnly(r: Relation, s: Relation, sip: Value -> bv64)
    requires r.data.rows.Dicts? && s.data.rows.Dicts?
    requires |r.data.rows.dicts| == |s.data.rows.dicts|
    requires forall i :: 0 <= i < |r.data.rows.dicts| ==> Keys(r.data.rows.dicts[i]) == Keys(s.data.rows.dicts[i])
    ensures Hash(r, sip) == Hash(s, sip)
  {
    assert HashItems(r.data.rows) == HashItems(s.data.rows);
  }

  /** Reading a record back: fetching row `i` of a relation built from dicts
      yields, under each key of the first dict, the coerced value of that key
      in dict `i` (None when it lacks it), and nothing under any other key. */
  lemma FetchAfterDicts(ds: seq<Record>, i: nat, env: Env)
    requires i < |ds| && WellFormed(ds[0])
    ensures FromDictionaries(ds, env).Ok?
    ensures FetchOne(FromDictionaries(ds, env).value, i, env).Some?
    ensures var f := FetchOne(FromDictionaries(ds, env).value, i, env).value;
      forall k :: Get(f, k) == if k in Keys(ds[0]) then Some(env.coerce(GetOr(ds[i], k))) else None
  {
    var r := FromDictionaries(ds, env).value;
    var keys := Keys(r.schema);
    InferredKeys(ds[0], env);
    assert keys == Keys(ds[0]);
    var t := r.data.rows.tuples[i];
    assert PyNormalize(|ds|, i) == i;
    assert FetchOne(r, i, env) == Some(Zip(keys, t));
    forall k
      ensures Get(Zip(keys, t), k) == if k in keys then Some(env.coerce(GetOr(ds[i], k))) else None
    {
      GetZip(keys, t, k);
    }
  }
}
