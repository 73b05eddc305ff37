/** The SQL reader's Relation: a header (an insertion-ordered dict from column
    names to profiles, as the internal relation's schema) and the data, an
    iterable of tuples whose positions follow the header's key order. */
module SqlRelation {
  import opened Wrappers
  import opened Values
  import opened SeqUtil
  import InternalRelation
  import DictSets

  type Header = InternalRelation.Schema

  type Tuple = seq<Value>

  /** `self.data`: its tuples, and whether they are held in a list (as opposed
      to a `filter` object or a generator over them). */
  datatype Data = Data(tuples: seq<Tuple>, listed: bool)

  datatype Relation = Relation(header: Header, data: Data)

  function HeaderKeys(h: Header): (ks: seq<string>)
    ensures |ks| == |h|
    ensures forall i :: 0 <= i < |h| ==> ks[i] == h[i].0
  {
    Keys(h)
  }

  /** `apply_selection(predicate)`: `filter(predicate, self.data)` under a
      header that keeps every column, in order, with its "type" alone. A
      column whose profile is None fails on `.get`. */
  function ApplySelection(r: Relation, keep: Tuple -> bool): (s: Result<Relation>)
    ensures s.Ok? <==> forall i :: 0 <= i < |r.header| ==> r.header[i].1.Some?
    ensures s.Err? ==> s.error == AttributeError
    ensures s.Ok? ==> HeaderKeys(s.value.header) == HeaderKeys(r.header)
    ensures s.Ok? ==> forall i :: 0 <= i < |r.header| ==>
      s.value.header[i].1 == Some(InternalRelation.Profile(r.header[i].1.value.domain, []))
    ensures s.Ok? ==> !s.value.data.listed
    ensures s.Ok? ==> var ts, idx := r.data.tuples, FilterIndices(r.data.tuples, keep);
      && s.value.data.tuples == Pick(ts, idx)
      && forall i :: 0 <= i < |ts| ==> (i in idx <==> keep(ts[i]))
  {
    if forall i :: 0 <= i < |r.header| ==> r.header[i].1.Some? then
      var header := seq(|r.header|, i requires 0 <= i < |r.header| =>
        (r.header[i].0, Some(InternalRelation.Profile(r.header[i].1.value.domain, []))));
      Ok(Relation(header, Data(Filter(r.data.tuples, keep), false)))
    else Err(AttributeError)
  }

  /** Selecting twice is selecting once by both predicates. */
  lemma SelectionsCompose(r: Relation, p: Tuple -> bool, q: Tuple -> bool)
    requires ApplySelection(r, p).Ok?
    ensures ApplySelection(ApplySelection(r, p).value, q).Ok?
    ensures ApplySelection(ApplySelection(r, p).value, q).value.data.tuples == ApplySelection(r, Both(p, q)).value.data.tuples
  {
    FilterFilter(r.data.tuples, p, q);
  }

  /** `apply_projection(attributes)`: the header keeps the requested columns it
      knows, in header order, and each tuple the components at their positions
      (a tuple too short fails with IndexError). */
  function ApplyProjection(r: Relation, columns: Columns): (p: Result<Relation>)
    ensures var idx := InternalRelation.Positions(HeaderKeys(r.header), Requested(columns));
      && (p.Ok? <==> forall i :: 0 <= i < |r.data.tuples| ==> InternalRelation.Reaches(r.data.tuples[i], idx))
      && (p.Err? ==> p.error == IndexError)
      && (p.Ok? ==> HeaderKeys(p.value.header) == Pick(HeaderKeys(r.header), idx))
      && (p.Ok? ==> |p.value.data.tuples| == |r.data.tuples| && !p.value.data.listed)
      && (p.Ok? ==> forall i :: 0 <= i < |r.data.tuples| ==> p.value.data.tuples[i] == Pick(r.data.tuples[i], idx))
    ensures p.Ok? ==> forall k :: k in HeaderKeys(p.value.header) <==> k in HeaderKeys(r.header) && k in Requested(columns)
    ensures p.Ok? && InternalRelation.Keyed(r.header) ==> InternalRelation.Keyed(p.value.header)
    ensures p.Ok? && InternalRelation.Keyed(r.header) ==> forall k :: k in HeaderKeys(p.value.header) ==>
      InternalRelation.Lookup(p.value.header, k) == InternalRelation.Lookup(r.header, k)
  {
    var keys := HeaderKeys(r.header);
    var idx := InternalRelation.Positions(keys, Requested(columns));
    var cut :- InternalRelation.Cut(InternalRelation.Tuples(r.data.tuples), idx);
    var header := Pick(r.header, idx);
    InternalRelation.PickedKeys(r.header, Requested(columns));
    ProjectedHeader(r.header, idx);
    Ok(Relation(header, Data(cut, false)))
  }

  /** Picking header entries at ascending positions keeps a genuine dict
      genuine, and each picked column keeps its profile. */
  lemma ProjectedHeader(h: Header, idx: seq<nat>)
    requires Increasing(idx) && forall k :: 0 <= k < |idx| ==> idx[k] < |h|
    ensures var p := Pick(h, idx);
      InternalRelation.Keyed(h) ==> InternalRelation.Keyed(p) && forall k :: k in HeaderKeys(p) ==>
        InternalRelation.Lookup(p, k) == InternalRelation.Lookup(h, k)
  {
    var p := Pick(h, idx);
    if InternalRelation.Keyed(h) {
      assert HeaderKeys(p) == Pick(HeaderKeys(h), idx);
      InternalRelation.PickNoDup(HeaderKeys(h), idx);
      forall k | k in HeaderKeys(p)
        ensures InternalRelation.Lookup(p, k) == InternalRelation.Lookup(h, k)
      {
        var q :| 0 <= q < |p| && HeaderKeys(p)[q] == k;
        assert p[q] == h[idx[q]];
      }
    }
  }

  /** This projection is the internal relation's projection as evidently
      intended: the same header and the same tuples. */
  lemma ProjectionAgreesWithInternal(r: Relation, columns: Columns)
    ensures var ir := InternalRelation.Relation(r.header, InternalRelation.Data(InternalRelation.Tuples(r.data.tuples), r.data.listed));
      var p, q := ApplyProjection(r, columns), InternalRelation.ApplyProjectionCorrected(ir, columns);
      && (p.Ok? <==> q.Ok?)
      && (p.Ok? ==> p.value.header == q.value.schema && q.value.data.rows == InternalRelation.Tuples(p.value.data.tuples))
  {
  }

  /** With every tuple as wide as a genuine-dict header, each record of the
      projected relation holds exactly the requested columns, each with the
      value the unprojected record holds. */
  lemma ProjectedRecords(r: Relation, columns: Columns)
    requires InternalRelation.Keyed(r.header)
    requires forall i :: 0 <= i < |r.data.tuples| ==> |r.data.tuples[i]| == |r.header|
    ensures ApplyProjection(r, columns).Ok?
    ensures ToDictset(r).Ok? && ToDictset(ApplyProjection(r, columns).value).Ok?
    ensures var before := ToDictset(r).value.source.pending;
      var after := ToDictset(ApplyProjection(r, columns).value).value.source.pending;
      && |after| == |before|
      && forall i, k :: 0 <= i < |before| ==> Get(after[i], k) == if k in Requested(columns) then Get(before[i], k) else None
  {
    var keys := HeaderKeys(r.header);
    var names := Requested(columns);
    var idx := InternalRelation.Positions(keys, names);
    forall i | 0 <= i < |r.data.tuples|
      ensures InternalRelation.Reaches(r.data.tuples[i], idx)
    {
    }
    var p := ApplyProjection(r, columns).value;
    var before := ToDictset(r).value.source.pending;
    var after := ToDictset(p).value.source.pending;
    forall i, k | 0 <= i < |before|
      ensures Get(after[i], k) == if k in names then Get(before[i], k) else None
    {
      var t := r.data.tuples[i];
      assert before[i] == InternalRelation.Zip(keys, t);
      assert after[i] == InternalRelation.Zip(Pick(keys, idx), Pick(t, idx));
      InternalRelation.ProjectedGet(keys, t, names, k);
    }
  }

  /** `materialize()`: the data as a list, with the same tuples in the same order. */
  function Materialize(r: Relation): (m: Relation)
    ensures m.data.listed && m.data.tuples == r.data.tuples && m.header == r.header
  {
    Relation(r.header, Data(r.data.tuples, true))
  }

  lemma MaterializeIdempotent(r: Relation)
    ensures Materialize(Materialize(r)) == Materialize(r)
    ensures r.data.listed ==> Materialize(r) == r
  {
  }

  /** `to_dictset()`: a DictSet (NO_PERSISTANCE) over a generator of one dict per
      tuple, mapping the i-th header key to the tuple's i-th component. A tuple
      shorter than the header fails with IndexError. */
  function ToDictset(r: Relation): (d: Result<DictSets.DictSet>)
    ensures d.Ok? <==> forall i :: 0 <= i < |r.data.tuples| ==> |r.header| <= |r.data.tuples[i]|
    ensures d.Err? ==> d.error == IndexError
    ensures d.Ok? ==> d.value.storage == DictSets.NoPersistance && d.value.source.Generator?
    ensures d.Ok? ==> var rows := d.value.source.pending;
      && |rows| == |r.data.tuples|
      && forall i :: 0 <= i < |rows| ==> Keys(rows[i]) == HeaderKeys(r.header)
    ensures d.Ok? ==> var rows := d.value.source.pending;
      forall i, j :: 0 <= i < |rows| && 0 <= j < |r.header| ==> rows[i][j] == (r.header[j].0, r.data.tuples[i][j])
  {
    var ts := r.data.tuples;
    var keys := HeaderKeys(r.header);
    if forall i :: 0 <= i < |ts| ==> |r.header| <= |ts[i]| then
      Ok(DictSets.DictSet(DictSets.NoPersistance, DictSets.Generator(seq(|ts|, i requires 0 <= i < |ts| => InternalRelation.Zip(keys, ts[i])))))
    else Err(IndexError)
  }

  /** `from_dictset(dictset)` as written: it starts with `dictset.types()`, a
      method `DictSet` does not have, so it always fails. */
  function FromDictset(d: DictSets.DictSet): (r: Result<Relation>)
    ensures r.Err? && r.error == AttributeError
  {
    Err(AttributeError)
  }

  /** A tuple of `row.get(k)` for the header's keys, in order. */
  function Row(row: Record, keys: seq<string>): (t: Tuple)
    ensures |t| == |keys|
    ensures forall j :: 0 <= j < |keys| ==> t[j] == GetOr(row, keys[j])
  {
    seq(|keys|, j requires 0 <= j < |keys| => GetOr(row, keys[j]))
  }

  /** `from_dictset` as evidently intended: the header from the records (by
      `types`, which `DictSet` lacks and which is therefore a parameter), and
      one tuple per record of the set, read with `row.get` in header order. */
  function FromDictsetCorrected(d: DictSets.DictSet, codec: DictSets.Codec, types: seq<Record> -> Header): (r: Result<Relation>)
    ensures r.Ok? <==> DictSets.Contents(d.source, codec).Ok?
    ensures r.Ok? ==> var rows := DictSets.Contents(d.source, codec).value;
      && r.value.header == types(rows)
      && r.value.data.listed
      && |r.value.data.tuples| == |rows|
      && (forall i :: 0 <= i < |rows| ==> |r.value.data.tuples[i]| == |r.value.header|)
      && forall i, j :: 0 <= i < |rows| && 0 <= j < |r.value.header| ==>
        r.value.data.tuples[i][j] == GetOr(rows[i], r.value.header[j].0)
  {
    var rows :- DictSets.Contents(d.source, codec);
    var header := types(rows);
    var keys := HeaderKeys(header);
    Ok(Relation(header, Data(seq(|rows|, i requires 0 <= i < |rows| => Row(rows[i], keys)), true)))
  }

  /** The as-written loader fails even on a listed set that the corrected one
      loads. */
  lemma FromDictsetFails(rows: seq<Record>, codec: DictSets.Codec, types: seq<Record> -> Header)
    ensures var d := DictSets.DictSet(DictSets.Memory, DictSets.Listed(rows));
      FromDictset(d) == Err(AttributeError) && FromDictsetCorrected(d, codec, types).Ok?
  {
  }

  /** Loading a set and converting it back: each record comes back with
      exactly the header's keys, a key the record lacked holding None. */
  lemma ToDictsetAfterFromDictset(d: DictSets.DictSet, codec: DictSets.Codec, types: seq<Record> -> Header)
    requires DictSets.Contents(d.source, codec).Ok?
    requires InternalRelation.Keyed(types(DictSets.Contents(d.source, codec).value))
    ensures FromDictsetCorrected(d, codec, types).Ok?
    ensures ToDictset(FromDictsetCorrected(d, codec, types).value).Ok?
    ensures var rows := DictSets.Contents(d.source, codec).value;
      var back := ToDictset(FromDictsetCorrected(d, codec, types).value).value.source.pending;
      var keys := HeaderKeys(types(rows));
      && |back| == |rows|
      && forall i, k :: 0 <= i < |rows| ==> Get(back[i], k) == if k in keys then Some(GetOr(rows[i], k)) else None
  {
    var rows := DictSets.Contents(d.source, codec).value;
    var r := FromDictsetCorrected(d, codec, types).value;
    var keys := HeaderKeys(r.header);
    var back := ToDictset(r).value.source.pending;
    forall i, k | 0 <= i < |rows|
      ensures Get(back[i], k) == if k in keys then Some(GetOr(rows[i], k)) else None
    {
      var t := r.data.tuples[i];
      assert back[i] == InternalRelation.Zip(keys, t);
      InternalRelation.GetZip(keys, t, k);
    }
  }

  /** Converting a relation to dicts and reading each dict back in header
      order returns the tuples, when every tuple is as wide as the header. */
  lemma RowsAfterToDictset(r: Relation)
    requires InternalRelation.Keyed(r.header)
    requires forall i :: 0 <= i < |r.data.tuples| ==> |r.data.tuples[i]| == |r.header|
    ensures ToDictset(r).Ok?
    ensures var back := ToDictset(r).value.source.pending;
      forall i :: 0 <= i < |back| ==> Row(back[i], HeaderKeys(r.header)) == r.data.tuples[i]
  {
    var keys := HeaderKeys(r.header);
    var back := ToDictset(r).value.source.pending;
    forall i | 0 <= i < |back|
      ensures Row(back[i], keys) == r.data.tuples[i]
    {
      var t := r.data.tuples[i];
      assert back[i] == InternalRelation.Zip(keys, t);
      forall j | 0 <= j < |keys|
        ensures GetOr(back[i], keys[j]) == t[j]
      {
        InternalRelation.GetZip(keys, t, keys[j]);
      }
    }
  }
}
