/** `DictSet`: a stream of dictionary records tagged with a storage class that
    decides how the records are held — as the caller's single-pass iterable
    (NO_PERSISTANCE), as a list in memory (MEMORY) or in a spill file (DISK). */
module DictSets {
  import opened Wrappers
  import opened Values
  import opened SeqUtil
  import Aggregates
  import DiskIterator
  import GroupIndex

  type byte = DiskIterator.byte

  /** `STORAGE_CLASS` */
  datatype StorageClass = NoPersistance | Memory | Disk

  /** `orjson.dumps` and `orjson.loads` on records. */
  datatype Codec = Codec(dumps: Record -> seq<byte>, loads: seq<byte> -> Record)

  /** What `self._iterator` holds: a generator with the records it has still to
      produce, a list, or the spill store of a `DiskIterator`. */
  datatype Source =
    | Generator(pending: seq<Record>)
    | Listed(items: seq<Record>)
    | Spilled(store: DiskIterator.Store)

  datatype DictSet = DictSet(storage: StorageClass, source: Source)

  /** The outcome of an operation and the set as the operation leaves it (a
      generator source is used up by whatever the operation pulled from it). */
  datatype Run<T> = Run(result: Result<T>, after: DictSet)

  /** What one full pass of `for x in self._iterator` yields. Mapping an empty
      spill file fails, so a spill of no records cannot be read back. */
  function Contents(src: Source, codec: Codec): Result<seq<Record>> {
    match src
    case Generator(p) => Ok(p)
    case Listed(xs) => Ok(xs)
    case Spilled(store) => DiskIterator.Scan(store.file, codec.loads)
  }

  /** The source after `n` records have been pulled from it. Only a generator is
      used up; a list and a spill file are read afresh by every pass. */
  function Pull(src: Source, n: nat): (s: Source)
    ensures src.Generator? ==> s.Generator? && s.pending == src.pending[if n <= |src.pending| then n else |src.pending|..]
    ensures !src.Generator? ==> s == src
  {
    match src
    case Generator(p) => Generator(p[if n <= |p| then n else |p|..])
    case _ => src
  }

  /** The source after a full pass. */
  function Exhaust(src: Source): Source {
    match src
    case Generator(p) => Pull(src, |p|)
    case _ => src
  }

  /** A second full pass over a generator yields nothing; over a list or a
      spill file it yields the same records as the first. */
  lemma SecondPass(src: Source, codec: Codec)
    ensures Contents(Exhaust(src), codec) == if src.Generator? then Ok([]) else Contents(src, codec)
  {
  }

  /** The spill store `DiskIterator(rows)` leaves (see `DiskIterator.Write`). */
  function Spill(rows: seq<Record>, codec: Codec): DiskIterator.Store {
    DiskIterator.Store(DiskIterator.Encode(codec.dumps, rows), |rows| - 1)
  }

  /** `DictSet(iterator, storage_class=storage)`: MEMORY lists the iterable, DISK
      spills it, NO_PERSISTANCE keeps it as it is. */
  function Create(src: Source, storage: StorageClass, codec: Codec): (r: Result<DictSet>)
    ensures r.Ok? ==> r.value.storage == storage
    ensures storage == NoPersistance ==> r == Ok(DictSet(NoPersistance, src))
    ensures storage != NoPersistance ==> (r.Ok? <==> Contents(src, codec).Ok?)
  {
    match storage
    case NoPersistance => Ok(DictSet(NoPersistance, src))
    case Memory =>
      var rows :- Contents(src, codec);
      Ok(DictSet(Memory, Listed(rows)))
    case Disk =>
      var rows :- Contents(src, codec);
      Ok(DictSet(Disk, Spilled(Spill(rows, codec))))
  }

  /** Whatever the storage class, the new set holds exactly the records of its
      iterable — except that a spill of no records cannot be read back. */
  lemma CreateKeepsRecords(src: Source, storage: StorageClass, codec: Codec)
    requires DiskIterator.RoundTrips(codec.dumps, codec.loads)
    requires Contents(src, codec).Ok?
    ensures Create(src, storage, codec).Ok?
    ensures var rows := Contents(src, codec).value;
      Contents(Create(src, storage, codec).value.source, codec) ==
        if storage == Disk && |rows| == 0 then Err(ValueError) else Ok(rows)
  {
    if storage == Disk {
      DiskIterator.ScanRoundTrip(codec.dumps, codec.loads, Contents(src, codec).value);
    }
  }

  /** `persist(storage_class)` as written. The MEMORY branch evaluates
      `self._iterator == list(self._iterator)`, which drains a generator and
      discards the list, and the DISK branch calls a method `DictSet` does not
      have. */
  function Persist(d: DictSet, target: StorageClass, codec: Codec): (r: Run<bool>)
    ensures target == NoPersistance ==> r == Run(Err(InvalidArgument), d)
    ensures r.result == Ok(false) <==> target != NoPersistance && d.storage == target
    ensures r.result == Ok(false) ==> r.after == d
    ensures r.result == Ok(true) ==> r.after.storage == target == Memory
    ensures r.result == Ok(true) ==>
      Contents(r.after.source, codec) == if d.source.Generator? then Ok([]) else Contents(d.source, codec)
    ensures target == Disk && d.storage != Disk ==> r == Run(Err(AttributeError), d)
  {
    if target == NoPersistance then Run(Err(InvalidArgument), d)
    else if d.storage == target then Run(Ok(false), d)
    else if target == Memory then
      match Contents(d.source, codec)
      case Err(e) => Run(Err(e), d)
      case Ok(_) => Run(Ok(true), DictSet(Memory, Exhaust(d.source)))
    else Run(Err(AttributeError), d)
  }

  /** Persisting a one-record generator to memory reports success and leaves a
      set with no records. */
  lemma PersistLosesRecords(row: Record, codec: Codec)
    ensures var d := DictSet(NoPersistance, Generator([row]));
      && Persist(d, Memory, codec) == Run(Ok(true), DictSet(Memory, Generator([])))
      && Contents(d.source, codec) == Ok([row])
      && Contents(Persist(d, Memory, codec).after.source, codec) == Ok([])
  {
  }

  /** `persist` as evidently intended: the source is replaced by its list, or by
      its spill. */
  function PersistCorrected(d: DictSet, target: StorageClass, codec: Codec): (r: Run<bool>)
    ensures target == NoPersistance ==> r == Run(Err(InvalidArgument), d)
    ensures r.result == Ok(false) <==> target != NoPersistance && d.storage == target
    ensures r.result == Ok(false) ==> r.after == d
  {
    if target == NoPersistance then Run(Err(InvalidArgument), d)
    else if d.storage == target then Run(Ok(false), d)
    else
      match Create(d.source, target, codec)
      case Err(e) => Run(Err(e), d)
      case Ok(persisted) => Run(Ok(true), persisted)
  }

  /** The corrected `persist` changes the storage class and keeps every record. */
  lemma PersistCorrectedKeepsRecords(d: DictSet, target: StorageClass, codec: Codec)
    requires DiskIterator.RoundTrips(codec.dumps, codec.loads)
    requires target != NoPersistance && d.storage != target
    requires Contents(d.source, codec).Ok?
    requires target == Disk ==> |Contents(d.source, codec).value| > 0
    ensures PersistCorrected(d, target, codec).result == Ok(true)
    ensures PersistCorrected(d, target, codec).after.storage == target
    ensures Contents(PersistCorrected(d, target, codec).after.source, codec) == Contents(d.source, codec)
  {
    CreateKeepsRecords(d.source, target, codec);
  }

  /** `count()`: the `__length__` probe never succeeds, so MEMORY and DISK sets
      are counted by a full pass and a NO_PERSISTANCE set reports -1 unread. */
  function Count(d: DictSet, codec: Codec): (r: Run<int>)
    ensures d.storage == NoPersistance ==> r == Run(Ok(-1), d)
    ensures d.storage != NoPersistance ==>
      r.result == (if Contents(d.source, codec).Ok? then Ok(|Contents(d.source, codec).value|) else Err(Contents(d.source, codec).error))
    ensures r.after.storage == d.storage
  {
    if d.storage == NoPersistance then Run(Ok(-1), d)
    else
      match Contents(d.source, codec)
      case Err(e) => Run(Err(e), d)
      case Ok(rows) => Run(Ok(|rows|), DictSet(d.storage, Exhaust(d.source)))
  }

  /** On a set spilled from `rows`, `count()` is the number of records written:
      one more than the spill's `__len__`, and equal to the corrected length. */
  lemma CountOfSpill(rows: seq<Record>, codec: Codec)
    requires DiskIterator.RoundTrips(codec.dumps, codec.loads)
    requires |rows| > 0
    ensures var store := Spill(rows, codec);
      && Count(DictSet(Disk, Spilled(store)), codec).result == Ok(|rows|)
      && Count(DictSet(Disk, Spilled(store)), codec).result == Ok(DiskIterator.CorrectedLen(store))
      && DiskIterator.Len(store) == |rows| - 1
  {
    DiskIterator.ScanRoundTrip(codec.dumps, codec.loads, rows);
  }

  /** A set made over a generator holds that generator's records, with the one
      exception of a spill of no records. */
  lemma CreateOverGenerator(rows: seq<Record>, storage: StorageClass, codec: Codec)
    ensures Create(Generator(rows), storage, codec).Ok?
    ensures DiskIterator.RoundTrips(codec.dumps, codec.loads) ==>
      Contents(Create(Generator(rows), storage, codec).value.source, codec) ==
        if storage == Disk && |rows| == 0 then Err(ValueError) else Ok(rows)
  {
    if DiskIterator.RoundTrips(codec.dumps, codec.loads) {
      CreateKeepsRecords(Generator(rows), storage, codec);
    }
  }

  /** How many records `itake(items)` yields out of `n`: all of them when `items`
      is negative. */
  function TakeCount(n: nat, items: int): nat {
    if 0 <= items < n then items else n
  }

  /** `itake(items)` run to completion. `enumerate` stops at the record whose
      index equals `items`: that record has already been pulled from the source
      and is dropped. Returns the records yielded and the source afterwards. */
  method ITake(src: Source, items: int, codec: Codec) returns (taken: Result<seq<Record>>, after: Source)
    ensures taken.Ok? <==> Contents(src, codec).Ok?
    ensures taken.Ok? ==> var rows := Contents(src, codec).value;
      taken.value == rows[..TakeCount(|rows|, items)]
    ensures src.Generator? ==>
      after == Pull(src, if 0 <= items < |src.pending| then items + 1 else |src.pending|)
    ensures !src.Generator? ==> after == src
  {
    var all := Contents(src, codec);
    if all.Err? {
      return Err(all.error), src;
    }
    var rows := all.value;
    var out: seq<Record> := [];
    var count := 0;
    while count < |rows|
      invariant count <= |rows|
      invariant out == rows[..count]
      invariant items < 0 || count <= items
    {
      if count == items {
        return Ok(out), Pull(src, count + 1);
      }
      out := out + [rows[count]];
      count := count + 1;
    }
    return Ok(out), Pull(src, count);
  }

  /** `take(items)`: a set of the same storage class over `itake(items)`. The
      parent's generator is advanced at the call. */
  method Take(d: DictSet, items: int, codec: Codec) returns (r: Run<DictSet>)
    ensures r.result.Ok? <==> Contents(d.source, codec).Ok?
    ensures r.result.Ok? ==> r.result.value.storage == d.storage
    ensures r.result.Ok? && DiskIterator.RoundTrips(codec.dumps, codec.loads) ==>
      var rows := Contents(d.source, codec).value;
      var n := TakeCount(|rows|, items);
      Contents(r.result.value.source, codec) == if d.storage == Disk && n == 0 then Err(ValueError) else Ok(rows[..n])
    ensures r.after.storage == d.storage
  {
    var taken, after := ITake(d.source, items, codec);
    if taken.Err? {
      return Run(Err(taken.error), d);
    }
    CreateOverGenerator(taken.value, d.storage, codec);
    var child := Create(Generator(taken.value), d.storage, codec);
    return Run(Ok(child.value), DictSet(d.storage, after));
  }

  /** `reduce(lambda x, y: x + [a for a in y.keys() if a not in x], rows, [])` */
  function KeysOf(rows: seq<Record>): seq<string>
    decreases |rows|
  {
    if |rows| == 0 then []
    else
      var acc := KeysOf(rows[..|rows| - 1]);
      acc + Filter(Keys(rows[|rows| - 1]), (a: string) => a !in acc)
  }

  /** `keys` lists exactly the keys some record has ... */
  lemma {:induction false} KeysOfMembers(rows: seq<Record>, k: string)
    ensures k in KeysOf(rows) <==> exists i :: 0 <= i < |rows| && k in Keys(rows[i])
    decreases |rows|
  {
    if |rows| > 0 {
      var n := |rows| - 1;
      KeysOfMembers(rows[..n], k);
      if exists i :: 0 <= i < |rows| && k in Keys(rows[i]) {
        var i :| 0 <= i < |rows| && k in Keys(rows[i]);
        if i < n {
          assert rows[..n][i] == rows[i];
        }
      }
      if exists i :: 0 <= i < n && k in Keys(rows[..n][i]) {
        var i :| 0 <= i < n && k in Keys(rows[..n][i]);
        assert rows[..n][i] == rows[i];
      }
    }
  }

  /** ... each once ... */
  lemma {:induction false} KeysOfNoDup(rows: seq<Record>)
    requires forall i :: 0 <= i < |rows| ==> WellFormed(rows[i])
    ensures NoDup(KeysOf(rows))
    decreases |rows|
  {
    if |rows| > 0 {
      var n := |rows| - 1;
      var acc := KeysOf(rows[..n]);
      KeysOfNoDup(rows[..n]);
      var p := (a: string) => a !in acc;
      FilterNoDup(Keys(rows[n]), p);
      NoDupAppend(acc, Filter(Keys(rows[n]), p));
    }
  }

  /** ... in order of first appearance: the keys of a prefix of the records are
      a prefix of the keys of all of them. */
  lemma {:induction false} KeysOfPrefix(rows: seq<Record>, i: nat)
    requires i <= |rows|
    ensures KeysOf(rows[..i]) <= KeysOf(rows)
    decreases |rows|
  {
    if i < |rows| {
      var n := |rows| - 1;
      KeysOfPrefix(rows[..n], i);
      assert rows[..n][..i] == rows[..i];
    } else {
      assert rows[..i] == rows;
    }
  }

  lemma KeysOfSpec(rows: seq<Record>)
    ensures forall k :: k in KeysOf(rows) <==> exists i :: 0 <= i < |rows| && k in Keys(rows[i])
    ensures (forall i :: 0 <= i < |rows| ==> WellFormed(rows[i])) ==> NoDup(KeysOf(rows))
  {
    forall k
      ensures k in KeysOf(rows) <==> exists i :: 0 <= i < |rows| && k in Keys(rows[i])
    {
      KeysOfMembers(rows, k);
    }
    if forall i :: 0 <= i < |rows| ==> WellFormed(rows[i]) {
      KeysOfNoDup(rows);
    }
  }

  /** `keys(number_of_rows)`: the keys of the first `number_of_rows` records when
      that is positive, of all records otherwise. */
  method ListKeys(d: DictSet, numberOfRows: int, codec: Codec) returns (r: Run<seq<string>>)
    ensures r.result.Ok? <==> Contents(d.source, codec).Ok?
    ensures r.result.Ok? ==>
      var rows := Contents(d.source, codec).value;
      var shown := rows[..if numberOfRows > 0 then TakeCount(|rows|, numberOfRows) else |rows|];
      && r.result.value == KeysOf(shown)
      && (forall k :: k in r.result.value <==> exists i :: 0 <= i < |shown| && k in Keys(shown[i]))
      && ((forall i :: 0 <= i < |shown| ==> WellFormed(shown[i])) ==> NoDup(r.result.value))
    ensures r.after.storage == d.storage
  {
    var rows: seq<Record>;
    var after: Source;
    if numberOfRows > 0 {
      var taken;
      taken, after := ITake(d.source, numberOfRows, codec);
      if taken.Err? {
        return Run(Err(taken.error), d);
      }
      rows := taken.value;
    } else {
      var all := Contents(d.source, codec);
      if all.Err? {
        return Run(Err(all.error), d);
      }
      rows := all.value;
      after := Exhaust(d.source);
      assert rows[..|rows|] == rows;
    }
    KeysOfSpec(rows);
    return Run(Ok(KeysOf(rows)), DictSet(d.storage, after));
  }

  /** `not key` for the optional column name. */
  predicate Falsy(key: Option<string>) {
    key.None? || key.value == ""
  }

  /** The position of the first record without `key`, or the number of records. */
  function FirstMissing(rows: seq<Record>, key: string): (k: nat)
    ensures k <= |rows|
    ensures forall i :: 0 <= i < k ==> key in Keys(rows[i])
    ensures k < |rows| ==> key !in Keys(rows[k])
    decreases |rows|
  {
    if |rows| == 0 then 0
    else
      var n := |rows| - 1;
      var k := FirstMissing(rows[..n], key);
      assert forall i :: 0 <= i < n ==> rows[..n][i] == rows[i];
      if k < n then k else if key in Keys(rows[n]) then |rows| else n
  }

  /** Each record's value under `key`, None where it has none. */
  function Column(rows: seq<Record>, key: string): (c: seq<Value>)
    ensures |c| == |rows|
    ensures forall i :: 0 <= i < |rows| ==> c[i] == GetOr(rows[i], key)
  {
    Image(rows, (x: Record) => GetOr(x, key))
  }

  /** `collect(key)`: the records themselves when `key` is falsy; otherwise each
      record's value under `key`, or KeyError from `itemgetter` at the first
      record without it — after the generator has produced that record. */
  function Collect(d: DictSet, key: Option<string>, codec: Codec): (r: Run<seq<Value>>)
    ensures r.result.Ok? ==> Contents(d.source, codec).Ok?
    ensures Contents(d.source, codec).Ok? ==>
      var rows := Contents(d.source, codec).value;
      && (Falsy(key) ==> r.result == Ok(Image(rows, (x: Record) => Dict(x))))
      && (!Falsy(key) ==> (r.result.Ok? <==> forall i :: 0 <= i < |rows| ==> key.value in Keys(rows[i])))
      && (!Falsy(key) && r.result.Ok? ==>
            |r.result.value| == |rows| && forall i :: 0 <= i < |rows| ==> Get(rows[i], key.value) == Some(r.result.value[i]))
      && (!Falsy(key) && r.result.Err? ==>
            r.result.error == KeyError && r.after.source == Pull(d.source, FirstMissing(rows, key.value) + 1))
    ensures r.after.storage == d.storage
  {
    match Contents(d.source, codec)
    case Err(e) => Run(Err(e), d)
    case Ok(rows) =>
      if Falsy(key) then Run(Ok(Image(rows, (x: Record) => Dict(x))), DictSet(d.storage, Exhaust(d.source)))
      else
        var k := FirstMissing(rows, key.value);
        if k < |rows| then Run(Err(KeyError), DictSet(d.storage, Pull(d.source, k + 1)))
        else Run(Ok(Column(rows, key.value)), DictSet(d.storage, Exhaust(d.source)))
  }

  /** `sum(key)`: succeeds exactly when every record holds a number under the
      key, and then is the total of that column. */
  function Sum(d: DictSet, key: Option<string>, codec: Codec): (r: Run<int>)
    ensures !Falsy(key) && Contents(d.source, codec).Ok? ==>
      var rows := Contents(d.source, codec).value;
      r.result.Ok? <==> forall i :: 0 <= i < |rows| ==> key.value in Keys(rows[i]) && Aggregates.IsNumeric(GetOr(rows[i], key.value))
    ensures !Falsy(key) && Contents(d.source, codec).Ok? && r.result.Ok? ==>
      var column := Column(Contents(d.source, codec).value, key.value);
      Aggregates.AllNumeric(column) && r.result.value == Aggregates.Total(column)
    ensures r.after.storage == d.storage
  {
    var c := Collect(d, key, codec);
    if c.result.Err? then Run(Err(c.result.error), c.after)
    else Run(Aggregates.Sum(c.result.value), c.after)
  }

  /** `max(key)`: a value some record holds under the key that no other value
      exceeds; TypeError for no records or for values `<` cannot compare. */
  function Max(d: DictSet, key: Option<string>, codec: Codec): (r: Run<Value>)
    ensures r.result.Ok? ==> Contents(d.source, codec).Ok? && |Contents(d.source, codec).value| > 0
    ensures r.result.Ok? && !Falsy(key) ==>
      var rows := Contents(d.source, codec).value;
      && (exists i :: 0 <= i < |rows| && Get(rows[i], key.value) == Some(r.result.value))
      && (|rows| > 1 ==> forall i :: 0 <= i < |rows| ==>
            Aggregates.Comparable(r.result.value, GetOr(rows[i], key.value)) && !Aggregates.Below(r.result.value, GetOr(rows[i], key.value)))
    ensures Contents(d.source, codec) == Ok([]) ==> r.result == Err(TypeError)
    ensures Contents(d.source, codec).Ok? && Falsy(key) ==>
      (r.result.Ok? <==> |Contents(d.source, codec).value| == 1)
    ensures !Falsy(key) && Contents(d.source, codec).Ok? ==>
      var rows := Contents(d.source, codec).value;
      var column := Column(rows, key.value);
      if exists i :: 0 <= i < |rows| && key.value !in Keys(rows[i]) then r.result == Err(KeyError)
      else
        && r.result == Aggregates.Max(column)
        && (r.result.Ok? <==> |rows| == 1 || (|rows| > 1 && (Aggregates.AllNumeric(column) || Aggregates.AllStr(column))))
    ensures r.after.storage == d.storage
  {
    var c := Collect(d, key, codec);
    if c.result.Err? then Run(Err(c.result.error), c.after)
    else
      var m := Aggregates.Max(c.result.value);
      Run(m, c.after)
  }

  /** `min(key)`: a value some record holds under the key that no other value
      undercuts; TypeError for no records or for values `<` cannot compare. */
  function Min(d: DictSet, key: Option<string>, codec: Codec): (r: Run<Value>)
    ensures r.result.Ok? ==> Contents(d.source, codec).Ok? && |Contents(d.source, codec).value| > 0
    ensures r.result.Ok? && !Falsy(key) ==>
      var rows := Contents(d.source, codec).value;
      && (exists i :: 0 <= i < |rows| && Get(rows[i], key.value) == Some(r.result.value))
      && (|rows| > 1 ==> forall i :: 0 <= i < |rows| ==>
            Aggregates.Comparable(GetOr(rows[i], key.value), r.result.value) && !Aggregates.Below(GetOr(rows[i], key.value), r.result.value))
    ensures Contents(d.source, codec) == Ok([]) ==> r.result == Err(TypeError)
    ensures Contents(d.source, codec).Ok? && Falsy(key) ==>
      (r.result.Ok? <==> |Contents(d.source, codec).value| == 1)
    ensures !Falsy(key) && Contents(d.source, codec).Ok? ==>
      var rows := Contents(d.source, codec).value;
      var column := Column(rows, key.value);
      if exists i :: 0 <= i < |rows| && key.value !in Keys(rows[i]) then r.result == Err(KeyError)
      else
        && r.result == Aggregates.Min(column)
        && (r.result.Ok? <==> |rows| == 1 || (|rows| > 1 && (Aggregates.AllNumeric(column) || Aggregates.AllStr(column))))
    ensures r.after.storage == d.storage
  {
    var c := Collect(d, key, codec);
    if c.result.Err? then Run(Err(c.result.error), c.after)
    else
      var m := Aggregates.Min(c.result.value);
      Run(m, c.after)
  }

  /** `first()`: `next(iter(self._iterator), None)`. */
  function First(d: DictSet, codec: Codec): (r: Run<Option<Record>>)
    ensures r.result.Ok? <==> Contents(d.source, codec).Ok?
    ensures r.result.Ok? ==>
      var rows := Contents(d.source, codec).value;
      && r.result.value == (if |rows| == 0 then None else Some(rows[0]))
      && Contents(r.after.source, codec) == Ok(if d.source.Generator? && |rows| > 0 then rows[1..] else rows)
    ensures r.after.storage == d.storage
  {
    match Contents(d.source, codec)
    case Err(e) => Run(Err(e), d)
    case Ok(rows) =>
      if |rows| == 0 then Run(Ok(None), d)
      else Run(Ok(Some(rows[0])), DictSet(d.storage, Pull(d.source, 1)))
  }

  /** `[xs[i] for i in locations]` on a list, with Python's negative indices. */
  function Index(xs: seq<Record>, locations: seq<int>): (r: Result<seq<Record>>)
    ensures r.Ok? <==> forall k :: 0 <= k < |locations| ==> PyIndexOk(|xs|, locations[k])
    ensures r.Err? ==> r.error == IndexError
    ensures r.Ok? ==> |r.value| == |locations|
    ensures r.Ok? ==> forall k :: 0 <= k < |locations| ==> r.value[k] == xs[PyNormalize(|xs|, locations[k])]
  {
    if forall k :: 0 <= k < |locations| ==> PyIndexOk(|xs|, locations[k]) then
      Ok(seq(|locations|, k requires 0 <= k < |locations| => xs[PyNormalize(|xs|, locations[k])]))
    else Err(IndexError)
  }

  /** `item(index)`: `self._iterator[index]`, which only a list supports. */
  function Item(d: DictSet, index: int): (r: Result<Record>)
    ensures !d.source.Listed? ==> r == Err(TypeError)
    ensures d.source.Listed? ==> (r.Ok? <==> PyIndexOk(|d.source.items|, index))
    ensures r.Ok? && 0 <= index ==> r.value == d.source.items[index]
    ensures r.Ok? && index < 0 ==> r.value == d.source.items[|d.source.items| + index]
  {
    match d.source
    case Listed(xs) =>
      var got :- Index(xs, [index]);
      Ok(got[0])
    case _ => Err(TypeError)
  }

  /** `{k: record.get(k, None) for k in columns}`: one entry per requested name,
      holding the record's value or None. */
  function Project(r: Record, names: seq<string>): (p: Record)
    ensures WellFormed(p)
    ensures forall k :: k in Keys(p) <==> k in names
    ensures forall k :: k in names ==> Get(p, k) == Some(GetOr(r, k))
  {
    var ks := UniqueInOrder(names);
    var p := Image(ks, (k: string) => (k, GetOr(r, k)));
    assert Keys(p) == ks;
    p
  }

  /** Selecting the same columns twice changes nothing more. */
  lemma ProjectIdempotent(r: Record, names: seq<string>)
    ensures Project(Project(r, names), names) == Project(r, names)
  {
    var p := Project(r, names);
    var ks := UniqueInOrder(names);
    forall i | 0 <= i < |ks|
      ensures Project(p, names)[i] == p[i]
    {
      assert ks[i] in names;
    }
  }

  /** `select(columns)`: a set of the same storage class whose records are the
      projections of this set's records. */
  function Select(d: DictSet, columns: Columns, codec: Codec): (r: Run<DictSet>)
    ensures r.result.Ok? <==> Contents(d.source, codec).Ok?
    ensures r.result.Ok? ==> r.result.value.storage == d.storage
    ensures r.result.Ok? && DiskIterator.RoundTrips(codec.dumps, codec.loads) ==>
      var rows := Contents(d.source, codec).value;
      Contents(r.result.value.source, codec) ==
        if d.storage == Disk && |rows| == 0 then Err(ValueError)
        else Ok(Image(rows, (x: Record) => Project(x, Requested(columns))))
    ensures r.after.storage == d.storage
  {
    match Contents(d.source, codec)
    case Err(e) => Run(Err(e), d)
    case Ok(rows) =>
      var projected := Image(rows, (x: Record) => Project(x, Requested(columns)));
      CreateOverGenerator(projected, d.storage, codec);
      Run(Ok(Create(Generator(projected), d.storage, codec).value), DictSet(d.storage, Exhaust(d.source)))
  }

  /** `filter(predicate)` as written: the storage class is passed positionally
      to a constructor that takes it by keyword only, so the call raises
      TypeError before anything is read. */
  function FilterRecords(d: DictSet, keep: Record -> bool): (r: Result<DictSet>)
    ensures r == Err(TypeError)
  {
    Err(TypeError)
  }

  /** `dnf_filter(dnf_filters)` as written fails the same way. */
  function DnfFilter(d: DictSet, matches: Record -> bool): (r: Result<DictSet>)
    ensures r == Err(TypeError)
  {
    FilterRecords(d, matches)
  }

  /** `filter` with the storage class passed by keyword: a set of the same
      storage class over the records the predicate accepts. */
  function FilterRecordsCorrected(d: DictSet, keep: Record -> bool, codec: Codec): (r: Run<DictSet>)
    ensures r.result.Ok? <==> Contents(d.source, codec).Ok?
    ensures r.result.Ok? ==> r.result.value.storage == d.storage
    ensures r.result.Ok? && DiskIterator.RoundTrips(codec.dumps, codec.loads) ==>
      var rows := Contents(d.source, codec).value;
      var kept := SeqUtil.Filter(rows, keep);
      && (forall x :: x in kept <==> x in rows && keep(x))
      && Contents(r.result.value.source, codec) == (if d.storage == Disk && |kept| == 0 then Err(ValueError) else Ok(kept))
  {
    match Contents(d.source, codec)
    case Err(e) => Run(Err(e), d)
    case Ok(rows) =>
      var kept := SeqUtil.Filter(rows, keep);
      CreateOverGenerator(kept, d.storage, codec);
      Run(Ok(Create(Generator(kept), d.storage, codec).value), DictSet(d.storage, Exhaust(d.source)))
  }

  /** The generator `do_dedupe` as written: a hash is registered only when it is
      already registered. Returns the items yielded and the registered hashes. */
  function DoDedupe<K>(xs: seq<Record>, h: Record -> K): (seq<Record>, set<K>)
    decreases |xs|
  {
    if |xs| == 0 then ([], {})
    else
      var prev := DoDedupe(xs[..|xs| - 1], h);
      var x := xs[|xs| - 1];
      if h(x) !in prev.1 then (prev.0 + [x], prev.1) else (prev.0, prev.1 + {h(x)})
  }

  /** The registry stays empty, so every item is yielded, duplicates included. */
  lemma {:induction false} DoDedupeKeepsAll<K>(xs: seq<Record>, h: Record -> K)
    ensures DoDedupe(xs, h).0 == xs
    ensures DoDedupe(xs, h).1 == {}
    decreases |xs|
  {
    if |xs| > 0 {
      var n := |xs| - 1;
      var prev := DoDedupe(xs[..n], h);
      DoDedupeKeepsAll(xs[..n], h);
      assert prev.0 == xs[..n] && prev.1 == {};
      assert h(xs[n]) !in prev.1;
      assert DoDedupe(xs, h).0 == prev.0 + [xs[n]];
      assert xs[..n] + [xs[n]] == xs;
    }
  }

  /** A record met twice survives the as-written generator twice and the
      corrected one once. */
  lemma DuplicateSurvives<K>(x: Record, h: Record -> K)
    ensures DoDedupe([x, x], h).0 == [x, x]
    ensures DedupeLoop([x, x], h).0 == [x]
  {
    DoDedupeKeepsAll([x, x], h);
    assert [x, x][..1] == [x];
    assert [x][..0] == [];
    assert DedupeLoop([x][..0], h) == ([], {});
    assert DedupeLoop([x], h).1 == {} + {h(x)};
    assert h(x) in DedupeLoop([x, x][..1], h).1;
  }

  /** `distinct()` as written: the constructor call fails as in `filter`. */
  function Distinct(d: DictSet): (r: Result<DictSet>)
    ensures r == Err(TypeError)
  {
    Err(TypeError)
  }

  /** `hash(orjson.dumps(item))`, with Python's `hash` on bytes given. */
  function RecordHash(codec: Codec, pyHash: seq<byte> -> int): Record -> int {
    (x: Record) => pyHash(codec.dumps(x))
  }

  /** `distinct` as evidently intended: the storage class passed by keyword and
      each new hash registered as its item is yielded. */
  function DistinctCorrected(d: DictSet, codec: Codec, pyHash: seq<byte> -> int): (r: Run<DictSet>)
    ensures r.result.Ok? <==> Contents(d.source, codec).Ok?
    ensures r.result.Ok? ==> r.result.value.storage == d.storage
    ensures r.result.Ok? && DiskIterator.RoundTrips(codec.dumps, codec.loads) ==>
      var rows := Contents(d.source, codec).value;
      var h := RecordHash(codec, pyHash);
      && Contents(r.result.value.source, codec) ==
           (if d.storage == Disk && |rows| == 0 then Err(ValueError) else Ok(FirstSeen(rows, h)))
      && NoDup(Image(FirstSeen(rows, h), h))
      && (forall i :: 0 <= i < |rows| ==> h(rows[i]) in Image(FirstSeen(rows, h), h))
  {
    match Contents(d.source, codec)
    case Err(e) => Run(Err(e), d)
    case Ok(rows) =>
      var h := RecordHash(codec, pyHash);
      var kept := DedupeLoop(rows, h).0;
      DedupeLoopIsFirstSeen(rows, h);
      FirstSeenSpec(rows, h);
      CreateOverGenerator(kept, d.storage, codec);
      Run(Ok(Create(Generator(kept), d.storage, codec).value), DictSet(d.storage, Exhaust(d.source)))
  }

  /** The position of the first record that does not unpack into two names
      (`for i, r in records` unpacks each dict into its keys), or the number of
      records. */
  function FirstUnpackFailure(rows: seq<Record>): (k: nat)
    ensures k <= |rows|
    ensures forall i :: 0 <= i < k ==> |rows[i]| == 2
    ensures k < |rows| ==> |rows[k]| != 2
    decreases |rows|
  {
    if |rows| == 0 then 0
    else
      var n := |rows| - 1;
      var k := FirstUnpackFailure(rows[..n]);
      assert forall i :: 0 <= i < n ==> rows[..n][i] == rows[i];
      if k < n then k else if |rows[n]| == 2 then |rows| else n
  }

  /** `get_items(*locations)` run to completion, as written.
      - MEMORY storage or a list: `[self._iterator[i] for i in locations]`, which
        fails with TypeError on anything but a list unless there is no location;
      - DISK storage: the spill's `_inner_reader(*locations)`;
      - NO_PERSISTANCE: `for i, r in self._iterator` unpacks each record into
        its two keys (ValueError for any other size) and compares a key with
        the integer locations, so nothing is ever yielded. */
  function GetItems(d: DictSet, locations: seq<int>, codec: Codec): (r: Run<seq<Record>>)
    ensures d.storage == Memory || d.source.Listed? ==> r.after == d
    ensures d.source.Listed? ==> r.result == Index(d.source.items, locations)
    ensures d.storage == Memory && !d.source.Listed? ==> r.result == if |locations| == 0 then Ok([]) else Err(TypeError)
    ensures d.storage == Disk && d.source.Spilled? && |locations| > 0 ==>
      r.result == DiskIterator.Positional(d.source.store.file, codec.loads, locations)
    ensures d.storage == NoPersistance && !d.source.Listed? && r.result.Ok? ==> r.result.value == []
    ensures r.after.storage == d.storage
  {
    if d.storage == Memory || d.source.Listed? then
      match d.source
      case Listed(xs) => Run(Index(xs, locations), d)
      case _ => Run(if |locations| == 0 then Ok([]) else Err(TypeError), d)
    else if d.storage == Disk then
      match d.source
      case Spilled(store) =>
        if |locations| == 0 then Run(DiskIterator.Scan(store.file, codec.loads), d)
        else Run(DiskIterator.Positional(store.file, codec.loads, locations), d)
      case _ => Run(Err(AttributeError), d)
    else
      match Contents(d.source, codec)
      case Err(e) => Run(Err(e), d)
      case Ok(rows) =>
        var k := FirstUnpackFailure(rows);
        if k < |rows| then Run(Err(ValueError), DictSet(d.storage, Pull(d.source, k + 1)))
        else Run(Ok([]), DictSet(d.storage, Exhaust(d.source)))
  }

  /** `get_items` with the NO_PERSISTANCE branch as evidently intended:
      `for i, r in enumerate(self._iterator)`, yielding the records at the
      requested positions in stream order, each once. */
  function GetItemsCorrected(d: DictSet, locations: seq<int>, codec: Codec): (r: Run<seq<Record>>)
    ensures d.storage == NoPersistance && !d.source.Listed? ==>
      (r.result.Ok? <==> Contents(d.source, codec).Ok?)
    ensures d.storage == NoPersistance && !d.source.Listed? && r.result.Ok? ==>
      var rows := Contents(d.source, codec).value;
      var js := DiskIterator.Selected(0, 0, |rows|, locations);
      && Increasing(js)
      && (forall j :: j in js <==> 0 <= j < |rows| && j in locations)
      && r.result.value == Pick(rows, js)
    ensures !(d.storage == NoPersistance && !d.source.Listed?) ==> r == GetItems(d, locations, codec)
  {
    if d.storage == NoPersistance && !d.source.Listed? then
      match Contents(d.source, codec)
      case Err(e) => Run(Err(e), d)
      case Ok(rows) =>
        var js := DiskIterator.Selected(0, 0, |rows|, locations);
        Run(Ok(Pick(rows, js)), DictSet(d.storage, Exhaust(d.source)))
    else GetItems(d, locations, codec)
  }

  /** Asking a NO_PERSISTANCE generator of one two-key record for position 0
      yields nothing as written, and the record once corrected. */
  lemma GetItemsMissesRequested(codec: Codec)
    ensures var rows := [[("a", Int(0)), ("b", Int(1))]];
      var d := DictSet(NoPersistance, Generator(rows));
      && GetItems(d, [0], codec).result == Ok([])
      && GetItemsCorrected(d, [0], codec).result == Ok(rows)
  {
    var rows := [[("a", Int(0)), ("b", Int(1))]];
    var d := DictSet(NoPersistance, Generator(rows));
    assert |rows[0]| == 2;
    assert FirstUnpackFailure(rows) == 1;
    assert GetItems(d, [0], codec).result == Ok([]);
    var js := DiskIterator.Selected(0, 0, 1, [0]);
    assert js == [0] by {
      assert DiskIterator.Selected(0, 0, 0, [0]) == [];
    }
    assert Pick(rows, js) == rows;
  }

  /** A group as `igroupby` yields it: the label and a MEMORY set of its records. */
  type Group = (Value, DictSet)

  /** Each group's positions fetched with `get_items` and listed into a MEMORY
      set; the first fetch that fails ends the iteration. */
  function FetchGroups(d: DictSet, gs: seq<(Value, seq<int>)>, codec: Codec): (r: Result<seq<Group>>)
    ensures r.Ok? <==> forall g :: 0 <= g < |gs| ==> GetItems(d, gs[g].1, codec).result.Ok?
    ensures r.Ok? ==> |r.value| == |gs|
    ensures r.Ok? ==> forall g :: 0 <= g < |gs| ==>
      r.value[g] == (gs[g].0, DictSet(Memory, Listed(GetItems(d, gs[g].1, codec).result.value)))
    decreases |gs|
  {
    if |gs| == 0 then Ok([])
    else
      var n := |gs| - 1;
      var prev := FetchGroups(d, gs[..n], codec);
      var items := GetItems(d, gs[n].1, codec).result;
      assert forall g :: 0 <= g < n ==> gs[..n][g] == gs[g];
      if prev.Err? then Err(prev.error)
      else if items.Err? then Err(items.error)
      else Ok(prev.value + [(gs[n].0, DictSet(Memory, Listed(items.value)))])
  }

  /** `igroupby(column)` run to completion, as written: one pass over the
      source builds the index, `GroupIndex.GroupsAsWritten` forms the runs, and
      each run's records are fetched from the source as that pass left it. */
  function IGroupBy(d: DictSet, column: string, toKey: Value -> int, codec: Codec): (r: Run<seq<Group>>)
    ensures r.result.Ok? ==> Contents(d.source, codec).Ok?
    ensures Contents(d.source, codec).Ok? ==>
      var rows := Contents(d.source, codec).value;
      && r.after == DictSet(d.storage, Exhaust(d.source))
      && (GroupIndex.GroupsAsWritten(rows, column, toKey).Err? ==> r.result == Err(GroupIndex.GroupsAsWritten(rows, column, toKey).error))
      && (GroupIndex.GroupsAsWritten(rows, column, toKey).Ok? ==>
            r.result == FetchGroups(r.after, GroupIndex.GroupsAsWritten(rows, column, toKey).value, codec))
  {
    match Contents(d.source, codec)
    case Err(e) => Run(Err(e), d)
    case Ok(rows) =>
      var read := DictSet(d.storage, Exhaust(d.source));
      match GroupIndex.GroupsAsWritten(rows, column, toKey)
      case Err(e) => Run(Err(e), read)
      case Ok(gs) => Run(FetchGroups(read, gs, codec), read)
  }

  /** The records at the given positions, in that order. */
  function At(rows: seq<Record>, ps: seq<int>): (r: seq<Record>)
    requires forall k :: 0 <= k < |ps| ==> 0 <= ps[k] < |rows|
    ensures |r| == |ps|
    ensures forall k :: 0 <= k < |ps| ==> r[k] == rows[ps[k]]
  {
    seq(|ps|, k requires 0 <= k < |ps| => rows[ps[k]])
  }

  lemma GroupPositionsValid(rows: seq<Record>, column: string, toKey: Value -> int)
    ensures var gs := GroupIndex.Groups(rows, column, toKey);
      forall g, k :: 0 <= g < |gs| && 0 <= k < |gs[g].1| ==> 0 <= gs[g].1[k] < |rows|
  {
    var gs := GroupIndex.Groups(rows, column, toKey);
    forall g, k | 0 <= g < |gs| && 0 <= k < |gs[g].1|
      ensures 0 <= gs[g].1[k] < |rows|
    {
      GroupIndex.GroupsMembers(rows, column, toKey, g, gs[g].1[k]);
    }
  }

  /** Over a list with no surrogate key 0 and at least one record holding the
      column, `igroupby` yields the groups of `GroupIndex.Groups`, each holding
      the records at its positions. */
  lemma IGroupByListed(d: DictSet, column: string, toKey: Value -> int, codec: Codec)
    requires d.source.Listed?
    requires var rows := d.source.items;
      forall i :: 0 <= i < |rows| && column in Keys(rows[i]) ==> toKey(GroupIndex.ColumnValue(rows[i], column)) != 0
    requires exists i :: 0 <= i < |d.source.items| && column in Keys(d.source.items[i])
    ensures var rows := d.source.items;
      var gs := GroupIndex.Groups(rows, column, toKey);
      && (forall g, k :: 0 <= g < |gs| && 0 <= k < |gs[g].1| ==> 0 <= gs[g].1[k] < |rows|)
      && IGroupBy(d, column, toKey, codec).result.Ok?
      && |IGroupBy(d, column, toKey, codec).result.value| == |gs|
      && forall g :: 0 <= g < |gs| ==>
           IGroupBy(d, column, toKey, codec).result.value[g] == (gs[g].0, DictSet(Memory, Listed(At(rows, gs[g].1))))
  {
    var rows := d.source.items;
    var gs := GroupIndex.Groups(rows, column, toKey);
    GroupIndex.GroupsAsWrittenAgrees(rows, column, toKey);
    assert GroupIndex.GroupsAsWritten(rows, column, toKey) == Ok(gs);
    GroupPositionsValid(rows, column, toKey);
    assert DictSet(d.storage, Exhaust(d.source)) == d;
    FetchFromList(d, gs, codec);
    assert IGroupBy(d, column, toKey, codec).result == FetchGroups(d, gs, codec);
  }

  lemma IndexAt(rows: seq<Record>, ps: seq<int>)
    requires forall k :: 0 <= k < |ps| ==> 0 <= ps[k] < |rows|
    ensures Index(rows, ps) == Ok(At(rows, ps))
  {
    assert forall k :: 0 <= k < |ps| ==> PyIndexOk(|rows|, ps[k]);
    var r := Index(rows, ps);
    forall k | 0 <= k < |ps|
      ensures r.value[k] == At(rows, ps)[k]
    {
      assert PyNormalize(|rows|, ps[k]) == ps[k];
    }
    assert r.value == At(rows, ps);
  }

  lemma FetchFromList(d: DictSet, gs: seq<(Value, seq<int>)>, codec: Codec)
    requires d.source.Listed?
    requires forall g, k :: 0 <= g < |gs| && 0 <= k < |gs[g].1| ==> 0 <= gs[g].1[k] < |d.source.items|
    ensures FetchGroups(d, gs, codec).Ok?
    ensures |FetchGroups(d, gs, codec).value| == |gs|
    ensures forall g :: 0 <= g < |gs| ==>
      FetchGroups(d, gs, codec).value[g] == (gs[g].0, DictSet(Memory, Listed(At(d.source.items, gs[g].1))))
  {
    forall g | 0 <= g < |gs|
      ensures GetItems(d, gs[g].1, codec).result == Ok(At(d.source.items, gs[g].1))
    {
      IndexAt(d.source.items, gs[g].1);
    }
  }

  /** Over a NO_PERSISTANCE generator the pass that builds the index uses the
      generator up, so every group comes out empty. */
  lemma IGroupByGeneratorEmpty(rows: seq<Record>, column: string, toKey: Value -> int, codec: Codec)
    requires GroupIndex.GroupsAsWritten(rows, column, toKey).Ok?
    ensures var r := IGroupBy(DictSet(NoPersistance, Generator(rows)), column, toKey, codec).result;
      var gs := GroupIndex.GroupsAsWritten(rows, column, toKey).value;
      && r.Ok? && |r.value| == |gs|
      && forall g :: 0 <= g < |gs| ==> r.value[g] == (gs[g].0, DictSet(Memory, Listed([])))
  {
    var read := DictSet(NoPersistance, Generator([]));
    assert Exhaust(Generator(rows)) == Generator([]);
    var gs := GroupIndex.GroupsAsWritten(rows, column, toKey).value;
    forall g | 0 <= g < |gs|
      ensures GetItems(read, gs[g].1, codec).result == Ok([])
    {
    }
  }

  /** `igroupby` as evidently intended: a group per distinct surrogate key
      (`GroupIndex.Groups`), each holding the records read at its positions. */
  function IGroupByCorrected(d: DictSet, column: string, toKey: Value -> int, codec: Codec): (r: Run<seq<Group>>)
    ensures r.result.Ok? <==> Contents(d.source, codec).Ok?
    ensures r.result.Ok? ==>
      var rows := Contents(d.source, codec).value;
      var gs := GroupIndex.Groups(rows, column, toKey);
      && (forall g, k :: 0 <= g < |gs| && 0 <= k < |gs[g].1| ==> 0 <= gs[g].1[k] < |rows|)
      && |r.result.value| == |gs|
      && forall g :: 0 <= g < |gs| ==> r.result.value[g] == (gs[g].0, DictSet(Memory, Listed(At(rows, gs[g].1))))
  {
    match Contents(d.source, codec)
    case Err(e) => Run(Err(e), d)
    case Ok(rows) =>
      var gs := GroupIndex.Groups(rows, column, toKey);
      GroupPositionsValid(rows, column, toKey);
      var groups := seq(|gs|, g requires 0 <= g < |gs| => (gs[g].0, DictSet(Memory, Listed(At(rows, gs[g].1)))));
      Run(Ok(groups), DictSet(d.storage, Exhaust(d.source)))
  }

  /** With no record holding the column, the source fails on `group_keys[None]`
      while the corrected grouping yields no group. */
  lemma IGroupByNoColumn(d: DictSet, column: string, toKey: Value -> int, codec: Codec)
    requires Contents(d.source, codec).Ok?
    requires var rows := Contents(d.source, codec).value;
      forall i :: 0 <= i < |rows| ==> column !in Keys(rows[i])
    ensures IGroupBy(d, column, toKey, codec).result == Err(KeyError)
    ensures IGroupByCorrected(d, column, toKey, codec).result == Ok([])
  {
    var rows := Contents(d.source, codec).value;
    GroupIndex.GroupsAsWrittenAgrees(rows, column, toKey);
    var es := GroupIndex.SortedIndex(rows, column, toKey);
    GroupIndex.IndexFacts(rows, column, toKey);
    GroupIndex.RunsPartition(es);
  }

  /** `cityhash.CityHash32(orjson.dumps(record))`, widened to the fold's width. */
  function RecordDigest(codec: Codec, city32: seq<byte> -> bv32): Record -> bv64 {
    (x: Record) => Widen(city32(codec.dumps(x)))
  }

  function Widen(h: bv32): bv64 {
    h as bv64
  }

  /** `reduce(lambda x, y: x ^ y, hashed, 703115)` over the records' digests. */
  function HashOf(rows: seq<Record>, codec: Codec, city32: seq<byte> -> bv32): bv64 {
    XorFold(HASH_SEED, Image(rows, RecordDigest(codec, city32)))
  }

  /** `__hash__()`: one full pass over the source. */
  function Hash(d: DictSet, codec: Codec, city32: seq<byte> -> bv32): (r: Run<bv64>)
    ensures r.result.Ok? <==> Contents(d.source, codec).Ok?
    ensures r.result.Ok? ==> r.result.value == HashOf(Contents(d.source, codec).value, codec, city32)
    ensures r.after.storage == d.storage
  {
    match Contents(d.source, codec)
    case Err(e) => Run(Err(e), d)
    case Ok(rows) => Run(Ok(HashOf(rows, codec, city32)), DictSet(d.storage, Exhaust(d.source)))
  }

  /** The hash does not depend on the order of the records. */
  lemma HashIgnoresOrder(a: seq<Record>, b: seq<Record>, codec: Codec, city32: seq<byte> -> bv32)
    requires multiset(a) == multiset(b)
    ensures HashOf(a, codec, city32) == HashOf(b, codec, city32)
  {
    var f := RecordDigest(codec, city32);
    ImagePermutation(a, b, f);
    XorFoldPermutation(HASH_SEED, Image(a, f), Image(b, f));
  }

  /** A record present twice more leaves the hash unchanged. */
  lemma HashCancelsPairs(rows: seq<Record>, x: Record, codec: Codec, city32: seq<byte> -> bv32)
    ensures HashOf(rows + [x, x], codec, city32) == HashOf(rows, codec, city32)
  {
    var f := RecordDigest(codec, city32);
    ImageAppend(rows, [x, x], f);
    assert Image([x, x], f) == [f(x), f(x)];
    XorFoldCancel(HASH_SEED, Image(rows, f), f(x));
  }
}
