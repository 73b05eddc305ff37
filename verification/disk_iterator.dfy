/** The spill store behind DISK persistence: one serialised record per
    newline-terminated line of a scratch file, written once through a buffer and
    read back by full or positional scans over a read-only mapping. */
module DiskIterator {
  import opened Wrappers
  import opened SeqUtil

  newtype byte = x: int | 0 <= x < 256

  const NEWLINE: byte := 10

  /** Bytes accumulated before the buffer is written out (16 MiB). */
  const BUFFER_SIZE: nat := 16 * 1024 * 1024

  /** The scratch file's contents and the `length` attribute left by the constructor. */
  datatype Store = Store(file: seq<byte>, length: int)

  /** `orjson.dumps(row) + b"\n"` */
  function Line<T>(serialize: T -> seq<byte>, row: T): seq<byte> {
    serialize(row) + [NEWLINE]
  }

  /** The bytes of a file holding `rows`, one line each, in order. */
  function Encode<T>(serialize: T -> seq<byte>, rows: seq<T>): seq<byte>
    decreases |rows|
  {
    if |rows| == 0 then [] else Line(serialize, rows[0]) + Encode(serialize, rows[1..])
  }

  lemma {:induction false} EncodeSnoc<T>(serialize: T -> seq<byte>, rows: seq<T>, row: T)
    ensures Encode(serialize, rows + [row]) == Encode(serialize, rows) + Line(serialize, row)
    decreases |rows|
  {
    if |rows| == 0 {
      assert Encode(serialize, [row]) == Line(serialize, row) + Encode(serialize, []);
    } else {
      assert (rows + [row])[1..] == rows[1..] + [row];
      EncodeSnoc(serialize, rows[1..], row);
    }
  }

  lemma EncodePrefix<T>(serialize: T -> seq<byte>, rows: seq<T>, i: nat)
    requires i < |rows|
    ensures Encode(serialize, rows[..i + 1]) == Encode(serialize, rows[..i]) + Line(serialize, rows[i])
  {
    EncodeSnoc(serialize, rows[..i], rows[i]);
    assert rows[..i + 1] == rows[..i] + [rows[i]];
  }

  /** The codec writes no raw newline and decodes each of its own lines back. */
  ghost predicate RoundTrips<T(!new)>(serialize: T -> seq<byte>, deserialize: seq<byte> -> T) {
    forall r :: NEWLINE !in serialize(r) && deserialize(Line(serialize, r)) == r
  }

  /** `DiskIterator.__init__`: drain `rows` into the file through a buffer that is
      written out whenever it exceeds BUFFER_SIZE, then once more if anything is
      left. Returns the store and the chunks passed to `f.write`, in order. */
  method Write<T>(rows: seq<T>, serialize: T -> seq<byte>) returns (store: Store, writes: seq<seq<byte>>)
    ensures store.file == Encode(serialize, rows)
    ensures Flatten(writes) == store.file
    ensures store.length == |rows| - 1
    ensures Len(store) == |rows| - 1 && CorrectedLen(store) == |rows|
    ensures |writes| > 0 ==> Oversized(writes[..|writes| - 1]) && |writes[|writes| - 1]| > 0
    ensures |writes| == 0 <==> |rows| == 0
  {
    var length := -1;
    var buffer: seq<byte> := [];
    var written: seq<byte> := [];
    writes := [];
    var i := 0;
    while i < |rows|
      invariant 0 <= i <= |rows|
      invariant length == i - 1
      invariant written == Flatten(writes)
      invariant written + buffer == Encode(serialize, rows[..i])
      invariant Oversized(writes)
      invariant i > 0 ==> |writes| > 0 || |buffer| > 0
      invariant i == 0 ==> |writes| == 0 && |buffer| == 0
    {
      length := i;
      EncodePrefix(serialize, rows, i);
      buffer := buffer + Line(serialize, rows[i]);
      if |buffer| > BUFFER_SIZE {
        FlattenSnoc(writes, buffer);
        OversizedSnoc(writes, buffer);
        writes, written := writes + [buffer], written + buffer;
        buffer := [];
      }
      i := i + 1;
    }
    assert rows[..i] == rows;
    ghost var old_writes := writes;
    if |buffer| > 0 {
      FlattenSnoc(writes, buffer);
      writes, written := writes + [buffer], written + buffer;
      assert writes[..|writes| - 1] == old_writes;
    } else if |writes| > 0 {
      OversizedPrefix(writes);
    }
    store := Store(written, length);
  }

  /** Every chunk is larger than the buffer threshold. */
  predicate Oversized(chunks: seq<seq<byte>>) {
    forall k :: 0 <= k < |chunks| ==> |chunks[k]| > BUFFER_SIZE
  }

  lemma OversizedSnoc(chunks: seq<seq<byte>>, c: seq<byte>)
    requires Oversized(chunks) && |c| > BUFFER_SIZE
    ensures Oversized(chunks + [c])
  {
  }

  lemma OversizedPrefix(chunks: seq<seq<byte>>)
    requires Oversized(chunks) && |chunks| > 0
    ensures Oversized(chunks[..|chunks| - 1]) && |chunks[|chunks| - 1]| > 0
  {
  }

  /** `DiskIterator.__len__` */
  function Len(store: Store): int {
    store.length
  }

  /** The count `__len__` evidently means to report: the number of records written. */
  function CorrectedLen(store: Store): int {
    store.length + 1
  }

  /** The corrected length agrees with the number of records a full scan returns. */
  lemma CorrectedLenCountsRecords<T(!new)>(serialize: T -> seq<byte>, deserialize: seq<byte> -> T, rows: seq<T>)
    requires RoundTrips(serialize, deserialize)
    requires |rows| > 0
    ensures var store := Store(Encode(serialize, rows), |rows| - 1);
            Scan(store.file, deserialize).Ok? && CorrectedLen(store) == |Scan(store.file, deserialize).value|
  {
    ScanRoundTrip(serialize, deserialize, rows);
  }

  /** End (exclusive) of the line `mmap.readline()` returns when the mapping's
      position is `pos`: just past the first newline, or the end of the file. */
  function LineEnd(file: seq<byte>, pos: nat): (e: nat)
    requires pos < |file|
    ensures pos < e <= |file|
    decreases |file| - pos
  {
    if file[pos] == NEWLINE || pos + 1 == |file| then pos + 1 else LineEnd(file, pos + 1)
  }

  /** A line ends at its first newline and nowhere earlier. */
  lemma {:induction false} LineEndIs(file: seq<byte>, pos: nat, e: nat)
    requires pos < e <= |file|
    requires file[e - 1] == NEWLINE
    requires forall i :: pos <= i < e - 1 ==> file[i] != NEWLINE
    ensures LineEnd(file, pos) == e
    decreases e - pos
  {
    if pos + 1 < e {
      LineEndIs(file, pos + 1, e);
    }
  }

  /** The successive results of `mmap.readline()` from `pos` until it returns `b""`. */
  function LinesFrom(file: seq<byte>, pos: nat): seq<seq<byte>>
    requires pos <= |file|
    decreases |file| - pos
  {
    if pos == |file| then [] else [file[pos..LineEnd(file, pos)]] + LinesFrom(file, LineEnd(file, pos))
  }

  function Lines(file: seq<byte>): seq<seq<byte>> {
    LinesFrom(file, 0)
  }

  lemma {:induction false} LinesOfEncodeFrom<T(!new)>(serialize: T -> seq<byte>, prefix: seq<byte>, rows: seq<T>)
    requires forall r :: NEWLINE !in serialize(r)
    ensures |LinesFrom(prefix + Encode(serialize, rows), |prefix|)| == |rows|
    ensures forall i :: 0 <= i < |rows| ==>
      LinesFrom(prefix + Encode(serialize, rows), |prefix|)[i] == Line(serialize, rows[i])
    decreases |rows|
  {
    var file := prefix + Encode(serialize, rows);
    if |rows| == 0 {
      assert file == prefix;
    } else {
      var line := Line(serialize, rows[0]);
      var p := |prefix|;
      assert file == (prefix + line) + Encode(serialize, rows[1..]);
      assert file[p + |line| - 1] == NEWLINE;
      forall i | p <= i < p + |line| - 1
        ensures file[i] != NEWLINE
      {
        assert file[i] == serialize(rows[0])[i - p];
      }
      LineEndIs(file, p, p + |line|);
      assert file[p..p + |line|] == line;
      LinesOfEncodeFrom(serialize, prefix + line, rows[1..]);
    }
  }

  lemma LinesOfEncode<T(!new)>(serialize: T -> seq<byte>, rows: seq<T>)
    requires forall r :: NEWLINE !in serialize(r)
    ensures |Lines(Encode(serialize, rows))| == |rows|
    ensures forall i :: 0 <= i < |rows| ==> Lines(Encode(serialize, rows))[i] == Line(serialize, rows[i])
  {
    LinesOfEncodeFrom(serialize, [], rows);
    assert [] + Encode(serialize, rows) == Encode(serialize, rows);
  }

  /** `_read_file`: mapping an empty file fails with ValueError ("cannot mmap an
      empty file"); otherwise the lines in order. */
  function ReadFile(file: seq<byte>): (r: Result<seq<seq<byte>>>)
    ensures r.Ok? <==> |file| > 0
  {
    if |file| == 0 then Err(ValueError) else Ok(Lines(file))
  }

  /** `_inner_reader()` with no locations: every line decoded, in file order. */
  function Scan<T>(file: seq<byte>, deserialize: seq<byte> -> T): Result<seq<T>> {
    var lines :- ReadFile(file);
    Ok(Image(lines, deserialize))
  }

  /** A full scan of a non-empty spill file returns exactly the records written,
      in order; a spill of no records cannot be scanned. */
  lemma ScanRoundTrip<T(!new)>(serialize: T -> seq<byte>, deserialize: seq<byte> -> T, rows: seq<T>)
    requires RoundTrips(serialize, deserialize)
    ensures |rows| > 0 ==> Scan(Encode(serialize, rows), deserialize) == Ok(rows)
    ensures |rows| == 0 ==> Scan(Encode(serialize, rows), deserialize) == Err(ValueError)
  {
    if |rows| > 0 {
      LinesOfEncode(serialize, rows);
      var file := Encode(serialize, rows);
      assert |file| > 0 by {
        assert file == Line(serialize, rows[0]) + Encode(serialize, rows[1..]);
      }
      assert Image(Lines(file), deserialize) == rows;
    }
  }

  function MinOf(s: seq<int>): (m: int)
    requires |s| > 0
    ensures m in s && forall i :: 0 <= i < |s| ==> m <= s[i]
  {
    if |s| == 1 then s[0]
    else
      var m := MinOf(s[1..]);
      assert forall i :: 1 <= i < |s| ==> s[i] == s[1..][i - 1];
      if s[0] <= m then s[0] else m
  }

  function MaxOf(s: seq<int>): (m: int)
    requires |s| > 0
    ensures m in s && forall i :: 0 <= i < |s| ==> s[i] <= m
  {
    if |s| == 1 then s[0]
    else
      var m := MaxOf(s[1..]);
      assert forall i :: 1 <= i < |s| ==> s[i] == s[1..][i - 1];
      if s[0] >= m then s[0] else m
  }

  /** Lines the positional scan discards before enumerating: `range(min_location)`. */
  function Skip(locations: seq<int>): nat
    requires |locations| > 0
  {
    var lo := MinOf(locations);
    if lo > 0 then lo else 0
  }

  /** The line positions in [skip, end) whose enumerate tag, counted from `lo`
      at line `skip`, is one of the requested locations. */
  function Selected(lo: int, skip: nat, end: nat, locations: seq<int>): (js: seq<nat>)
    ensures forall k :: 0 <= k < |js| ==> skip <= js[k] < end
    ensures Increasing(js)
    ensures forall j :: j in js <==> skip <= j < end && lo + (j - skip) in locations
    decreases end
  {
    if end <= skip then []
    else
      var prev := Selected(lo, skip, end - 1, locations);
      if lo + (end - 1 - skip) in locations then prev + [end - 1] else prev
  }

  lemma {:induction false} SelectedBeyondMax(lo: int, skip: nat, e: nat, m: nat, locations: seq<int>)
    requires e <= m
    requires forall x :: x in locations ==> x < lo + (e - skip)
    ensures Selected(lo, skip, m, locations) == Selected(lo, skip, e, locations)
    decreases m - e
  {
    if e < m {
      SelectedBeyondMax(lo, skip, e, m - 1, locations);
    }
  }

  /** `_inner_reader(*locations)` with at least one location, as a value: the
      lines at the selected positions decoded in file order, or the failure of
      skipping past the end of the file (StopIteration inside the generator
      surfaces as RuntimeError) or of mapping an empty file. */
  function Positional<T>(file: seq<byte>, deserialize: seq<byte> -> T, locations: seq<int>): (r: Result<seq<T>>)
    requires |locations| > 0
    ensures r.Ok? <==> |file| > 0 && Skip(locations) <= |Lines(file)|
    ensures |file| > 0 && Skip(locations) > |Lines(file)| ==> r == Err(RuntimeError)
    ensures |file| == 0 ==> r == Err(ValueError)
  {
    var lines :- ReadFile(file);
    var skip := Skip(locations);
    if skip > |lines| then Err(RuntimeError)
    else Ok(Image(Pick(lines, Selected(MinOf(locations), skip, |lines|, locations)), deserialize))
  }

  /** A positional scan of a spill of `rows` for non-negative locations yields each
      requested record that exists exactly once, in ascending position order. */
  lemma PositionalPicksRows<T(!new)>(serialize: T -> seq<byte>, deserialize: seq<byte> -> T, rows: seq<T>, locations: seq<int>)
    requires RoundTrips(serialize, deserialize)
    requires |rows| > 0 && |locations| > 0
    requires forall k :: 0 <= k < |locations| ==> 0 <= locations[k]
    requires MinOf(locations) <= |rows|
    ensures var js := Selected(MinOf(locations), Skip(locations), |rows|, locations);
            && Increasing(js)
            && (forall j :: j in js <==> j < |rows| && j in locations)
            && Positional(Encode(serialize, rows), deserialize, locations) == Ok(Pick(rows, js))
  {
    var file := Encode(serialize, rows);
    LinesOfEncode(serialize, rows);
    assert |file| > 0 by {
      assert file == Line(serialize, rows[0]) + Encode(serialize, rows[1..]);
    }
    var lo := MinOf(locations);
    assert Skip(locations) == lo;
    var js := Selected(lo, lo, |rows|, locations);
    forall j: int
      ensures j in js <==> j < |rows| && j in locations
    {
      if j in locations {
        assert exists k :: 0 <= k < |locations| && locations[k] == j;
        assert lo <= j;
      }
    }
    DecodePicked(serialize, deserialize, rows, Lines(file), js);
  }

  lemma DecodePicked<T(!new)>(serialize: T -> seq<byte>, deserialize: seq<byte> -> T, rows: seq<T>, lines: seq<seq<byte>>, js: seq<nat>)
    requires RoundTrips(serialize, deserialize)
    requires |lines| == |rows|
    requires forall i :: 0 <= i < |rows| ==> lines[i] == Line(serialize, rows[i])
    requires forall k :: 0 <= k < |js| ==> js[k] < |rows|
    ensures Image(Pick(lines, js), deserialize) == Pick(rows, js)
  {
  }

  lemma DecodeSelectedSnoc<T>(lines: seq<seq<byte>>, deserialize: seq<byte> -> T, lo: int, skip: nat, read: nat, locations: seq<int>)
    requires skip <= read < |lines|
    ensures Image(Pick(lines, Selected(lo, skip, read + 1, locations)), deserialize)
         == Image(Pick(lines, Selected(lo, skip, read, locations)), deserialize)
            + (if lo + (read - skip) in locations then [deserialize(lines[read])] else [])
  {
  }

  /** Pull every remaining line from `pos` on, decoding each. */
  method ReadRest<T>(file: seq<byte>, pos0: nat, deserialize: seq<byte> -> T) returns (rows: seq<T>, count: nat)
    requires pos0 <= |file|
    ensures rows == Image(LinesFrom(file, pos0), deserialize)
    ensures count == |LinesFrom(file, pos0)|
  {
    ghost var lines := LinesFrom(file, pos0);
    var pos := pos0;
    rows, count := [], 0;
    while pos < |file|
      invariant pos0 <= pos <= |file|
      invariant count <= |lines|
      invariant LinesFrom(file, pos) == lines[count..]
      invariant rows == Image(lines[..count], deserialize)
      decreases |file| - pos
    {
      var e := LineEnd(file, pos);
      rows := rows + [deserialize(file[pos..e])];
      assert lines[..count + 1] == lines[..count] + [file[pos..e]];
      pos := e;
      count := count + 1;
    }
    assert lines[..count] == lines;
  }

  /** `for i in range(count): next(reader)`: discard `count` lines, or report that
      the mapping ran out first. */
  method SkipLines(file: seq<byte>, count: nat) returns (ok: bool, pos: nat)
    ensures ok <==> count <= |Lines(file)|
    ensures ok ==> pos <= |file| && LinesFrom(file, pos) == Lines(file)[count..]
  {
    ghost var lines := Lines(file);
    pos := 0;
    var i := 0;
    while i < count
      invariant 0 <= pos <= |file|
      invariant i <= |lines| && i <= count
      invariant LinesFrom(file, pos) == lines[i..]
      decreases |file| - pos
    {
      if pos == |file| {
        return false, pos;
      }
      pos := LineEnd(file, pos);
      i := i + 1;
    }
    ok := true;
  }

  /** `for i, line in enumerate(reader, lo)`: yield requested lines and stop right
      after the one labelled `hi`. */
  method Enumerate<T>(file: seq<byte>, pos0: nat, deserialize: seq<byte> -> T, skip: nat, lo: int, hi: int, locations: seq<int>)
      returns (out: seq<T>, read: nat)
    requires pos0 <= |file| && skip <= |Lines(file)|
    requires LinesFrom(file, pos0) == Lines(file)[skip..]
    requires lo <= hi && hi in locations
    requires forall x :: x in locations ==> lo <= x <= hi
    ensures out == Image(Pick(Lines(file), Selected(lo, skip, |Lines(file)|, locations)), deserialize)
    ensures read == if skip + (hi - lo) < |Lines(file)| then skip + (hi - lo) + 1 else |Lines(file)|
  {
    ghost var lines := Lines(file);
    var pos := pos0;
    read := skip;
    var tag := lo;
    out := [];
    while pos < |file|
      invariant pos0 <= pos <= |file|
      invariant skip <= read <= |lines|
      invariant tag == lo + (read - skip) <= hi
      invariant LinesFrom(file, pos) == lines[read..]
      invariant out == Image(Pick(lines, Selected(lo, skip, read, locations)), deserialize)
      decreases |file| - pos
    {
      var e := LineEnd(file, pos);
      var line := file[pos..e];
      assert line == lines[read];
      DecodeSelectedSnoc(lines, deserialize, lo, skip, read, locations);
      pos := e;
      read := read + 1;
      if tag in locations {
        out := out + [deserialize(line)];
        if tag == hi {
          SelectedBeyondMax(lo, skip, read, |lines|, locations);
          return;
        }
      }
      tag := tag + 1;
    }
  }

  /** `_inner_reader(*locations)` as the source runs it: a full scan when no
      location is given; otherwise skip to the smallest location, enumerate from
      there, yield requested lines and stop right after the largest one.
      `linesRead` counts the lines pulled from the mapping. */
  method InnerReader<T>(store: Store, deserialize: seq<byte> -> T, locations: seq<int>)
      returns (r: Result<seq<T>>, linesRead: nat)
    ensures |locations| == 0 ==> r == Scan(store.file, deserialize)
    ensures |locations| > 0 ==> r == Positional(store.file, deserialize, locations)
    ensures |locations| > 0 && r.Ok? ==>
      var last := Skip(locations) + (MaxOf(locations) - MinOf(locations));
      linesRead == if last < |Lines(store.file)| then last + 1 else |Lines(store.file)|
  {
    var file := store.file;
    if |file| == 0 {
      return Err(ValueError), 0;
    }
    if |locations| == 0 {
      var rows;
      rows, linesRead := ReadRest(file, 0, deserialize);
      return Ok(rows), linesRead;
    }
    var lo := MinOf(locations);
    var hi := MaxOf(locations);
    var skip := Skip(locations);
    var ok, pos := SkipLines(file, skip);
    if !ok {
      return Err(RuntimeError), |Lines(file)|;
    }
    var out;
    out, linesRead := Enumerate(file, pos, deserialize, skip, lo, hi, locations);
    r := Ok(out);
  }
}
