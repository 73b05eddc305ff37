/** The index-sort-run grouping behind `DictSet.igroupby`: an index of
    (surrogate key, position) pairs for the records that have the grouping
    column, a stable sort of that index by key, and a single pass that cuts the
    sorted index into runs, each labelled with the column value its key came from. */
module GroupIndex {
  import opened Wrappers
  import opened Values
  import opened SeqUtil

  /** `(value_as_int, position)` */
  datatype Entry = Entry(key: int, pos: nat)

  function Positions(es: seq<Entry>): (ps: seq<int>)
    ensures |ps| == |es|
    ensures forall k :: 0 <= k < |es| ==> ps[k] == es[k].pos
  {
    seq(|es|, k requires 0 <= k < |es| => es[k].pos as int)
  }

  /** The column value of a record that has the column. */
  function ColumnValue(r: Record, column: string): Value
    requires column in Keys(r)
  {
    Get(r, column).value
  }

  /** Every entry points at a record that has the column, and carries the
      surrogate key of that record's value. */
  predicate Indexes(rows: seq<Record>, column: string, toKey: Value -> int, es: seq<Entry>) {
    forall k :: 0 <= k < |es| ==>
      es[k].pos < |rows| && column in Keys(rows[es[k].pos]) && es[k].key == toKey(ColumnValue(rows[es[k].pos], column))
  }

  /** The index `builder` appends while enumerating the records: one entry per
      record that has the column, in position order. */
  function Build(rows: seq<Record>, column: string, toKey: Value -> int): (es: seq<Entry>)
    ensures Indexes(rows, column, toKey, es)
    ensures Increasing(Positions(es))
    ensures forall i :: 0 <= i < |rows| ==> (column in Keys(rows[i]) <==> i in Positions(es))
    decreases |rows|
  {
    if |rows| == 0 then []
    else
      var n := |rows| - 1;
      var prev := Build(rows[..n], column, toKey);
      BuildStep(rows, column, toKey, prev);
      if column in Keys(rows[n]) then prev + [Entry(toKey(ColumnValue(rows[n], column)), n)] else prev
  }

  lemma BuildStep(rows: seq<Record>, column: string, toKey: Value -> int, prev: seq<Entry>)
    requires |rows| > 0
    requires Indexes(rows[..|rows| - 1], column, toKey, prev)
    requires Increasing(Positions(prev))
    requires forall i :: 0 <= i < |rows| - 1 ==> (column in Keys(rows[..|rows| - 1][i]) <==> i in Positions(prev))
    ensures Indexes(rows, column, toKey, prev)
    ensures forall i :: 0 <= i < |rows| - 1 ==> (column in Keys(rows[i]) <==> i in Positions(prev))
    ensures |rows| - 1 !in Positions(prev)
    ensures column in Keys(rows[|rows| - 1]) ==>
      var e := Entry(toKey(ColumnValue(rows[|rows| - 1], column)), |rows| - 1);
      && Indexes(rows, column, toKey, prev + [e])
      && Positions(prev + [e]) == Positions(prev) + [|rows| - 1]
      && Increasing(Positions(prev + [e]))
  {
    var n := |rows| - 1;
    forall i | 0 <= i < n
      ensures column in Keys(rows[i]) <==> i in Positions(prev)
    {
      assert rows[..n][i] == rows[i];
    }
    forall k | 0 <= k < |prev|
      ensures prev[k].pos < |rows| && column in Keys(rows[prev[k].pos]) && prev[k].key == toKey(ColumnValue(rows[prev[k].pos], column))
    {
      assert rows[..n][prev[k].pos] == rows[prev[k].pos];
    }
    if column in Keys(rows[n]) {
      var e := Entry(toKey(ColumnValue(rows[n], column)), n);
      assert Positions(prev + [e]) == Positions(prev) + [n];
    }
  }

  /** `group_keys`: each surrogate key mapped to the column value last seen with it. */
  function GroupKeys(rows: seq<Record>, column: string, toKey: Value -> int): (m: map<int, Value>)
    ensures forall i :: 0 <= i < |rows| && column in Keys(rows[i]) ==> toKey(ColumnValue(rows[i], column)) in m
    ensures forall k :: k in m ==> toKey(m[k]) == k
    decreases |rows|
  {
    if |rows| == 0 then map[]
    else
      var n := |rows| - 1;
      var m := GroupKeys(rows[..n], column, toKey);
      assert forall i :: 0 <= i < n ==> rows[..n][i] == rows[i];
      if column in Keys(rows[n]) then
        var v := ColumnValue(rows[n], column);
        m[toKey(v) := v]
      else m
  }

  /** Ascending by key, and by position among equal keys. */
  predicate Ordered(s: seq<Entry>) {
    forall i, j :: 0 <= i < j < |s| ==> s[i].key < s[j].key || (s[i].key == s[j].key && s[i].pos < s[j].pos)
  }

  predicate SortedByKey(s: seq<Entry>) {
    forall i, j :: 0 <= i < j < |s| ==> s[i].key <= s[j].key
  }

  /** Place `e` after every entry whose key is not larger. */
  function InsertLast(s: seq<Entry>, e: Entry): (r: seq<Entry>)
    ensures multiset(r) == multiset(s) + multiset{e}
    ensures |r| == |s| + 1
    decreases |s|
  {
    if |s| == 0 || s[|s| - 1].key <= e.key then s + [e]
    else
      var n := |s| - 1;
      assert s == s[..n] + [s[n]];
      InsertLast(s[..n], e) + [s[n]]
  }

  /** `x` precedes `y` in (key, position) order. */
  predicate Before(x: Entry, y: Entry) {
    x.key < y.key || (x.key == y.key && x.pos < y.pos)
  }

  /** A property of every element survives a permutation. */
  lemma Transfer(r: seq<Entry>, t: seq<Entry>, p: Entry -> bool)
    requires multiset(r) == multiset(t)
    requires forall k :: 0 <= k < |t| ==> p(t[k])
    ensures forall k :: 0 <= k < |r| ==> p(r[k])
  {
    forall k | 0 <= k < |r|
      ensures p(r[k])
    {
      assert r[k] in multiset(t);
      assert r[k] in t;
    }
  }

  lemma {:induction false} InsertLastOrdered(s: seq<Entry>, e: Entry)
    requires Ordered(s)
    requires forall k :: 0 <= k < |s| ==> s[k].pos < e.pos
    ensures Ordered(InsertLast(s, e))
    decreases |s|
  {
    if |s| > 0 && s[|s| - 1].key > e.key {
      var n := |s| - 1;
      var r := InsertLast(s[..n], e);
      InsertLastOrdered(s[..n], e);
      var last := s[n];
      assert forall k :: 0 <= k < n ==> Before(s[..n][k], last);
      Transfer(r, s[..n] + [e], (x: Entry) => Before(x, last));
    }
  }

  /** `group_index.sort(key=lambda tup: tup[0])`: Python's sort is stable, so
      entries with equal keys keep their index order. */
  function Sort(es: seq<Entry>): (s: seq<Entry>)
    ensures multiset(s) == multiset(es)
    ensures |s| == |es|
    decreases |es|
  {
    if |es| == 0 then []
    else
      var n := |es| - 1;
      assert es == es[..n] + [es[n]];
      InsertLast(Sort(es[..n]), es[n])
  }

  /** Sorting an index built in position order leaves it ordered by key, then
      by position: the stable sort's order. */
  lemma {:induction false} SortOrdered(es: seq<Entry>)
    requires Increasing(Positions(es))
    ensures Ordered(Sort(es))
    ensures SortedByKey(Sort(es))
    decreases |es|
  {
    if |es| > 0 {
      var n := |es| - 1;
      var prefix := es[..n];
      assert Positions(prefix) == Positions(es)[..n];
      SortOrdered(prefix);
      var bound := es[n].pos;
      assert forall k :: 0 <= k < n ==> Positions(es)[k] < Positions(es)[n];
      assert forall k :: 0 <= k < n ==> prefix[k].pos < bound;
      Transfer(Sort(prefix), prefix, (x: Entry) => x.pos < bound);
      InsertLastOrdered(Sort(prefix), es[n]);
    }
  }

  /** The loop state of the grouping pass: `last_value`, the runs already
      emitted, and `item_locations` (kept here as entries). */
  datatype Cursor = Cursor(last: Option<int>, closed: seq<seq<Entry>>, current: seq<Entry>)

  /** Whether meeting `key` emits the current run. As written the guard is
      `last_value and last_value != val`, so a last key of 0 (falsy) never
      closes; the corrected guard only asks for a previous, different key. */
  predicate Closes(last: Option<int>, key: int, zeroIsFalsy: bool) {
    last.Some? && !(zeroIsFalsy && last.value == 0) && last.value != key
  }

  function Advance(c: Cursor, e: Entry, zeroIsFalsy: bool): Cursor {
    if Closes(c.last, e.key, zeroIsFalsy) then Cursor(Some(e.key), c.closed + [c.current], [e])
    else Cursor(Some(e.key), c.closed, c.current + [e])
  }

  function Walk(es: seq<Entry>, zeroIsFalsy: bool): Cursor
    decreases |es|
  {
    if |es| == 0 then Cursor(None, [], [])
    else Advance(Walk(es[..|es| - 1], zeroIsFalsy), es[|es| - 1], zeroIsFalsy)
  }

  /** The runs `igroupby` emits, as written: after the loop it emits the open run
      under `group_keys[last_value]`, which fails with KeyError when no record had
      the column (`last_value` is still None). */
  function RunsAsWritten(es: seq<Entry>): Result<seq<seq<Entry>>> {
    var c := Walk(es, true);
    if c.last.None? then Err(KeyError) else Ok(c.closed + [c.current])
  }

  /** The runs as evidently intended: a new run at every change of key, and no
      run at all for an empty index. */
  function Runs(es: seq<Entry>): seq<seq<Entry>> {
    var c := Walk(es, false);
    if c.last.None? then [] else c.closed + [c.current]
  }

  /** The pass so far has consumed exactly `es`: `last_value` is the last key
      seen and the emitted runs followed by the open run spell out `es`. */
  predicate Tracks(c: Cursor, es: seq<Entry>) {
    && (c.last.None? <==> |es| == 0)
    && (|es| > 0 ==> c.last == Some(es[|es| - 1].key) && |c.current| > 0)
    && Flatten(c.closed) + c.current == es
    && (forall i :: 0 <= i < |c.closed| ==> |c.closed[i]| > 0)
  }

  lemma AdvanceTracks(c: Cursor, es: seq<Entry>, e: Entry, zeroIsFalsy: bool)
    requires Tracks(c, es)
    ensures Tracks(Advance(c, e, zeroIsFalsy), es + [e])
  {
    FlattenSnoc(c.closed, c.current);
  }

  /** Whatever the guard, the pass neither drops, duplicates nor reorders entries. */
  lemma {:induction false} WalkTracks(es: seq<Entry>, zeroIsFalsy: bool)
    ensures Tracks(Walk(es, zeroIsFalsy), es)
    decreases |es|
  {
    if |es| > 0 {
      var n := |es| - 1;
      WalkTracks(es[..n], zeroIsFalsy);
      AdvanceTracks(Walk(es[..n], zeroIsFalsy), es[..n], es[n], zeroIsFalsy);
      assert es == es[..n] + [es[n]];
    }
  }

  lemma RunsPartition(es: seq<Entry>)
    ensures Flatten(Runs(es)) == es
    ensures RunsAsWritten(es).Ok? ==> Flatten(RunsAsWritten(es).value) == es
    ensures RunsAsWritten(es).Err? <==> |es| == 0
    ensures |es| == 0 ==> Runs(es) == [] && RunsAsWritten(es) == Err(KeyError)
  {
    WalkTracks(es, false);
    WalkTracks(es, true);
    FlattenSnoc(Walk(es, false).closed, Walk(es, false).current);
    FlattenSnoc(Walk(es, true).closed, Walk(es, true).current);
  }

  /** A run holds entries of one key only. */
  predicate OneKey(run: seq<Entry>, key: int) {
    forall k :: 0 <= k < |run| ==> run[k].key == key
  }

  /** Non-empty runs of one key each with ascending positions, keys strictly
      ascending from run to run. */
  predicate Grouped(runs: seq<seq<Entry>>) {
    && (forall i :: 0 <= i < |runs| ==>
          |runs[i]| > 0 && OneKey(runs[i], runs[i][0].key) && Increasing(Positions(runs[i])))
    && (forall i, j :: 0 <= i < j < |runs| ==> runs[i][0].key < runs[j][0].key)
  }

  /** The corrected pass's state over an ordered prefix: grouped emitted runs,
      an open run of the last key with ascending positions, and every emitted
      key below it. */
  predicate GroupedSoFar(c: Cursor) {
    && Grouped(c.closed)
    && (c.last.None? ==> c.closed == [] && c.current == [])
    && (c.last.Some? ==>
          && |c.current| > 0 && OneKey(c.current, c.last.value) && Increasing(Positions(c.current))
          && forall i :: 0 <= i < |c.closed| ==> c.closed[i][0].key < c.last.value)
  }

  lemma AdvanceGrouped(c: Cursor, e: Entry)
    requires GroupedSoFar(c)
    requires forall k :: 0 <= k < |c.current| ==> Before(c.current[k], e)
    requires c.last.Some? ==> c.last.value <= e.key
    ensures GroupedSoFar(Advance(c, e, false))
  {
    if Closes(c.last, e.key, false) {
      var closed := c.closed + [c.current];
      assert closed[|c.closed|] == c.current;
      assert c.current[0].key == c.last.value;
      assert forall i :: 0 <= i < |closed| ==> closed[i][0].key < e.key;
      assert Positions([e]) == [e.pos];
    } else {
      assert Positions(c.current + [e]) == Positions(c.current) + [e.pos];
    }
  }

  lemma OrderedSorted(es: seq<Entry>)
    requires Ordered(es)
    ensures SortedByKey(es)
  {
  }

  /** The open run is a suffix of what has been consumed. */
  lemma CurrentBefore(c: Cursor, es: seq<Entry>, e: Entry)
    requires Tracks(c, es)
    requires forall k :: 0 <= k < |es| ==> Before(es[k], e)
    ensures forall k :: 0 <= k < |c.current| ==> Before(c.current[k], e)
  {
    var m := |Flatten(c.closed)|;
    forall k | 0 <= k < |c.current|
      ensures Before(c.current[k], e)
    {
      assert c.current[k] == es[m + k];
    }
  }

  lemma OrderedPrefix(es: seq<Entry>, prefix: seq<Entry>, e: Entry)
    requires Ordered(es) && es == prefix + [e]
    ensures Ordered(prefix)
    ensures forall k :: 0 <= k < |prefix| ==> Before(prefix[k], e)
  {
    assert forall k :: 0 <= k < |prefix| ==> prefix[k] == es[k];
    assert es[|prefix|] == e;
    forall k | 0 <= k < |prefix|
      ensures Before(prefix[k], e)
    {
      assert Before(es[k], es[|prefix|]);
    }
  }

  lemma {:induction false} WalkGrouped(es: seq<Entry>)
    requires Ordered(es)
    ensures GroupedSoFar(Walk(es, false))
    decreases |es|
  {
    if |es| > 0 {
      var n := |es| - 1;
      var prefix := es[..n];
      assert es == prefix + [es[n]];
      OrderedPrefix(es, prefix, es[n]);
      WalkGrouped(prefix);
      WalkTracks(prefix, false);
      var c := Walk(prefix, false);
      assert c.last.Some? ==> c.last.value == es[n - 1].key <= es[n].key;
      CurrentBefore(c, prefix, es[n]);
      AdvanceGrouped(c, es[n]);
    }
  }

  /** The corrected pass cuts an ordered index into runs of one key each with
      ascending positions, in strictly ascending key order. */
  lemma RunsGrouped(es: seq<Entry>)
    requires Ordered(es)
    ensures Grouped(Runs(es))
  {
    WalkGrouped(es);
    var c := Walk(es, false);
    if c.last.Some? {
      var runs := c.closed + [c.current];
      assert runs[|c.closed|] == c.current;
      assert c.current[0].key == c.last.value;
    }
  }

  /** The falsy-zero guard only matters when some surrogate key is 0. */
  lemma {:induction false} NoZeroKeyAgrees(es: seq<Entry>)
    requires forall k :: 0 <= k < |es| ==> es[k].key != 0
    ensures Walk(es, true) == Walk(es, false)
    ensures RunsAsWritten(es) == if |es| == 0 then Err(KeyError) else Ok(Runs(es))
    decreases |es|
  {
    if |es| > 0 {
      var n := |es| - 1;
      NoZeroKeyAgrees(es[..n]);
      WalkTracks(es[..n], false);
    }
  }

  /** As written, a group with surrogate key 0 is merged into the next one. */
  lemma ZeroKeyMerges()
    ensures RunsAsWritten([Entry(0, 0), Entry(1, 1)]) == Ok([[Entry(0, 0), Entry(1, 1)]])
    ensures Runs([Entry(0, 0), Entry(1, 1)]) == [[Entry(0, 0)], [Entry(1, 1)]]
  {
    var es := [Entry(0, 0), Entry(1, 1)];
    assert es[..1] == [Entry(0, 0)];
    assert [Entry(0, 0)][..0] == [];
    assert Walk([], true) == Cursor(None, [], []);
    assert Walk([Entry(0, 0)], true) == Cursor(Some(0), [], [Entry(0, 0)]);
    assert Walk([Entry(0, 0)], false) == Cursor(Some(0), [], [Entry(0, 0)]);
    assert Walk(es, true) == Advance(Walk([Entry(0, 0)], true), Entry(1, 1), true);
    assert Walk(es, true) == Cursor(Some(1), [], [Entry(0, 0), Entry(1, 1)]);
    assert Walk(es, false) == Advance(Walk([Entry(0, 0)], false), Entry(1, 1), false);
    assert [] + [[Entry(0, 0), Entry(1, 1)]] == [[Entry(0, 0), Entry(1, 1)]];
  }

  /** Every run is non-empty and its last key has a stored label. */
  predicate Labelled(keys: map<int, Value>, runs: seq<seq<Entry>>) {
    forall i :: 0 <= i < |runs| ==> |runs[i]| > 0 && runs[i][|runs[i]| - 1].key in keys
  }

  /** Each run as `igroupby` emits it: `group_keys[last_value]` and the
      positions handed to `get_items`. */
  function Describe(keys: map<int, Value>, runs: seq<seq<Entry>>): (gs: seq<(Value, seq<int>)>)
    requires Labelled(keys, runs)
    ensures |gs| == |runs|
    ensures forall i :: 0 <= i < |runs| ==>
      gs[i].0 == keys[runs[i][|runs[i]| - 1].key] && gs[i].1 == Positions(runs[i])
  {
    seq(|runs|, i requires 0 <= i < |runs| => (keys[runs[i][|runs[i]| - 1].key], Positions(runs[i])))
  }

  /** The index after `group_index.sort`. */
  function SortedIndex(rows: seq<Record>, column: string, toKey: Value -> int): seq<Entry> {
    Sort(Build(rows, column, toKey))
  }

  lemma IndexFacts(rows: seq<Record>, column: string, toKey: Value -> int)
    ensures Ordered(SortedIndex(rows, column, toKey))
    ensures Indexes(rows, column, toKey, SortedIndex(rows, column, toKey))
    ensures forall k :: 0 <= k < |SortedIndex(rows, column, toKey)| ==>
      SortedIndex(rows, column, toKey)[k].key in GroupKeys(rows, column, toKey)
  {
    var b := Build(rows, column, toKey);
    var es := Sort(b);
    SortOrdered(b);
    IndexEntries(rows, column, toKey, b, es);
    var keys := GroupKeys(rows, column, toKey);
    forall k | 0 <= k < |es|
      ensures es[k].key in keys
    {
    }
  }

  lemma IndexEntries(rows: seq<Record>, column: string, toKey: Value -> int, b: seq<Entry>, es: seq<Entry>)
    requires Indexes(rows, column, toKey, b)
    requires multiset(es) == multiset(b)
    ensures Indexes(rows, column, toKey, es)
  {
    Transfer(es, b, (x: Entry) =>
      x.pos < |rows| && column in Keys(rows[x.pos]) && x.key == toKey(ColumnValue(rows[x.pos], column)));
  }

  lemma IndexCovers(rows: seq<Record>, column: string, toKey: Value -> int, i: int)
    requires 0 <= i < |rows| && column in Keys(rows[i])
    ensures exists k :: 0 <= k < |SortedIndex(rows, column, toKey)| && SortedIndex(rows, column, toKey)[k].pos == i
  {
    var b := Build(rows, column, toKey);
    var ps := Positions(b);
    assert i in ps;
    var j :| 0 <= j < |ps| && ps[j] == i;
    InSorted(b, j);
    var es := Sort(b);
    var k :| 0 <= k < |es| && es[k] == b[j];
    assert es == SortedIndex(rows, column, toKey);
    assert es[k].pos == i;
  }

  lemma InSorted(b: seq<Entry>, j: nat)
    requires j < |b|
    ensures exists k :: 0 <= k < |Sort(b)| && Sort(b)[k] == b[j]
  {
    var es := Sort(b);
    assert b[j] in multiset(b);
    assert b[j] in multiset(es);
    assert b[j] in es;
  }

  lemma RunsLabelled(es: seq<Entry>, keys: map<int, Value>)
    requires forall k :: 0 <= k < |es| ==> es[k].key in keys
    ensures Labelled(keys, Runs(es))
    ensures RunsAsWritten(es).Ok? ==> Labelled(keys, RunsAsWritten(es).value)
  {
    RunsPartition(es);
    WalkTracks(es, false);
    WalkTracks(es, true);
    RunsLabelledFrom(es, keys, Runs(es));
    if RunsAsWritten(es).Ok? {
      RunsLabelledFrom(es, keys, RunsAsWritten(es).value);
    }
  }

  lemma RunsLabelledFrom(es: seq<Entry>, keys: map<int, Value>, runs: seq<seq<Entry>>)
    requires forall k :: 0 <= k < |es| ==> es[k].key in keys
    requires Flatten(runs) == es
    requires forall i :: 0 <= i < |runs| ==> |runs[i]| > 0
    ensures Labelled(keys, runs)
  {
    forall i | 0 <= i < |runs|
      ensures runs[i][|runs[i]| - 1].key in keys
    {
      InFlatten(runs, i, |runs[i]| - 1);
    }
  }

  /** `igroupby` as written: the labelled groups, or KeyError when no record has
      the column. */
  function GroupsAsWritten(rows: seq<Record>, column: string, toKey: Value -> int): Result<seq<(Value, seq<int>)>> {
    var es := SortedIndex(rows, column, toKey);
    var keys := GroupKeys(rows, column, toKey);
    IndexFacts(rows, column, toKey);
    RunsLabelled(es, keys);
    var runs :- RunsAsWritten(es);
    Ok(Describe(keys, runs))
  }

  /** `igroupby` as evidently intended: a group per distinct surrogate key. */
  function Groups(rows: seq<Record>, column: string, toKey: Value -> int): seq<(Value, seq<int>)> {
    var es := SortedIndex(rows, column, toKey);
    var keys := GroupKeys(rows, column, toKey);
    IndexFacts(rows, column, toKey);
    RunsLabelled(es, keys);
    Describe(keys, Runs(es))
  }

  lemma DescribeOrdered(keys: map<int, Value>, runs: seq<seq<Entry>>, toKey: Value -> int)
    requires Grouped(runs) && Labelled(keys, runs)
    requires forall k :: k in keys ==> toKey(keys[k]) == k
    ensures var gs := Describe(keys, runs);
      && (forall g :: 0 <= g < |gs| ==> |gs[g].1| > 0 && Increasing(gs[g].1))
      && (forall g :: 0 <= g < |gs| ==> toKey(gs[g].0) == runs[g][0].key)
  {
    var gs := Describe(keys, runs);
    forall g | 0 <= g < |gs|
      ensures toKey(gs[g].0) == runs[g][0].key
    {
      assert runs[g][|runs[g]| - 1].key == runs[g][0].key;
    }
  }

  /** Groups come out in strictly ascending surrogate-key order, each non-empty
      with ascending positions. */
  lemma GroupsOrdered(rows: seq<Record>, column: string, toKey: Value -> int)
    ensures var gs := Groups(rows, column, toKey);
      && (forall g :: 0 <= g < |gs| ==> |gs[g].1| > 0 && Increasing(gs[g].1))
      && (forall g, h :: 0 <= g < h < |gs| ==> toKey(gs[g].0) < toKey(gs[h].0))
  {
    var es := SortedIndex(rows, column, toKey);
    var keys := GroupKeys(rows, column, toKey);
    IndexFacts(rows, column, toKey);
    RunsGrouped(es);
    RunsLabelled(es, keys);
    var runs: seq<seq<Entry>> := Runs(es);
    assert Groups(rows, column, toKey) == Describe(keys, runs);
    DescribeOrdered(keys, runs, toKey);
  }

  /** Every position in a group is a record that has the column and whose value
      has the group's surrogate key. */
  lemma GroupsMembers(rows: seq<Record>, column: string, toKey: Value -> int, g: nat, i: int)
    requires g < |Groups(rows, column, toKey)|
    requires i in Groups(rows, column, toKey)[g].1
    ensures 0 <= i < |rows| && column in Keys(rows[i])
    ensures toKey(ColumnValue(rows[i], column)) == toKey(Groups(rows, column, toKey)[g].0)
  {
    var es := SortedIndex(rows, column, toKey);
    IndexFacts(rows, column, toKey);
    RunsGrouped(es);
    RunsPartition(es);
    var runs: seq<seq<Entry>> := Runs(es);
    var k :| 0 <= k < |runs[g]| && Positions(runs[g])[k] == i;
    InFlatten(runs, g, k);
    assert runs[g][|runs[g]| - 1].key == runs[g][0].key == runs[g][k].key;
  }

  /** Every record that has the column lands in some group ... */
  lemma GroupsCover(rows: seq<Record>, column: string, toKey: Value -> int, i: int)
    requires 0 <= i < |rows| && column in Keys(rows[i])
    ensures exists g :: 0 <= g < |Groups(rows, column, toKey)| && i in Groups(rows, column, toKey)[g].1
  {
    var es := SortedIndex(rows, column, toKey);
    IndexFacts(rows, column, toKey);
    IndexCovers(rows, column, toKey, i);
    RunsPartition(es);
    var runs: seq<seq<Entry>> := Runs(es);
    var gs := Groups(rows, column, toKey);
    var k :| 0 <= k < |es| && es[k].pos == i;
    FromFlatten(runs, es[k]);
    var g, j :| 0 <= g < |runs| && 0 <= j < |runs[g]| && runs[g][j] == es[k];
    assert Positions(runs[g])[j] == i;
  }

  /** ... and in only one. */
  lemma GroupsDisjoint(rows: seq<Record>, column: string, toKey: Value -> int, g: nat, h: nat, i: int)
    requires g < |Groups(rows, column, toKey)| && h < |Groups(rows, column, toKey)|
    requires i in Groups(rows, column, toKey)[g].1 && i in Groups(rows, column, toKey)[h].1
    ensures g == h
  {
    GroupsOrdered(rows, column, toKey);
    GroupsMembers(rows, column, toKey, g, i);
    GroupsMembers(rows, column, toKey, h, i);
  }

  /** Without a surrogate key of 0 the source's grouping is the intended one,
      except that it fails when no record has the column. */
  lemma GroupsAsWrittenAgrees(rows: seq<Record>, column: string, toKey: Value -> int)
    requires forall i :: 0 <= i < |rows| && column in Keys(rows[i]) ==> toKey(ColumnValue(rows[i], column)) != 0
    ensures GroupsAsWritten(rows, column, toKey) ==
      if forall i :: 0 <= i < |rows| ==> column !in Keys(rows[i]) then Err(KeyError)
      else Ok(Groups(rows, column, toKey))
  {
    var es := SortedIndex(rows, column, toKey);
    IndexFacts(rows, column, toKey);
    NoZeroKeyAgrees(es);
    RunsPartition(es);
    if |es| > 0 {
      assert es[0].pos < |rows| && column in Keys(rows[es[0].pos]);
    }
  }
}
