# mabel record engine — a Dafny model

This project models the in-memory record engine of mabel, a Python data
library. It covers five parts:

- **`DictSet`** (`DictSets`). A stream of dictionary records with a storage
  class: NO_PERSISTANCE keeps the caller's single-pass generator, MEMORY keeps
  a list and DISK keeps a spill file. The model covers persisting, counting,
  taking, selecting, collecting, aggregating, grouping, positional access and
  hashing.
- **`DiskIterator`** (`DiskIterator`). The spill file behind DISK storage:
  the buffered write, the line reader, the full and positional scans, and
  `__len__`.
- **The internal `Relation`** (`InternalRelation`). A schema (an ordered
  dict of attribute profiles) over a list or generator of tuples or dicts.
  The model covers construction from dicts, materialising, counting,
  fetching, selection, projection, renaming, `distinct`, the aggregates, the
  union of iterables and the order-insensitive hash.
- **The SQL reader's `Relation`** (`SqlRelation`). A header over tuples,
  with selection, projection, materialising and conversion to and from a
  `DictSet`.
- **The expression tokenizer** (`TokenLabeler`). The operator table,
  `function_in` and `function_contains`, the token classifier, the
  quote-repair pass over the splitter's fragments, `tokenize`, and the
  cursor.

The supporting modules are:

- `Wrappers`: `Option`, and `Result` over the Python exceptions the code raises.
- `Values`: Python values, and records as insertion-ordered key/value lists.
- `SeqUtil`: sequence helpers; first-occurrence dedupe; the XOR fold.
- `Aggregates`: Python's `<` on the values the model interprets; `sum`,
  `max`, `min`.
- `GroupIndex`: the index, stable sort and run-splitting inside `igroupby`.

Where an exception is raised, the model returns `Err(<exception class>)`. A
generator is modelled by the records it still has to produce. Operations on a
`DictSet` return the set as they leave it, because a NO_PERSISTANCE generator
is used up by whatever the operation read.

Third-party and unseen code enters as parameters:

- `orjson` dumps and loads (`DictSets.Codec`, and `serialize`/`deserialize`
  in `DiskIterator`);
- cityhash and siphash (`city32`, `sip`), and Python's `hash` (`pyHash`);
- `value_to_int` (`toKey`);
- `coerce_types` and the `PYTHON_TYPES` lookup (`InternalRelation.Env`);
- `parse_iso`, fastnumbers' `isint`/`isfloat`, and the `FUNCTIONS` and
  `AGGREGATORS` tables (`TokenLabeler.Lexicon`);
- the DNF filter (`selected`), the predicate of `filter` and `select`, and
  the SQL reader's `types`.

The splitter regex is not evaluated; the tokenizer starts from the fragments
the splitter produced.

Where the written code and its documented intent disagree, the model follows
the code. The `## Findings` section lists each such discrepancy, with both the
as-written and the corrected behaviour proved. In particular:

- `count()` never takes the `__length__` shortcut.
- `get_token_type` never returns COMMA.
- The identifier pattern has no end anchor, so only the first character of a
  token decides whether it is identifier-shaped.

## Model

| member | source | states |
|---|---|---|
| Aggregates.Less | mabel/data/internals/relation.py:342-373 | Python `<` succeeds exactly on two numbers (bool and int mix) or two strings, and then is the numeric or lexicographic order; anything else is TypeError |
| Aggregates.Sum | mabel/data/internals/relation.py:353-362 | `sum` succeeds exactly when every value is numeric, and then equals the column's arithmetic total added up from the front (0 for no values) |
| Aggregates.SumAppend | mabel/data/internals/relation.py:353-362 | the sum over two concatenated runs of numbers is the sum of the two sums |
| Aggregates.Max | mabel/data/internals/relation.py:364-373 | `reduce(max, vs)` fails for no values or for values `<` cannot order; otherwise it is one of the values and no value exceeds it |
| Aggregates.Min | mabel/data/internals/relation.py:342-351 | `reduce(min, vs)` fails for no values or for values `<` cannot order; otherwise it is one of the values and no value is below it |
| DiskIterator.Write | mabel/data/internals/disk_iterator.py:15-68 | the spill file is the serialised rows, newline-terminated, in order, and equals the concatenation of the flushed chunks; every flush but the last is larger than BUFFER_SIZE; `length`, which `__len__` returns, ends at the last enumerate index, one less than the number of rows written (0 for one row, -1 for none), while the corrected length is the number of rows |
| DiskIterator.EncodeSnoc | mabel/data/internals/disk_iterator.py:23-26 | writing one more row appends exactly that row's line to the file |
| DiskIterator.CorrectedLenCountsRecords | mabel/data/internals/disk_iterator.py:67-68 | the corrected length of a spill equals the number of records a full scan reads back |
| DiskIterator.LinesOfEncode | mabel/data/internals/disk_iterator.py:34-42 | when no serialised row contains a newline, the lines of the spill file are exactly the rows' lines, one per row |
| DiskIterator.ReadFile | mabel/data/internals/disk_iterator.py:34-42 | reading fails exactly for an empty file (mmap refuses it) and otherwise yields the file's lines |
| DiskIterator.ScanRoundTrip | mabel/data/internals/disk_iterator.py:59-62 | a full scan of the spill of a non-empty run of rows returns those rows in order, given that loads inverts dumps; the spill of no rows cannot be scanned |
| DiskIterator.Selected | mabel/data/internals/disk_iterator.py:54-58 | the positions a positional scan yields are strictly increasing, and are exactly the lines whose enumerate tag is a requested location |
| DiskIterator.Positional | mabel/data/internals/disk_iterator.py:44-58 | a positional scan fails with RuntimeError exactly when the smallest location lies beyond the last line, and with ValueError on an empty file |
| DiskIterator.PositionalPicksRows | mabel/data/internals/disk_iterator.py:44-58 | on a spill of rows with non-negative locations, each existing requested row is yielded exactly once, in ascending position order, whatever the order and repetition of the request |
| DiskIterator.ReadRest | mabel/data/internals/disk_iterator.py:59-62 | the line-reading loop decodes every remaining line in file order and counts them |
| DiskIterator.SkipLines | mabel/data/internals/disk_iterator.py:51-52 | skipping `count` lines succeeds exactly when the file has at least that many lines, and leaves the reader at the remaining lines |
| DiskIterator.Enumerate | mabel/data/internals/disk_iterator.py:54-58 | the enumerate loop yields the selected lines decoded, and stops right after the largest location, or at the end of the file |
| DiskIterator.InnerReader | mabel/data/internals/disk_iterator.py:44-62 | `_inner_reader` is the full scan without locations and the positional scan with them; a positional scan reads no line past the one tagged with the largest location |
| DictSets.Create | mabel/data/internals/dictset.py:61-92 | the constructor keeps a generator as it is for NO_PERSISTANCE, and otherwise lists or spills it; it fails only when reading the records fails |
| DictSets.CreateKeepsRecords | mabel/data/internals/dictset.py:86-92 | listing or spilling keeps every record in order, except that a spill of no records cannot be read back |
| DictSets.SecondPass | mabel/data/internals/dictset.py:142-149 | a second pass over a used-up generator sees no records, while a list or spill is read in full again |
| DictSets.Persist | mabel/data/internals/dictset.py:113-126 | NO_PERSISTANCE is refused with InvalidArgument; the current class returns False and changes nothing; MEMORY returns True but leaves the source unreplaced (a generator ends up drained); DISK raises AttributeError |
| DictSets.PersistLosesRecords | mabel/data/internals/dictset.py:119 | persisting a one-record generator to MEMORY reports success and leaves a set with no records |
| DictSets.PersistCorrected | mabel/data/internals/dictset.py:113-126 | the evidently intended `persist` keeps the InvalidArgument and False cases and otherwise rebuilds the set in the target class |
| DictSets.PersistCorrectedKeepsRecords | mabel/data/internals/dictset.py:113-126 | the corrected `persist` returns True, sets the target class and keeps every record |
| DictSets.Count | mabel/data/internals/dictset.py:250-262 | `count()` is -1 for NO_PERSISTANCE without reading, and otherwise the number of records a full pass yields |
| DictSets.CountOfSpill | mabel/data/internals/dictset.py:250-262 | on a DISK set, `count()` is the number of records written: one more than the spill's `__len__` |
| DictSets.ITake | mabel/data/internals/dictset.py:383-392 | `itake(n)` yields the first `n` records (all of them when `n` is negative or too large), and pulls one record more from a generator than it yields when it stops early |
| DictSets.Take | mabel/data/internals/dictset.py:376-381 | `take(n)` is a set of the same storage class over the first `n` records |
| DictSets.KeysOfSpec | mabel/data/internals/dictset.py:151-163 | the key list holds exactly the keys some record has, each once, in first-appearance order |
| DictSets.KeysOfPrefix | mabel/data/internals/dictset.py:151-163 | the keys of a prefix of the records are a prefix of the keys of all of them |
| DictSets.ListKeys | mabel/data/internals/dictset.py:151-163 | `keys(n)` lists the keys of the first `n` records when `n` is positive and of every record otherwise, without duplicates |
| DictSets.Collect | mabel/data/internals/dictset.py:142-149 | `collect(key)` gives the records for a falsy key; otherwise each record's value under the key, or KeyError exactly when some record lacks it, after the generator has produced that record |
| DictSets.Sum | mabel/data/internals/dictset.py:180-188 | `sum(key)` succeeds exactly when every record holds a number under the key, and then is the total of that column |
| DictSets.Max | mabel/data/internals/dictset.py:170-178 | `max(key)` is a value some record holds under the key and no record's value exceeds it; no records is TypeError |
| DictSets.Min | mabel/data/internals/dictset.py:190-198 | `min(key)` is a value some record holds under the key and no record's value is below it; no records is TypeError |
| DictSets.First | mabel/data/internals/dictset.py:373-374 | `first()` is the first record, or None for no records; a generator loses that record |
| DictSets.Item | mabel/data/internals/dictset.py:247-248 | `item(i)` indexes a listed set with Python's negative indices and fails with TypeError on anything but a list |
| DictSets.Project | mabel/data/internals/dictset.py:446-458 | a selected record has exactly the requested keys, each holding the source record's value or None when absent |
| DictSets.ProjectIdempotent | mabel/data/internals/dictset.py:446-458 | selecting the same columns twice is selecting them once |
| DictSets.Select | mabel/data/internals/dictset.py:446-458 | `select(columns)` is a set of the same storage class whose records are the projections, in order; a single column name is treated as a one-element list |
| DictSets.FilterRecords | mabel/data/internals/dictset.py:394-409 | `filter` as written always raises TypeError: it passes the storage class positionally to a keyword-only parameter |
| DictSets.DnfFilter | mabel/data/internals/dictset.py:411-422 | `dnf_filter` fails with TypeError in the same way |
| DictSets.FilterRecordsCorrected | mabel/data/internals/dictset.py:394-409 | the evidently intended `filter` keeps exactly the records the predicate accepts, in order, in the same storage class; a DISK set keeping nothing cannot be read back (ValueError) |
| DictSets.DoDedupeKeepsAll | mabel/data/internals/dictset.py:271-277 | the dedupe generator registers a hash only when it is already registered, so it yields every record and registers nothing |
| DictSets.DuplicateSurvives | mabel/data/internals/dictset.py:271-277 | a record met twice is yielded twice as written and once by the intended dedupe |
| DictSets.Distinct | mabel/data/internals/dictset.py:264-279 | `distinct()` as written raises TypeError at the constructor call, as `filter` does |
| DictSets.DistinctCorrected | mabel/data/internals/dictset.py:264-279 | the evidently intended `distinct` keeps the first record of each hash, in order, so no hash repeats and every input hash is present; an empty DISK set cannot be read back (ValueError) |
| DictSets.GetItems | mabel/data/internals/dictset.py:319-338 | `get_items` indexes a list, refuses a non-list MEMORY source, scans a spill positionally, and over a NO_PERSISTANCE generator never yields a record |
| DictSets.GetItemsCorrected | mabel/data/internals/dictset.py:335-338 | the evidently intended NO_PERSISTANCE branch yields the records at the requested positions in stream order, each once |
| DictSets.GetItemsMissesRequested | mabel/data/internals/dictset.py:335-338 | asking a one-record generator for position 0 yields nothing as written and that record once corrected |
| DictSets.FetchGroups | mabel/data/internals/dictset.py:312-317 | each group's positions are fetched with `get_items` into a MEMORY set, and the first failing fetch ends the iteration |
| DictSets.IGroupBy | mabel/data/internals/dictset.py:281-317 | `igroupby` reads the source once to build the index, fails where the run-splitting fails, and fetches each run from the source as that pass left it |
| DictSets.IGroupByListed | mabel/data/internals/dictset.py:281-317 | over a list with no surrogate key 0, `igroupby` yields one group per distinct key, each holding exactly the records at its positions |
| DictSets.IGroupByGeneratorEmpty | mabel/data/internals/dictset.py:281-317 | over a NO_PERSISTANCE generator every group comes out empty, because building the index drained the generator |
| DictSets.IGroupByCorrected | mabel/data/internals/dictset.py:281-317 | the evidently intended grouping yields one group per distinct surrogate key, each holding the records at its positions |
| DictSets.IGroupByNoColumn | mabel/data/internals/dictset.py:312-317 | when no record has the column, the final `group_keys[None]` lookup raises KeyError, while the corrected grouping yields no group |
| DictSets.Hash | mabel/data/internals/dictset.py:463-472 | `__hash__` is the XOR fold of the records' digests over one full pass |
| DictSets.HashIgnoresOrder | mabel/data/internals/dictset.py:463-472 | the hash does not depend on the order of the records |
| DictSets.HashCancelsPairs | mabel/data/internals/dictset.py:463-472 | a record occurring twice cancels out of the hash |
| GroupIndex.Build | mabel/data/internals/dictset.py:286-294 | the index holds, in position order, one entry per record that has the column, with that record's surrogate key |
| GroupIndex.GroupKeys | mabel/data/internals/dictset.py:286-294 | the key map has an entry for every surrogate key present, labelled by a value with that key |
| GroupIndex.Sort | mabel/data/internals/dictset.py:296 | sorting is a permutation of the index |
| GroupIndex.SortOrdered | mabel/data/internals/dictset.py:296 | the sort is stable: entries ascend by key and, within a key, by position |
| GroupIndex.WalkTracks | mabel/data/internals/dictset.py:298-311 | the run-splitting loop's yielded runs plus its open run always make up the entries read so far |
| GroupIndex.RunsPartition | mabel/data/internals/dictset.py:298-317 | the runs concatenate back to the sorted index; with no entries the as-written pass fails with KeyError |
| GroupIndex.RunsGrouped | mabel/data/internals/dictset.py:298-317 | over a sorted index, each intended run holds one key and later runs hold larger keys |
| GroupIndex.NoZeroKeyAgrees | mabel/data/internals/dictset.py:301 | without a surrogate key 0, the truthiness test on the previous key does not change the runs |
| GroupIndex.ZeroKeyMerges | mabel/data/internals/dictset.py:301 | a surrogate key 0 counts as "no previous key", so its records merge into the next group |
| GroupIndex.GroupsOrdered | mabel/data/internals/dictset.py:281-317 | groups come out in strictly ascending key order, each non-empty with ascending positions |
| GroupIndex.GroupsMembers | mabel/data/internals/dictset.py:281-317 | every position in a group is a record that has the column, with the group's surrogate key |
| GroupIndex.GroupsCover | mabel/data/internals/dictset.py:281-317 | every record that has the column lands in some group |
| GroupIndex.GroupsDisjoint | mabel/data/internals/dictset.py:281-317 | no record lands in two groups |
| GroupIndex.GroupsAsWrittenAgrees | mabel/data/internals/dictset.py:281-317 | without a surrogate key 0 the as-written grouping is the intended one, except that it fails when no record has the column |
| InternalRelation.TypesOfDict | mabel/data/internals/relation.py:191-199 | type inference gives each key of the first dict, in order, the type of its value, so the widening branch is never taken |
| InternalRelation.InferredKeys | mabel/data/internals/relation.py:191-206 | the inferred schema has exactly the first dict's keys, in its order |
| InternalRelation.FromDictionaries | mabel/data/internals/relation.py:189-210 | the schema comes from the first dict alone; every dict becomes a tuple as wide as the schema whose j-th item is the coerced value of the j-th key (None when missing, extra keys dropped); no dicts is StopIteration |
| InternalRelation.FetchAfterDicts | mabel/data/internals/relation.py:189-210 | fetching a relation built from dicts gives back each dict restricted to the first dict's keys, coerced |
| InternalRelation.New | mabel/data/internals/relation.py:65-95 | the constructor keeps a generator as it is, takes tuples over, converts dicts with `from_dictionaries`, and fails with IndexError on an empty list |
| InternalRelation.Materialize | mabel/data/internals/relation.py:152-156 | materialising gives a listed relation of tuples with the same number of rows, and changes nothing on one that is already materialised |
| InternalRelation.Count | mabel/data/internals/relation.py:158-160 | `count()` is the number of rows |
| InternalRelation.Shape | mabel/data/internals/relation.py:162-165 | `shape` is the number of attributes and the number of rows |
| InternalRelation.FetchOne | mabel/data/internals/relation.py:283-288 | `fetchone(i)` is None exactly for an out-of-range Python index, and otherwise the tuple at that index labelled by the schema |
| InternalRelation.FetchRange | mabel/data/internals/relation.py:290-305 | the records between two indices, each the labelled tuple at its index; an index before the start is IndexError |
| InternalRelation.FetchMany | mabel/data/internals/relation.py:290-298 | `fetchmany(size, offset)` returns `min(count, offset+size) - offset` records (none when negative), labelled with the schema keys captured before materialising |
| InternalRelation.FetchAll | mabel/data/internals/relation.py:300-308 | `fetchall(offset)` returns every record from the offset on, with the same early capture of the keys |
| InternalRelation.FetchManyCorrected | mabel/data/internals/relation.py:290-298 | the evidently intended `fetchmany` labels the records with the schema in force when the tuples are read |
| InternalRelation.FetchManyMatchesFetchOne | mabel/data/internals/relation.py:283-298 | the corrected `fetchmany` returns, record by record, what `fetchone` returns at the same positions |
| InternalRelation.FetchManyAgreesOnTuples | mabel/data/internals/relation.py:290-298 | over tuples the early capture of the keys is harmless |
| InternalRelation.FetchManyStaleKeys | mabel/data/internals/relation.py:291-292 | over a generator of dicts with no schema given, `fetchmany` returns empty records where `fetchone` returns them in full |
| InternalRelation.ApplySelection | mabel/data/internals/relation.py:106-127 | selection keeps the filter's rows under a schema with the same keys, in order, each keeping only its "type"; a None profile raises AttributeError |
| InternalRelation.Positions | mabel/data/internals/relation.py:134-137 | the projection indices are strictly increasing and are exactly the schema positions whose name is requested |
| InternalRelation.ApplyProjection | mabel/data/internals/relation.py:130-143 | as written, the new schema is keyed by the requested names in request order (unknown names map to None), while the tuples keep the requested items in schema order |
| InternalRelation.ApplyProjectionCorrected | mabel/data/internals/relation.py:130-143 | the evidently intended projection keeps exactly the requested attributes the schema knows, in schema order, matching the tuples |
| InternalRelation.ProjectionCorrectedFetch | mabel/data/internals/relation.py:130-143 | after the corrected projection, each fetched record holds exactly the requested attributes, each with the value it had before |
| InternalRelation.ProjectionMislabels | mabel/data/internals/relation.py:134-141 | projecting `a, b` onto `b, a` relabels each tuple, so `a`'s value comes back under `b` and `b`'s under `a` |
| InternalRelation.RenameAttribute | mabel/data/internals/relation.py:215-216 | renaming moves the profile to the new name at the end of the schema, keeps every other profile, and leaves the tuples as they are; an unknown name is KeyError |
| InternalRelation.RenameMislabels | mabel/data/internals/relation.py:215-216 | renaming the first of two attributes mislabels both values of every tuple |
| InternalRelation.RenameCorrected | mabel/data/internals/relation.py:215-216 | the evidently intended rename reorders each tuple to follow the renamed schema |
| InternalRelation.RenameCorrectedFetch | mabel/data/internals/relation.py:215-216 | after the corrected rename, each fetched record holds the old value under the new name and every other attribute's value unchanged |
| InternalRelation.Distinct | mabel/data/internals/relation.py:173-187 | `distinct` fails with TypeError exactly when some tuple holds a list or a dict (`hash` refuses it); otherwise it keeps the first tuple of each hash, in order: no hash repeats, every input hash is present, and input without repeated hashes is unchanged |
| InternalRelation.DistinctIdempotent | mabel/data/internals/relation.py:173-187 | when `distinct` succeeds, applying it again succeeds and changes nothing |
| InternalRelation.CollectList | mabel/data/internals/relation.py:310-322 | `collect_list(key)` gives every row for a falsy key, ValueError for a key not in the schema, and otherwise each row's item at the key's schema position |
| InternalRelation.CollectMatchesFetch | mabel/data/internals/relation.py:283-322 | the i-th collected value is what the i-th fetched record holds under the key |
| InternalRelation.Sum | mabel/data/internals/relation.py:353-362 | `sum(key)` fails where collecting fails or a collected value is not numeric, and otherwise is the arithmetic total of the collected column |
| InternalRelation.Max | mabel/data/internals/relation.py:364-373 | `max(key)` is a collected value that no collected value exceeds |
| InternalRelation.Min | mabel/data/internals/relation.py:342-351 | `min(key)` is a collected value that no collected value is below |
| InternalRelation.CollectOverUnion | mabel/data/internals/relation.py:56-58 | collecting a column over the union of two relations' tuples concatenates the two columns |
| InternalRelation.Union | mabel/data/internals/relation.py:56-58 | `_union` yields exactly the items of the iterables it chains |
| InternalRelation.UnionConcatenates | mabel/data/internals/relation.py:56-58 | the union of two lists of iterables is the concatenation of their unions, in order |
| InternalRelation.UnionFirstRest | mabel/data/internals/relation.py:201-210 | chaining the first row back in front of the rest rebuilds the input |
| InternalRelation.Hash | mabel/data/internals/relation.py:516-534 | `__hash__` of a relation with no rows is the seed, and of a single tuple is the seed XORed with that tuple's digest |
| InternalRelation.HashIgnoresOrder | mabel/data/internals/relation.py:516-534 | the hash does not depend on the order of the tuples, nor on the schema |
| InternalRelation.HashCancelsPairs | mabel/data/internals/relation.py:516-534 | a tuple occurring twice cancels out of the hash |
| InternalRelation.TupleDigestIgnoresOrder | mabel/data/internals/relation.py:527-529 | a tuple's digest does not depend on the order of its items |
| InternalRelation.HashOfDictsSeesKeysOnly | mabel/data/internals/relation.py:516-534 | over dicts the hash folds the keys only, so dicts with the same keys hash alike whatever their values |
| SqlRelation.ApplySelection | mabel/data/readers/sql/relation.py:40-55 | selection keeps exactly the tuples the predicate accepts, in order, under a header with the same keys, each keeping only its "type" |
| SqlRelation.SelectionsCompose | mabel/data/readers/sql/relation.py:40-55 | two selections in a row keep the tuples that both predicates accept |
| SqlRelation.ApplyProjection | mabel/data/readers/sql/relation.py:57-70 | the header keeps the requested attributes in header order, each tuple keeps the items at their positions, and unknown names are ignored |
| SqlRelation.ProjectionAgreesWithInternal | mabel/data/readers/sql/relation.py:57-70 | this projection is the internal relation's corrected projection |
| SqlRelation.ProjectedRecords | mabel/data/readers/sql/relation.py:57-94 | each record of the projected relation holds exactly the requested columns, each with the value the unprojected record holds |
| SqlRelation.Materialize | mabel/data/readers/sql/relation.py:73-74 | materialising lists the same tuples in the same order |
| SqlRelation.MaterializeIdempotent | mabel/data/readers/sql/relation.py:73-74 | materialising twice is materialising once, and a listed relation is unchanged |
| SqlRelation.ToDictset | mabel/data/readers/sql/relation.py:87-94 | `to_dictset` maps each tuple to a record with exactly the header keys, the j-th key holding the j-th item; a tuple shorter than the header is IndexError |
| SqlRelation.RowsAfterToDictset | mabel/data/readers/sql/relation.py:87-94 | reading each record back in header order returns the tuples |
| SqlRelation.FromDictset | mabel/data/readers/sql/relation.py:76-85 | `from_dictset` as written always raises AttributeError: `DictSet` has no `types` method |
| SqlRelation.FromDictsetFails | mabel/data/readers/sql/relation.py:82 | the as-written loader fails even on a listed set that the corrected loader loads |
| SqlRelation.FromDictsetCorrected | mabel/data/readers/sql/relation.py:76-85 | the evidently intended loader makes one tuple per record, the j-th item being the record's value under the j-th header key, or None |
| SqlRelation.ToDictsetAfterFromDictset | mabel/data/readers/sql/relation.py:76-94 | loading a set and converting it back gives each record restricted to the header keys, with missing keys as None |
| TokenLabeler.Strip | mabel/utils/token_labeler.py:195 | `strip()` removes leading and trailing whitespace and only that |
| TokenLabeler.StripIdempotent | mabel/utils/token_labeler.py:232 | stripping twice is stripping once |
| TokenLabeler.Upper | mabel/utils/token_labeler.py:75 | `upper()` maps each ASCII lower-case letter to its capital and keeps every other character |
| TokenLabeler.UpperIdempotent | mabel/utils/token_labeler.py:103-121 | upper-casing twice is upper-casing once, and leaves no ASCII lower-case letter |
| TokenLabeler.Find | mabel/utils/token_labeler.py:22-26 | `find` is the first position where the needle occurs, or none when it occurs nowhere |
| TokenLabeler.OperatorsLongestFirst | mabel/utils/token_labeler.py:30-45 | in the operator table, no keyword comes before a longer keyword it is a prefix of, and no keyword repeats |
| TokenLabeler.Member | mabel/utils/token_labeler.py:22-26 | Python `in` is a substring test on strings, element equality on lists and key membership on dicts; TypeError for a scalar container, a non-string in a string, and a list or dict looked up in a dict; a string key is found exactly when the dict has it, and None, bools and ints never are |
| TokenLabeler.FunctionIn | mabel/utils/token_labeler.py:22-23 | `function_in(x, y)` is `x in y` |
| TokenLabeler.FunctionContains | mabel/utils/token_labeler.py:25-26 | `function_contains(x, y)` is `y in x` |
| TokenLabeler.ContainsIsFlippedIn | mabel/utils/token_labeler.py:22-26 | CONTAINS is IN with its operands swapped, and a string contains every substring of itself |
| TokenLabeler.Keyword | mabel/utils/token_labeler.py:103-121 | an identifier's kind is BOOLEAN for TRUE/FALSE, NULL for NULL/NONE, AND/OR/NOT/AS for those words, and VARIABLE otherwise |
| TokenLabeler.Classify | mabel/utils/token_labeler.py:70-123 | the classifier fails only on an empty token; backticks give VARIABLE, `*` alone gives EVERYTHING, DATE needs a quoted ISO date, and COMMA is never returned |
| TokenLabeler.ClassifyByFirstRule | mabel/utils/token_labeler.py:70-123 | the classifier assigns the kind of the first rule, in source order, whose test accepts the token, and the last rule accepts every token |
| TokenLabeler.IdentifierKinds | mabel/utils/token_labeler.py:103-121 | an identifier-shaped token that no earlier rule claims gets its keyword kind, matched case-insensitively |
| TokenLabeler.IdentifiersIgnoreCase | mabel/utils/token_labeler.py:103-121 | two spellings of an identifier that differ only in letter case get the same kind |
| TokenLabeler.QuotedKinds | mabel/utils/token_labeler.py:88-94 | a quoted token that names no function, operator or aggregator is DATE exactly when its interior parses as ISO 8601, and LITERAL otherwise |
| TokenLabeler.NeverStuck | mabel/utils/token_labeler.py:225-226 | every fragment takes one of the repair loop's earlier branches, so TokenError is never raised |
| TokenLabeler.Step | mabel/utils/token_labeler.py:189-226 | one repair step fails exactly on the unreachable branch |
| TokenLabeler.FixQuotesOk | mabel/utils/token_labeler.py:189-226 | the repair pass never fails, and everything it yields is non-blank |
| TokenLabeler.NoQuotesPassThrough | mabel/utils/token_labeler.py:196-202 | without quotes, the repair pass only drops the blank fragments |
| TokenLabeler.Collecting | mabel/utils/token_labeler.py:221-223 | while a literal is open, inside fragments are appended raw to it and yield nothing |
| TokenLabeler.LiteralAssembled | mabel/utils/token_labeler.py:208-223 | an opening fragment, inside fragments and a closing fragment are yielded as one literal: the three concatenated, blank fragments excepted |
| TokenLabeler.UnterminatedDropped | mabel/utils/token_labeler.py:215-223 | a literal still open at the end of the fragments is silently discarded |
| TokenLabeler.LiteralAssembledCorrected | mabel/utils/token_labeler.py:204-223 | the corrected pass yields a literal as every fragment from its opening to its closing, concatenated |
| TokenLabeler.CorrectedAgreesWithoutQuotes | mabel/utils/token_labeler.py:189-226 | where no fragment starts a quote, the corrected pass agrees with the original |
| TokenLabeler.QuotedFragmentEscapes | mabel/utils/token_labeler.py:204-206 | a fully quoted fragment inside an open literal is yielded on its own, ahead of the literal around it |
| TokenLabeler.QuotedFragmentEscapesBetween | mabel/utils/token_labeler.py:204-206 | with plain fragments on both sides of the quoted one, the plain ones stay in the literal and the quoted one is yielded ahead of it |
| TokenLabeler.QuotedFragmentKeptBetween | mabel/utils/token_labeler.py:204-206 | the corrected pass keeps all three inner fragments in the literal, in order |
| TokenLabeler.QuotedFragmentEscapesExample | mabel/utils/token_labeler.py:204-206 | `"a ('x') b"`, which the splitter cuts at `(` and `)` into five fragments, is repaired into `'x'` and `"a () b"`, and into the whole literal once corrected |
| TokenLabeler.QuotedFragmentKept | mabel/utils/token_labeler.py:204-206 | the corrected pass keeps the quoted fragment inside the literal around it |
| TokenLabeler.BlankInsideLiteralDropped | mabel/utils/token_labeler.py:196-198 | a blank fragment between two split points inside a literal is dropped from it |
| TokenLabeler.BlankInsideLiteralDroppedExample | mabel/utils/token_labeler.py:196-198 | the fragments of the literal `'( *'` are repaired into `'(*'`, and into `'( *'` once corrected |
| TokenLabeler.BlankInsideLiteralKept | mabel/utils/token_labeler.py:196-198 | the corrected pass keeps the blank fragment inside the literal |
| TokenLabeler.New | mabel/utils/token_labeler.py:164-171 | a new tokenizer holds the fragments, no tokens or kinds yet, and its cursor at 0 |
| TokenLabeler.Tokenize | mabel/utils/token_labeler.py:228-235 | after `tokenize`, every token is non-empty and stripped, each token has a kind, and the kind is the classifier's |
| TokenLabeler.TokensAreRepairedFragments | mabel/utils/token_labeler.py:228-235 | the tokens are exactly the repaired fragments, stripped, in order |
| TokenLabeler.TokensWithoutQuotes | mabel/utils/token_labeler.py:228-235 | without quotes, the tokens are the non-blank fragments, stripped |
| TokenLabeler.Peek | mabel/utils/token_labeler.py:177-178 | `peek()` is the token under the cursor, IndexError past the end, and TypeError before `tokenize` |
| TokenLabeler.Next | mabel/utils/token_labeler.py:173-175 | `next()` advances the cursor by one and returns the token it passed over |
| TokenLabeler.HasNext | mabel/utils/token_labeler.py:180-181 | `has_next()` holds exactly when the cursor is before the end of the tokens |
| TokenLabeler.NextTokenType | mabel/utils/token_labeler.py:183-184 | `next_token_type()` is the kind of the token under the cursor |
| TokenLabeler.CursorLaws | mabel/utils/token_labeler.py:173-187 | `next` returns what `peek` would have and moves one place; `has_next` holds exactly when `peek` succeeds; after `tokenize`, tokens and kinds line up |
| TokenLabeler.WalkReadsInOrder | mabel/utils/token_labeler.py:173-181 | `n` calls of `next()` read the next `n` tokens in order and leave the cursor `n` places on |

## Left out

- `sample` in `dictset.py` and `relation.py`: it draws from `os.urandom`.
- `mean`, `variance` and `standard_deviation`: floating-point `statistics` calls.
- Conversion and display code, which goes through pyarrow, pandas and file I/O:
  - `serialize`, `deserialize`, `load`, `to_json`, `to_pandas`;
  - `__repr__`, the ASCII and HTML tables;
  - the `columns` property.
  `collect_list`'s use of `columns` is modelled as a schema lookup.
- `query`, the `Filters` and `DnfFilters` evaluators, `Expression` and
  `GroupBy`: their code is not part of this model. The DNF filter is a given
  function from rows to rows.
- `min_max`, `collect_column`, `collect_set`, `group_by` and `aggregate` of
  the internal `Relation`, and `min_max` of `DictSet`: they are outside the
  modelled core.
- The relation's `name`, and the cursor property: bookkeeping with no
  behaviour of its own.
- mmap, NamedTemporaryFile, `atexit` and `__del__` cleanup of spill files:
  operating-system resources. A spill is modelled by its bytes.
- `__iter__`, `__next__` and `DumbIter`: plain delegation to the source,
  modelled by `DictSets.Contents`.
- `build_splitter`: the regex is not evaluated. The tokenizer starts from the
  splitter's fragments. `tokenize`'s `split` is therefore a given list.
- `__str__` of the tokenizer: display only. `next_token_value` is the same
  as `peek` and is not modelled separately.
- `like` and `not_like`, and the operator functions in `OPERATORS`: these
  are not evaluated. The table is kept for its keywords and their order.
- TokenLabeler.Upper: only ASCII letters are upper-cased. Python's
  `str.upper` also maps other letters, some to two characters (`ß`, `ﬁ`).
- TokenLabeler.Member: list membership uses the model's structural equality
  of values. Python also treats `True == 1`, and dicts equal regardless of
  key order. Whether an uninterpreted value (a float, a set, ...) is a key of
  a dict, or raises TypeError because it is unhashable, is left to the
  `otherIn` parameter.
- TokenLabeler.Classify: the identifier regex's first character is given as
  the `wordStart` predicate of the lexicon, not derived from Unicode
  categories.
- InternalRelation.New: a mutable default schema shared between calls is
  not modelled. Every call receives its schema explicitly.
- InternalRelation.FetchMany: generator consumption is not threaded through
  `Relation` operations. Each operation sees the relation's full data, as if
  the data were listed.
- DictSets.Create: errors that Python raises lazily, when a generator is
  first advanced, are reported when the operation is called.
- DictSets.Take: for a NO_PERSISTANCE parent over a generator, the model
  pulls the taken records (and the extra one `itake` reads) from the parent
  when `take` is called. Python's child wraps the lazy `itake` generator, so
  the parent is advanced only as the child is iterated; a `first()` on the
  parent in between sees different records. MEMORY and DISK children list
  their source at construction, so they agree with the model.
- DictSets.Select: for a NO_PERSISTANCE parent over a generator, the model
  drains the parent when `select` is called, while Python's `inner_select`
  reads the parent only as the child is iterated.
- DictSets.FilterRecordsCorrected: the same early draining of a
  NO_PERSISTANCE parent as `Select`.
- DictSets.DistinctCorrected: the same early draining of a NO_PERSISTANCE
  parent as `Select`.
- InternalRelation.ApplyProjection: the IndexError or KeyError of
  `_inner_projection` is reported when `apply_projection` is called. Python
  raises it only when the projected data are consumed.
- InternalRelation.Distinct: the TypeError of `hash` on a tuple holding a
  list or a dict is reported when `distinct` is called, not when the
  generator reaches that tuple. Other unhashable Python values (sets,
  bytearrays) are `Other` values and are treated as hashable.
- InternalRelation.RenameAttribute: Python renames the schema dict in place
  and returns None, so a relation sharing that dict (such as the result of
  `distinct`) is renamed too. The model returns a new relation and treats
  every schema as a private copy.
- SqlRelation.ApplyProjection: the IndexError of `_inner_projection` is
  reported when `apply_projection` is called, not when the projected data
  are consumed.
- SqlRelation.ToDictset: the IndexError of `_inner_to_dictset` is reported
  when `to_dictset` is called, not when the set is first iterated.
- Aggregates.Less: floats, datetimes and other uninterpreted values are
  `Other` and never comparable, and lists are not ordered. Python orders
  floats with ints, datetimes with datetimes and lists lexicographically, so
  the model gives TypeError where Python compares.
- Aggregates.Sum: a float in the column gives TypeError in the model, while
  Python adds it (with floating-point rounding, which the model does not
  have). Only ints and bools are added.
- Aggregates.Max: float, datetime and list columns give TypeError in the
  model, as for `Aggregates.Less`, while `reduce(max, ...)` orders them.
- Aggregates.Min: float, datetime and list columns give TypeError in the
  model, as for `Aggregates.Less`, while `reduce(min, ...)` orders them.
- DictSets.Sum: a column holding a float fails as in `Aggregates.Sum`.
- DictSets.Max: a float, datetime or list column fails as in `Aggregates.Max`.
- DictSets.Min: a float, datetime or list column fails as in `Aggregates.Min`.
- InternalRelation.Sum: a column holding a float fails as in `Aggregates.Sum`.
- InternalRelation.Max: a float, datetime or list column fails as in `Aggregates.Max`.
- InternalRelation.Min: a float, datetime or list column fails as in `Aggregates.Min`.
- DiskIterator.Write: the bytes of `orjson.dumps` are a parameter. Floats,
  datetimes and other non-JSON values are not distinguished.

## Findings

| source | as written | input that shows it | evidently intended | confidence | as-written member | corrected member |
|---|---|---|---|---|---|---|
| mabel/data/internals/dictset.py:119 | `self._iterator == list(self._iterator)` compares instead of assigning, so a generator is drained and its records lost | a NO_PERSISTANCE set over a one-record generator, persisted to MEMORY | replace the source by its list | not executed | DictSets.PersistLosesRecords | DictSets.PersistCorrectedKeepsRecords |
| mabel/data/internals/dictset.py:271-277 | `do_dedupe` adds a hash only when it is already present, so nothing is ever removed | a record appearing twice | add each new hash and skip records whose hash is present | not executed | DictSets.DuplicateSurvives | DictSets.DistinctCorrected |
| mabel/data/internals/dictset.py:409 | `filter`, `dnf_filter` and `distinct` pass the storage class positionally to a constructor whose `storage_class` is keyword-only | any set and any predicate | pass `storage_class=` by keyword | not executed | DictSets.FilterRecords | DictSets.FilterRecordsCorrected |
| mabel/data/internals/dictset.py:301 | `if last_value` treats a surrogate key of 0 as "no previous key" | two records with keys 0 and 1 | compare with `is not None` | not executed | GroupIndex.ZeroKeyMerges | GroupIndex.RunsGrouped |
| mabel/data/internals/dictset.py:312-317 | when no record has the column, the final yield looks up `group_keys[None]` | a set whose records lack the column | yield no group | not executed | DictSets.IGroupByNoColumn | DictSets.IGroupByCorrected |
| mabel/data/internals/dictset.py:335-338 | `for i, r in self._iterator` unpacks each record instead of enumerating, so no requested record is yielded | a generator of one two-key record, position 0 | `for i, r in enumerate(self._iterator)` | not executed | DictSets.GetItemsMissesRequested | DictSets.GetItemsCorrected |
| mabel/data/internals/disk_iterator.py:67-68 | `length` is the last enumerate index, one less than the number of records | a spill of one record has `__len__` 0 | the number of records written | not executed | DiskIterator.Write | DiskIterator.CorrectedLenCountsRecords |
| mabel/data/internals/relation.py:134-141 | the projected schema follows the request order while the tuples follow schema order | relation `a, b` projected onto `b, a` | build the schema in schema order | not executed | InternalRelation.ProjectionMislabels | InternalRelation.ProjectionCorrectedFetch |
| mabel/data/internals/relation.py:216 | renaming moves the attribute to the end of the schema, but the tuples are not reordered | relation `a, b` with `a` renamed to `c` | reorder the tuples with the schema | not executed | InternalRelation.RenameMislabels | InternalRelation.RenameCorrectedFetch |
| mabel/data/internals/relation.py:291-292 | `fetchmany` reads the schema keys before `materialize` infers the schema | a generator of dicts with no schema | read the keys after materialising | not executed | InternalRelation.FetchManyStaleKeys | InternalRelation.FetchManyMatchesFetchOne |
| mabel/data/readers/sql/relation.py:82-84 | `from_dictset` calls `dictset.types()` and `collect_list()`, which `DictSet` does not have | any `DictSet` | read the header and the records from the set | not executed | SqlRelation.FromDictsetFails | SqlRelation.ToDictsetAfterFromDictset |
| mabel/utils/token_labeler.py:204-206 | a fully quoted fragment is yielded on its own even while a literal is open | `"a ('x') b"`, split at `(` and `)` | append it to the open literal | not executed | TokenLabeler.QuotedFragmentEscapesExample | TokenLabeler.QuotedFragmentKept |
| mabel/utils/token_labeler.py:196-198 | blank fragments are dropped even while a literal is open, so the literal loses its spaces | the fragments of `'( *'` | append it to the open literal | not executed | TokenLabeler.BlankInsideLiteralDroppedExample | TokenLabeler.BlankInsideLiteralKept |
