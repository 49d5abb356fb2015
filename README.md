# ranking_watcher in Dafny

`ranking_watcher.py` polls a rankings page. It extracts the ranking rows, first from the page's HTML table and otherwise from JSON embedded in its scripts. It renders the rows as a canonical text, hashes that text, and posts a report only when the hash differs from the last one posted.

This project models the deterministic core of that program and proves properties of it:

- the two HTML parser classes, as state machines driven by tokeniser events;
- the conversion of JSON values into ranking entries, and the walk over a JSON tree;
- the first-seen dedup and the table, then JSON, then error fallback;
- the canonical text and its inverse;
- the polling cycle's decision to post and the state it keeps.

Modules, one per file:

- `Ranking` (ranking.dfy): the `RankingEntry` record, the tokeniser's `Event`s (`StartTag`, `EndTag`, `Data`), `Option`, and `RunWith`, which feeds events to any event handler; both parsers' `Run` are `RunWith` of their own handler.
- `PyText` (pytext.dfy): the parts of Python's `str` the program relies on. These are `strip()` over Python's whitespace set, `split()`, `" ".join`, and `str()` of a natural number.
- `TableExtractor` (table_extractor.dfy): `RankingTableParser` as a class with the source's six fields, and `parse_rankings_from_table`. The pure `TableState` and its `Step`/`Run` functions are the specification its methods are proved against.
- `ScriptExtractor` (script_extractor.dfy): `ScriptContentParser`, built the same way.
- `JsonEntries` (json_entries.dfy): parsed JSON as a datatype, with a mapping kept as an ordered member list. Also `first_present`, `try_convert_dict_list_to_entries`, and `extract_entries_from_json` with its recursive `walk`.
- `Extraction` (extraction.dfy): `parse_rankings_from_embedded_json` (candidate collection and the dedup loop) and the fallback of `fetch_rankings`.
- `ChangeDetector` (change_detector.dfy): `normalize_entries`, the `main` loop's cycle as a `Watcher` class, and the interval check.

The source's HTML tokeniser, `extract_json_payloads`, `content_hash` and the `str()` of JSON lists and mappings are not modelled. The model takes them as inputs:

- an event sequence instead of the tokeniser;
- a function from script text to JSON values (`extract`);
- a function `hash: string -> string`;
- a function `repr: Json -> string`.

Four behaviours of the code are easy to miss. The model follows the code in each of them:

- **Later tables.** The table parser does not stop after the first table. The `<table>` test at `ranking_watcher.py:41` only asks whether a table is open, so after `</table>` a later `<table>` is entered again (`TwoTablesBothExtracted`).
- **Nested tables.** The start tag of a nested `<table>` is ignored (`ranking_watcher.py:41`), and the nested table's own rows are collected as rows of the outer table. A nested `<tr>` starts a fresh row over an open outer one, so the outer row's cells so far are lost, and a nested `<td>` drops the open cell's chunks (`ranking_watcher.py:48-53`, `NestedRowDiscardsOuter`). The nested `</table>` closes the outer table (`ranking_watcher.py:74-75`). From then on no new cell and no chunk is taken until the next `<table>` (`ranking_watcher.py:45-46`, `56`). A cell or row already open is still closed and kept by the next `</td>` and `</tr>`, which do not ask whether a table is open (`NestedTableInCell`, `ClosedTableTakesNoCell`). With no row open, nothing more is collected at all (`NestedTableEndsExtraction`).
- **Blank names.** The check at `ranking_watcher.py:205` only asks whether a name is present, so a name that consists only of whitespace is accepted and becomes the empty string (`BlankNameAccepted`).
- **Numbering.** A missing position is numbered by the count of entries accepted so far, plus one (`ranking_watcher.py:208-209`). So `A`, `B` (position 9), `C` are numbered "1", "9", "3", not "1", "9", "2" (`NumberingExample`).

## Model

| member | source | states |
|---|---|---|
| PyText.StripSpec | ranking_watcher.py:88-92 | `str.strip()` removes exactly the leading and trailing Python whitespace: the result is a contiguous slice flanked by whitespace only, and it is empty iff the text is all whitespace |
| PyText.StripIdempotent | ranking_watcher.py:213-215 | stripping a stripped text changes nothing |
| PyText.CollapseSpec | ranking_watcher.py:61 | `" ".join(t.split())` leaves only single spaces between non-space runs, keeps exactly the words of `t`, and is idempotent |
| PyText.NatToStringRoundTrip | ranking_watcher.py:209 | `str(n)` of a natural number is a non-empty digit string whose decimal value is `n` |
| PyText.NatToStringInjective | ranking_watcher.py:209 | distinct numbers get distinct position strings |
| TableExtractor.RankingTableParser.constructor | ranking_watcher.py:31-38 | a new parser has all flags false and all buffers empty |
| TableExtractor.RankingTableParser.HandleStartTag | ranking_watcher.py:40-53 | the new state is `OnStartTag` of the old one: the first `<table>` opens the table, `<tr>` inside it opens an empty row, `<td>` inside a row opens an empty cell |
| TableExtractor.RankingTableParser.HandleData | ranking_watcher.py:55-57 | a chunk is kept only when table, row and cell are all open |
| TableExtractor.RankingTableParser.HandleEndTag | ranking_watcher.py:59-75 | `</td>` appends the collapsed cell text, `</tr>` appends a non-empty row, `</table>` closes the table, each only when its element is open |
| TableExtractor.RankingTableParser.Feed | ranking_watcher.py:30-75 | feeding events leaves the parser in `Run` of its old state over those events |
| TableExtractor.ParseRankingsFromTable | ranking_watcher.py:106-116 | the loop returns `RowsToEntries` of the parsed rows |
| TableExtractor.RowsToEntriesMember | ranking_watcher.py:111-114 | an entry is in the result iff some row with at least 3 cells has it as cells 0, 1 and 2 |
| TableExtractor.RowsToEntriesAppend | ranking_watcher.py:111-114 | rows are mapped in order: the entries of `a + b` are those of `a` followed by those of `b` |
| TableExtractor.RowToEntry | ranking_watcher.py:112-114 | a row of 3 or more cells gives the entry of its first three cells; a shorter row gives nothing |
| TableExtractor.StepWellFormed | ranking_watcher.py:40-75 | each event keeps every kept row non-empty and every cell text, kept or in the open row, whitespace-collapsed; it either leaves the rows alone or appends the current row |
| TableExtractor.RunWellFormed | ranking_watcher.py:40-75 | rows are only ever appended |
| TableExtractor.TableRowsWellFormed | ranking_watcher.py:61-70 | every collected row is non-empty and every cell text is whitespace-collapsed |
| TableExtractor.IdleUntilTable | ranking_watcher.py:45-46 | outside a table, nothing changes until a `<table>` start tag, so a `<tr>` outside any table adds nothing |
| TableExtractor.CellsRun | ranking_watcher.py:51-63 | the events of a row's cells append the collapsed text of each cell to the current row |
| TableExtractor.RowRun | ranking_watcher.py:48-70 | a rendered row adds its collapsed cells as one row when it has any cells, and nothing otherwise |
| TableExtractor.RowsRun | ranking_watcher.py:40-75 | rendered rows inside an open table add `ExtractedRows` of them |
| TableExtractor.TableRun | ranking_watcher.py:40-75 | a whole rendered table adds `ExtractedRows` and leaves the parser outside the table |
| TableExtractor.RegularTableEntries | test_ranking_watcher.py:7-19 | a rendered table whose rows have at least 3 cells yields one entry per row, in order, built from each row's collapsed first three cells |
| TableExtractor.ExtractedEntries | ranking_watcher.py:111-114 | the entries of extracted rows of 3 or more cells are their collapsed first three cells, in order |
| TableExtractor.TwoTablesBothExtracted | ranking_watcher.py:41-43 | two consecutive tables both contribute their rows |
| TableExtractor.NestedTableEndsExtraction | ranking_watcher.py:40-75 | a nested `<table>` start tag is ignored and its `</table>` closes the outer table; with no row open, no later row is collected unless another table starts |
| TableExtractor.NestedRowDiscardsOuter | ranking_watcher.py:40-53 | inside an open row, a nested `<table>` changes nothing, its `<tr>` empties the open row and its `<td>` opens an empty cell |
| TableExtractor.ClosedTableTakesNoCell | ranking_watcher.py:45-75 | after a nested `</table>` with a row open, a `<td>`, its chunk and its `</td>` are ignored, and `</tr>` keeps the row with only the cells it held, when it has any |
| TableExtractor.NestedTableInCell | ranking_watcher.py:59-75 | a nested table's start and end tags met inside an open cell leave that cell and its row to be closed and kept by the following `</td>` and `</tr>` |
| ScriptExtractor.ScriptContentParser.constructor | ranking_watcher.py:79-82 | a new parser is outside any script and holds no text |
| ScriptExtractor.ScriptContentParser.HandleStartTag | ranking_watcher.py:84-86 | the new state is `OnStartTag`: `<script>` opens a script |
| ScriptExtractor.ScriptContentParser.HandleData | ranking_watcher.py:88-92 | inside a script, the stripped chunk is appended unless it is empty |
| ScriptExtractor.ScriptContentParser.HandleEndTag | ranking_watcher.py:94-96 | `</script>` closes the script |
| ScriptExtractor.ScriptContentParser.Feed | ranking_watcher.py:78-96 | feeding events leaves the parser in `Run` of its old state |
| ScriptExtractor.CollectScripts | ranking_watcher.py:120-121 | a fresh parser fed the page holds `ScriptsOf(events)` |
| ScriptExtractor.RunCollects | ranking_watcher.py:88-92 | texts are only appended, and each appended text is non-empty and stripped |
| ScriptExtractor.RunProvenance | ranking_watcher.py:88-92 | every appended text is the stripped text of some data event |
| ScriptExtractor.ScriptsAreClean | ranking_watcher.py:78-96 | every collected script text is non-empty, has nothing left to strip, and comes from a data event of the page |
| ScriptExtractor.IdleUntilScript | ranking_watcher.py:84-92 | outside a script nothing is collected until a `<script>` tag |
| ScriptExtractor.ScriptBlock | ranking_watcher.py:84-96 | `<script>t</script>` adds the stripped `t`, or nothing when `t` is blank |
| ScriptExtractor.SingleScript | test_ranking_watcher.py:21-33 | a page with one non-blank script yields exactly that script's stripped text |
| JsonEntries.GetSpec | ranking_watcher.py:224 | member lookup finds nothing iff no member has the key, and otherwise the first member that has it |
| JsonEntries.FirstPresentSpec | ranking_watcher.py:222-226 | `first_present` is `None` iff no key in the list has a usable value (present, not null, not `""`), and otherwise it is the value of the earliest such key |
| JsonEntries.IntToString | ranking_watcher.py:213-215 | `str()` of an `int` starts with a minus sign exactly when it is negative, and the digits that follow read back to its magnitude |
| JsonEntries.StringifySpec | ranking_watcher.py:213-215 | `str()` spells `None`, `True` and `False` as Python does, keeps a string as it is, renders an `int` so that it reads back, and uses the list and mapping rendering for nothing else |
| JsonEntries.FirstPresentUsable | ranking_watcher.py:224-225 | a returned value is never null or the empty string |
| JsonEntries.FindFirstPresent | ranking_watcher.py:222-226 | the loop with early return computes `FirstPresent` |
| JsonEntries.ConvertDictList | ranking_watcher.py:193-219 | the conversion loop computes `TryConvert` |
| JsonEntries.TryConvertSpec | ranking_watcher.py:193-219 | the answer is `None` iff the node is not a list, is empty, holds a non-mapping, or accepts no item; otherwise it is the non-empty result of the loop |
| JsonEntries.SkippedItem | ranking_watcher.py:205-206 | an item without a usable name or points adds nothing |
| JsonEntries.AcceptedItem | ranking_watcher.py:208-217 | an item with a name and points adds exactly one entry after the earlier ones; a present position is stringified and stripped, a missing one becomes the number of entries accepted before it plus one; name and points are stringified and stripped |
| JsonEntries.ConvertedBound | ranking_watcher.py:200-217 | there are never more entries than items |
| JsonEntries.ConvertedTrimmed | ranking_watcher.py:213-215 | every field of every converted entry is stripped |
| JsonEntries.BlankNameAccepted | ranking_watcher.py:201-214 | a name of only whitespace is accepted, and the entry's name is empty |
| JsonEntries.NumberingExample | ranking_watcher.py:208-209 | items A, B (position 9) and C get positions "1", "9", "3" |
| JsonEntries.HereEntries | ranking_watcher.py:175-185 | computes what a node contributes itself: a non-empty all-mapping list is converted, a mapping's `"data"` value is converted, and `None` contributes nothing |
| JsonEntries.Walk | ranking_watcher.py:174-187 | `walk` appends `Walked(node)` to the results: the node's own entries, then each child's walk in order |
| JsonEntries.WalkItems | ranking_watcher.py:180-181 | the loop over list items appends the walks of the items in order |
| JsonEntries.WalkValues | ranking_watcher.py:186-187 | the loop over mapping values appends the walks of the values in member order |
| JsonEntries.ExtractEntriesFromJson | ranking_watcher.py:171-190 | the result is `Walked(payload)` |
| JsonEntries.DataListTwice | ranking_watcher.py:182-187 | a mapping whose `"data"` is a non-empty list of mappings yields that list's entries first, through the lookup, and then again inside the walk of its values |
| JsonEntries.WalkedValuesAppend | ranking_watcher.py:186-187 | the values of a mapping are walked in order: the walk of `a + b` is that of `a` followed by that of `b` |
| JsonEntries.WalkedTrimmed | ranking_watcher.py:171-190 | every entry found anywhere in the walk has stripped position, name and points |
| JsonEntries.WalkedItemsScalars | ranking_watcher.py:174-187 | a list whose items are all null, booleans, numbers or strings contributes nothing to the walk |
| Extraction.DedupEntries | ranking_watcher.py:129-138 | the loop with its `seen` set computes `Dedup` |
| Extraction.DedupKeys | ranking_watcher.py:129-138 | the output holds exactly the candidates' triples |
| Extraction.DedupDistinct | ranking_watcher.py:129-138 | no two output entries share a triple |
| Extraction.DedupFirstOccurrences | ranking_watcher.py:131-136 | every output entry is the first candidate with its triple, and every such first candidate is in the output |
| Extraction.FirstKept | ranking_watcher.py:131-136 | a candidate that is the first with its triple is kept |
| Extraction.DedupPrefix | ranking_watcher.py:131-136 | the output for a prefix of the candidates is a prefix of the output, so entries come in first-occurrence order |
| Extraction.DedupOfDistinct | ranking_watcher.py:131-136 | candidates without repeated triples pass unchanged |
| Extraction.DedupAbsorbs | ranking_watcher.py:133-134 | candidates whose triples were already seen change nothing |
| Extraction.DedupTwice | ranking_watcher.py:129-138 | distinct entries found twice are kept once |
| Extraction.ParseRankingsFromEmbeddedJson | ranking_watcher.py:119-138 | the nested loops over scripts and payloads, then the dedup, compute `EmbeddedEntries` |
| Extraction.EmbeddedEntriesSpec | ranking_watcher.py:119-138 | the embedded-JSON result has no repeated triple, holds only candidates, and holds every candidate's triple |
| Extraction.SamePayloadTwice | test_ranking_watcher.py:21-37 | a script whose two payloads are the same object, as for the assignment in the test page, yields that object's entries once |
| Extraction.FetchRankingsFromPage | ranking_watcher.py:239-250 | the method computes `FetchRankings` and runs the JSON path only when the table gives nothing |
| Extraction.TableWins | ranking_watcher.py:239-241 | a non-empty table result is returned whatever the scripts hold |
| Extraction.FetchOutcome | ranking_watcher.py:239-250 | the fetch fails iff both extractions are empty; a returned list is never empty; with an empty table the JSON result is returned |
| ChangeDetector.SplitJoin | ranking_watcher.py:254 | splitting a join on its separator gives back the parts when no part holds the separator |
| ChangeDetector.NormalizeEntries | ranking_watcher.py:253-254 | no entries give the empty text, and one entry gives its `position\|name\|points` line |
| ChangeDetector.NormalizeAppend | ranking_watcher.py:253-254 | one line per entry in entry order, joined by newlines: the text of `a + b` is that of `a`, a newline, then that of `b` |
| ChangeDetector.NormalizeRoundTrip | ranking_watcher.py:253-254 | the canonical text of entries without `\|` or newline in their fields parses back to the same entries |
| ChangeDetector.NormalizeNonEmpty | ranking_watcher.py:253-254 | the canonical text is empty iff there are no entries |
| ChangeDetector.NormalizeInjective | ranking_watcher.py:253-254 | for such entries, equal canonical texts mean equal lists, so any change in order, count or content changes the text |
| ChangeDetector.NormalizeCollision | ranking_watcher.py:253-254 | a `\|` inside a field lets two different snapshots have the same canonical text |
| ChangeDetector.Watcher.constructor | ranking_watcher.py:362-363 | the watcher starts from the `last_hash` of the loaded state, if any |
| ChangeDetector.Watcher.Cycle | ranking_watcher.py:372-389 | one cycle updates the state as `CycleStep`: it saves the report, and it posts and records the hash when forced or when the hash changed |
| ChangeDetector.Watcher.Watch | ranking_watcher.py:358-397 | an interval under 30 returns exit code 2 and changes nothing; otherwise every poll runs one cycle and the exit code is 0 |
| ChangeDetector.CyclePosts | ranking_watcher.py:377-391 | a cycle posts iff the fetch succeeded, the post was due and delivery went through; then the hash is recorded in memory and in the state file, and otherwise neither changes; a failed fetch changes nothing |
| ChangeDetector.HashesAgree | ranking_watcher.py:386-387 | the state file always holds the hash kept in memory, given that every write succeeds |
| ChangeDetector.PostsAppend | ranking_watcher.py:379-387 | posted messages are only appended, and the hash changes only when a message is posted |
| ChangeDetector.NoRepost | ranking_watcher.py:379-389 | without `--always-post`, the same snapshot fetched again after it was posted is not posted again |
| ChangeDetector.PostsExactlyChanges | ranking_watcher.py:379-386 | without `--always-post`, and with no hash collision between the two, a snapshot is posted iff it differs from the last one posted |

## Left out

- `fetch_html`, `post_to_webhook` and `post_to_stdout` are network and console I/O. Whether a post went through is an input of each cycle.
- A failed page fetch is not modelled separately. The cycle treats it exactly like `ExtractionFailed`: nothing changes. The fetch's error message is not modelled.
- `save_report`, `save_state`, `load_state` and the debug HTML dump are file I/O. The output file and the state file appear as fields of the watcher. A corrupt state file, which crashes the program, is not modelled.
- `parse_args`, `time.sleep`, the console messages and the endless `while True` loop are CLI and timing plumbing. `Watch` runs one cycle per element of a finite `polls` sequence.
- `build_report` depends on the clock. Each cycle's report text is an input.
- `content_hash` (SHA-256) is a library call. It is the `hash` parameter, so collision freedom is assumed only where a lemma requires it.
- `extract_json_payloads` and `try_parse_json` depend on Python regular expressions and `json.loads`. They are the `extract` parameter.
- The HTML tokeniser of `html.parser` is a library. The parsers consume an `Event` sequence, and tag attributes are dropped because no handler reads them.
- JsonEntries.Stringify: Python's `str()` of a JSON list or mapping goes through the `repr` parameter. A float keeps the text it had in the payload, not Python's float formatting.
- ChangeDetector.CycleStep: the output write, the state write and `content_hash` are assumed to succeed. So the model does not capture three failure paths. A `save_report` failure at `ranking_watcher.py:377` raises before the post decision, so nothing is posted that cycle. `last_hash` is set at line 386 before `save_state` at line 387, so a failing state write leaves the hash in memory and the state file different; `HashesAgree` holds only because writes succeed. `content_hash` at line 266 raises `UnicodeEncodeError` on a text holding a lone surrogate, which the total `hash` parameter and Dafny's `char` cannot represent.
- A JSON mapping is an ordered member list, and lookup takes the first member with the key. `json.loads` keeps the last of duplicate keys, so payloads with duplicate keys are not modelled.
