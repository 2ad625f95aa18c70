# openEHRbunny core, modelled in Dafny

openEHRbunny is a data-quality report generator for openEHR data. It
compiles an operational template (OPT) into a list of (jsonpath, label)
pairs. It evaluates every jsonpath over a folder of JSON compositions and
records, for each path, how often it is empty, which scalar values it takes,
and how varied they are. It then lays out one table per archetype, one
(value, frequency) column pair per path.

This project models that core and proves properties of it:

- `common.dfy`: Python's f-string rendering of `None`, `str.strip()`, and
  the first-seen key order of an insertion-ordered dict.
- `template.dfy`: the OPT tree once parsed. A node (`children` element) has
  an optional `node_id`, its `xsi:type`, an optional `rm_type_name`, an
  optional `archetype_id/value`, its attribute containers and its term
  definitions. A container (`attributes` element) has an
  `rm_attribute_name`, a multiple/single flag and its children. The XPath
  queries the source runs (`.//children[@xsi:type='C_ARCHETYPE_ROOT']`,
  `.//term_definitions`) are written as functions over the tree.
- `terminology.dfy`: `extract_local_term_definitions`. It is a method with
  the source's nested loops, proved equal to a fold over the definitions,
  with lemmas on which keys are written and which write wins.
- `path_compiler.dfy`: the `DV_TYPE_ATTRIBUTES` table, `build_jsonpaths`
  (recursion returning a sequence; the XML parent of a node is passed
  explicitly) and `extract_jsonpaths_from_opt`.
- `path_properties.dfy`: the traversal shape, the number of entries, the
  ELEMENT expansion, label scope, and the anchoring of every path at `$.`.
- `aggregator.dfy`: `evaluate_jsonpaths`. There are methods for the
  document loop, the frequency counter and the per-expression loop, each
  proved against specification functions. The lemmas cover bounds, counts,
  order and the key that wins for a repeated expression.
- `report.dfy`: `extract_arquetipo` as a leftmost search for the pattern,
  the grouping of summary rows by archetype, and the pivot of one group
  into a header and padded rows.

### Source behaviour the model keeps

- A node without `node_id` ends the walk: its whole subtree emits nothing
  (lines 84-86).
- The root passed in by `extract_jsonpaths_from_opt` always sits in the
  definition's `attributes` element. So its path is `$.<attr>[pred]` or
  `$.<attr>`. The root-only `elif is_root` branch (line 111) is unreachable
  from there.
- The "sort by frequency" on line 192 runs on the JSON string that line 187
  produced. The key function fails on its first character, the exception is
  swallowed, and the values keep first-seen order. When there are no
  observations, `sorted("")` turns the empty string into the empty list.
  `ValuesOf` and `ValuesKeepFirstSeenOrder` state this.
- With zero JSON files, line 198 divides by zero outside any `try`, so a
  parsable expression with no documents fails. `Fits` demands at least one
  document exactly when the expression parsed.
- From `extract_local_term_definitions`, the resolver's root id has three
  cases (line 64):
  - `UNKNOWN` when `archetype_id/value` is absent;
  - Python's `None` when that element is present but empty. The model
    uses the text `None` for it, because every use of the id is an f-string
    (lines 70, 96 and 116; line 135 only passes it on), which renders
    `None` as that text;
  - the id itself otherwise.
- An embedded block without an id is filed under `None` (lines 50-51, 59).
- The root's items loop (lines 66-68) is nested inside a loop over the same
  items. It repeats one pass, which gives the same map as a single pass
  (`StoreItemsTwice`).
- `.//term_definitions` lists a block's nested definitions before its own,
  following the OPT schema, which puts `attributes` before
  `term_definitions`.
- Only the `at0000` slot predicate names an archetype on
  `archetype_details.archetype_id.value`. A root's predicate uses
  `archetype_node_id`.
- Paths under a slot nested inside another slot go to the outermost slot's
  table. `extract_arquetipo` (line 217) takes the leftmost slot predicate
  of the path, as `SlotArchetype` and `NestedSlotGoesOuter` state.

## Model

| member | source | states |
|---|---|---|
| Common.Strip | src/openEHRbunny.py:59 | the stored text is a contiguous slice of the item text with only whitespace removed around it, and neither end of the result is whitespace |
| Common.FirstSeen | src/openEHRbunny.py:183-187 | dict key order: the same elements as the input, each once, never more than the input holds |
| Common.FirstSeenOrder | src/openEHRbunny.py:183-187 | keys are listed in the order of their first occurrence |
| Template.EmbeddedRootsAreRoots | src/openEHRbunny.py:49 | every block the descendant query selects is a C_ARCHETYPE_ROOT |
| Template.EmbeddedRootsReachChild | src/openEHRbunny.py:49 | a child that is a C_ARCHETYPE_ROOT is selected, and so is every block selected below any child, so archetype roots at any depth are read |
| Terminology.EmbeddedId | src/openEHRbunny.py:50-51 | definition: the id an embedded block is filed under, `None` when absent or empty; used by `EmbeddedTermsKeys` |
| Terminology.RootId | src/openEHRbunny.py:63-64 | definition: `UNKNOWN` when absent, `None` when empty, else the id; `ExtractLocalTermDefinitions` returns it and `RootScope` relates it to the compiler's scope |
| Terminology.TermMapOf | src/openEHRbunny.py:45-70 | definition: the embedded blocks' map, then the root's definitions; its keys and values are stated by `TermMapRootWins`, `TermMapRootEntry`, `TermMapEmbeddedEntry`, `EmbeddedTermsKeys` and `EmbeddedTermsLastWins` |
| Terminology.ExtractLocalTermDefinitions | src/openEHRbunny.py:45-78 | returns the root id (UNKNOWN when absent) and the map built by storing every embedded block's definitions, then the root's own |
| Terminology.StoreBlock | src/openEHRbunny.py:53-59 | one embedded block's definitions stored in order under its id |
| Terminology.StoreTexts | src/openEHRbunny.py:57-59 | one pass over a definition's items, every qualifying item overwriting the key |
| Terminology.StoreItemsOverride | src/openEHRbunny.py:57-59 | a pass over items replaces what the starting map holds and keeps the rest |
| Terminology.StoreItemsTwice | src/openEHRbunny.py:65-70 | repeating the items pass once per item gives the same map as one pass |
| Terminology.StoreDefsOverride | src/openEHRbunny.py:62-70 | the root's definitions override earlier entries and keep every other one |
| Terminology.StoreItemsKeys | src/openEHRbunny.py:57-59 | a pass writes its key exactly when some item has id `text` and non-empty text |
| Terminology.StoreItemsValue | src/openEHRbunny.py:58-59 | the value written is the stripped text of a qualifying item |
| Terminology.StoreItemsLast | src/openEHRbunny.py:57-59 | each qualifying item overwrites the key, so the value is the stripped text of the last qualifying item |
| Terminology.StoreDefsKeys | src/openEHRbunny.py:54-59 | the keys written are `scope:code` for exactly the definitions with a qualifying item |
| Terminology.StoreDefsValue | src/openEHRbunny.py:54-59 | every value under a key is the stripped text of a qualifying item of a definition with that code |
| Terminology.StoreDefsLast | src/openEHRbunny.py:54-59 | among the definitions filed under one key, the last one that writes it decides the value |
| Terminology.TermMapRootWins | src/openEHRbunny.py:62-70 | the term map is the embedded blocks' map overridden by the root's entries |
| Terminology.TermMapRootEntry | src/openEHRbunny.py:63-70 | a key the root defines holds the stripped text of one of the root's own items |
| Terminology.TermMapRootLast | src/openEHRbunny.py:62-70 | a key the root defines holds the stripped text of the last qualifying item of the last root definition with that code |
| Terminology.TermMapEmbeddedEntry | src/openEHRbunny.py:49-59 | any other key is present in the embedded blocks' map and keeps its value from there |
| Terminology.EmbeddedTermsKeys | src/openEHRbunny.py:49-59 | a key is in the embedded blocks' map exactly when some block's subtree, nested definitions included, has a qualifying definition filed under that block's id |
| Terminology.EmbeddedTermsLastWins | src/openEHRbunny.py:49-59 | a key written by several blocks holds what the last of them stored |
| Terminology.EmbeddedTermsLast | src/openEHRbunny.py:49-59 | for a key block `b` writes last, the value is the last qualifying item of the last definition in `b`'s subtree with that code; the block's own definitions come last, so its own labels win over its nested archetypes' |
| Terminology.DefsWithinChild | src/openEHRbunny.py:53 | a block's definitions include every definition of every nested node |
| PathCompiler.PathPredicate | src/openEHRbunny.py:93-102 | definition: the root names the given id on `archetype_node_id`, a non-root `at0000` archetype root with its own id names that id on `archetype_details.archetype_id.value`, any other node its `node_id`; `SlotPathsBelongToArchetype` states what the slot case gives |
| PathCompiler.NodePath | src/openEHRbunny.py:104-112 | definition: `.<attr>` plus the predicate under a multiple container, `.<attr>` under a single one, elsewhere only the root's predicate; `NodePathHeadsSubtree`, `ChildPathsExtend` and `RootPathAnchored` state its properties |
| PathCompiler.Scope | src/openEHRbunny.py:115 | definition: the node's own non-empty archetype id, else the inherited one; `EmbeddedScopeIgnored` and `RootScope` state its properties |
| PathCompiler.ElementEntries | src/openEHRbunny.py:120-130 | definition: the expansion of a C_COMPLEX_OBJECT ELEMENT, nothing for other nodes; `ElementExpansion`, `ElementPathSet`, `ElementDistinctPaths` and `BuildLength` state its properties |
| PathCompiler.BuildJsonPaths | src/openEHRbunny.py:81-138 | definition: the pre-order walk; `BuildExtendsNodePath`, `NodePathHeadsSubtree`, `BuildLength`, `ChildOutputAppears` and `EmbeddedScopeIgnored` state its properties |
| PathCompiler.ExtractJsonPathsFromOpt | src/openEHRbunny.py:142-150 | definition: every root of the definition compiled from `$` with its own term map and id; `RootsAreUnderAttributes` and `ExtractedPathsAnchored` state its properties |
| PathCompiler.DvAttributesListed | src/openEHRbunny.py:26-36 | the table yields the 14 attribute names in dict order |
| PathProperties.DvAttributesCount | src/openEHRbunny.py:26-36 | the table lists 14 attributes |
| PathProperties.ElementExpansion | src/openEHRbunny.py:120-130 | an ELEMENT emits 16 entries of its own, namely its path, `.value` and `.value.<attr>` in table order, labelled `label.value…` or `value…` when the label is empty |
| PathProperties.ElementPathSet | src/openEHRbunny.py:120-130 | the paths of those 16 entries are exactly the node path, `.value`, and `.value.` plus the six distinct attribute names |
| PathProperties.ElementDistinctPaths | src/openEHRbunny.py:120-130 | the 16 entries hold exactly 8 distinct paths |
| PathProperties.BuildLength | src/openEHRbunny.py:84-136 | the number of entries is the sum over reached nodes of 16 for an ELEMENT and 1 otherwise, whatever the incoming path, term map and scope |
| PathProperties.ElementEntriesExtend | src/openEHRbunny.py:123-130 | every expansion path strictly extends the element's path |
| PathProperties.BuildExtendsNodePath | src/openEHRbunny.py:84-86 | no `node_id` gives no entries and skips the subtree; otherwise every entry of the node and its subtree extends the node's path, which extends the incoming path |
| PathProperties.ChildPathsExtend | src/openEHRbunny.py:133-136 | every entry of the children strictly extends the parent's path, as each child adds at least `.<attr>` (lines 104-108) |
| PathProperties.NodePathHeadsSubtree | src/openEHRbunny.py:114-136 | a node's first entry carries its own path, and that path is a proper prefix of every later entry's path |
| PathProperties.EmbeddedScopeIgnored | src/openEHRbunny.py:115 | below an archetype root with its own id, the output does not depend on the inherited scope |
| PathProperties.ChildOutputAppears | src/openEHRbunny.py:132-136 | each child's output appears unchanged and contiguous after the node's own entries |
| PathProperties.RootsAreUnderAttributes | src/openEHRbunny.py:145 | every compiled root is a C_ARCHETYPE_ROOT inside an `attributes` element |
| PathProperties.RootScope | src/openEHRbunny.py:115 | for any node, the compiler's scope given the resolver's root id (line 64) is that root id, so the root's own terms label the root |
| PathProperties.RootPathAnchored | src/openEHRbunny.py:104-108 | a root inside an `attributes` element gets a path starting with `$.` |
| PathProperties.CompiledPathsAnchored | src/openEHRbunny.py:146-150 | every compiled path starts with `$.` |
| PathProperties.ExtractedPathsAnchored | src/openEHRbunny.py:142-150 | every path `extract_jsonpaths_from_opt` returns starts with `$.` |
| Aggregator.Aggregate | src/openEHRbunny.py:155-201 | definition: each entry writes its summary under its jsonpath; `AggregateKeys`, `AggregateLastWins` and `EvaluateJsonpaths` state its properties |
| Aggregator.EmptyCount | src/openEHRbunny.py:167-181 | the number of empty documents never exceeds the number of documents |
| Aggregator.EmptyCountPositions | src/openEHRbunny.py:173-181 | the empty count is the number of documents that failed or matched nothing |
| Aggregator.CompositeDocument | src/openEHRbunny.py:173-179 | a document matching only objects or arrays is not empty, yet adds no observation |
| Aggregator.ReduceDocuments | src/openEHRbunny.py:167-181 | the loop computes the empty count and the scalar observations in order |
| Aggregator.CountFrequencies | src/openEHRbunny.py:183-187 | the counter's items are the histogram: each value in first-seen order with its number of occurrences |
| Aggregator.CountsStep | src/openEHRbunny.py:184-185 | `freq_counter[val] += 1` keeps the counter holding exactly the values seen so far, each with its number of occurrences |
| Aggregator.Histogram | src/openEHRbunny.py:183-187 | definition: the distinct observations in first-seen order with their multiplicities; `HistogramTotal`, `HistogramShape` and `CountFrequencies` state its properties |
| Aggregator.HistogramTotal | src/openEHRbunny.py:183-185 | the counts add up to the number of observations |
| Aggregator.HistogramShape | src/openEHRbunny.py:183-187 | every observed value is listed once, in first-occurrence order, with a positive count equal to its multiplicity |
| Aggregator.ValuesOf | src/openEHRbunny.py:186-194 | `values` is `[]` exactly when there are no observations, and otherwise the histogram in first-seen order |
| Aggregator.ValuesKeepFirstSeenOrder | src/openEHRbunny.py:192 | for any two different values a and b, the observations a, b, b give `[{a: 1}, {b: 2}]`, which is not ordered by frequency |
| Aggregator.Percentage | src/openEHRbunny.py:198-199 | a ratio times 100 lies in [0, 100] and is positive exactly when the count is |
| Aggregator.EmptyPercentage | src/openEHRbunny.py:198 | the empty percentage lies in [0, 100] and is 100 times the empty count over the number of documents |
| Aggregator.UniquePercentage | src/openEHRbunny.py:199 | 0 with no observations; otherwise in (0, 100] and 100 times distinct values over observations |
| Aggregator.Summarize | src/openEHRbunny.py:157-164 | a parse failure records `""`, 100, 0, the file count and the message; a parsed expression records no error and a list value |
| Aggregator.EvaluateEntry | src/openEHRbunny.py:157-201 | one entry's loops produce the summary |
| Aggregator.EvaluateJsonpaths | src/openEHRbunny.py:154-202 | the result is every entry's summary written under its jsonpath, with keys in first-seen order |
| Aggregator.AggregateKeys | src/openEHRbunny.py:160 | the recorded keys are exactly the distinct jsonpaths |
| Aggregator.AggregateLastWins | src/openEHRbunny.py:196 | a repeated jsonpath keeps the summary of its last occurrence |
| Report.SearchFrom | src/openEHRbunny.py:217 | returns the leftmost match position at or after the start, or none when nothing matches there |
| Report.QuoteIndex | src/openEHRbunny.py:217 | the position of the first `'`, or the length when there is none |
| Report.ExtractArquetipo | src/openEHRbunny.py:216-218 | the result is `UNKNOWN`, or starts with `openEHR-EHR-`, is longer than that, and holds no `'` |
| Report.ExtractUnknown | src/openEHRbunny.py:217-218 | `UNKNOWN` exactly when the pattern matches nowhere |
| Report.ExtractLeftmost | src/openEHRbunny.py:217-218 | the result is the group of the leftmost match |
| Report.SlotArchetype | src/openEHRbunny.py:97-99 | a path whose first slot predicate names an `openEHR-EHR-` id gives back that id, whatever follows |
| Report.SlotPathsBelongToArchetype | src/openEHRbunny.py:97-110 | every path compiled under the outermost `at0000` slot in a multiple container, whose id starts with `openEHR-EHR-` and holds no `'`, belongs to that slot's archetype |
| Report.NestedSlotGoesOuter | src/openEHRbunny.py:217 | a path below a slot nested inside another slot is grouped under the outer slot's archetype, since `re.search` reads the leftmost predicate |
| Report.ParsedRowsReachTables | src/openEHRbunny.py:225-231 | a row reaches the tables exactly when its expression parsed |
| Report.GroupByArquetipo | src/openEHRbunny.py:221-233 | the groups are keyed by archetype in first-seen order, each holding its rows' columns in row order |
| Report.GroupStep | src/openEHRbunny.py:225-231 | a kept row appends its column to its archetype's list (created empty on first access) and leaves every other list alone; a skipped row changes nothing |
| Report.ColumnsCount | src/openEHRbunny.py:227-231 | an archetype's group has one column per kept row of that archetype |
| Report.GroupsNonEmpty | src/openEHRbunny.py:231-238 | every archetype key of the grouping holds at least one column, so the pivot's `max` never runs over an empty group |
| Report.GroupsPartitionRows | src/openEHRbunny.py:221-233 | the group sizes in key order are the histogram of archetypes and add up to the kept rows |
| Report.MaxLen | src/openEHRbunny.py:238 | no column is longer than the maximum, and some column reaches it |
| Report.HeaderShape | src/openEHRbunny.py:242-243 | the header holds two titles per column, the column's label then `frecuencia` |
| Report.RowCellsShape | src/openEHRbunny.py:240-249 | a row has two cells per column; cells `2c` and `2c + 1` come from column `c` |
| Report.PivotRow | src/openEHRbunny.py:240-249 | one pass over the columns builds row `i`; the first pass also yields the header |
| Report.Pivot | src/openEHRbunny.py:235-250 | `max_len` rows, each the cells of every column; the header, or no header when `max_len` is 0 |
| Report.RowsAreFilled | src/openEHRbunny.py:238-249 | every row has a real pair in some column, and the last row is the end of some column |

## Left out

- XML parsing with lxml, and the XPath queries (`load_opt`, `find`,
  `findall`, `findtext`, `getparent`). The parsed tree is a datatype, and
  the queries are functions over it.
- The debug CSV of the term map (lines 72-76), creating the tables folder
  (line 18), `write_csv`, the CSV reader, `json.loads`, and the writing of
  each table file, including its name (lines 252-256). These are file I/O.
  A row's `values` cell is taken as already read back: empty, or a list of
  one-entry objects, which are the shapes `write_csv` produces. The
  `Malformed` case, a cell that is not JSON, is kept only for generality:
  `write_csv` never writes one.
- The jsonpath library's `parse` and `find`, and opening and decoding each
  JSON file. Their outcomes are inputs: a parse error with its message, or
  one outcome per document (failed, or the matched values).
- `str()` of scalar matches and `json.dumps` escaping. Observations are the
  already rendered strings, and `values` is the sequence of (value, count)
  pairs.
- Aggregator.Summarize: does not promise that a parse failure's error text
  is non-empty. It records whatever message the jsonpath library's
  exception carries.
- IEEE floating-point rounding of the percentages. They are exact `real`
  ratios.
- `exportar_excel` (pandas and openpyxl, column renaming, sheet-name
  truncation) and the `__main__` block. These are foreign libraries and the
  driver.
- The order of the whole result list against document order is not stated
  as one theorem. It is given by the definitions themselves (pre-order
  concatenation) and by `ChildOutputAppears` for each child.
- The loop over groups on line 235 only calls the pivot once per archetype,
  in the grouping's key order, before writing files. It is not modelled
  separately from `Pivot` and `GroupByArquetipo`.
