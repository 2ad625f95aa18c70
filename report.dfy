/** The report layout (`extract_arquetipo` and `generar_tablas_por_arquetipo`,
    src/openEHRbunny.py:216-250): the archetype a jsonpath belongs to, the
    grouping of the summary rows by archetype, and the pivot of one group into
    a header and padded rows of (value, frequency) cells.  Reading the CSV,
    decoding its JSON and writing the tables are left to the caller. */
module Report {
  import opened Common
  import opened Template
  import opened Terminology
  import opened PathCompiler
  import opened PathProperties
  import opened Aggregator

  /** The archetype-id prefix the pattern requires. */
  const Family: string := "openEHR-EHR-"

  /** The literal part of the pattern: `@.archetype_details.archetype_id.value=='openEHR-EHR-`. */
  const Opener: string := "@." + SlotField + "=='" + Family

  /** Index of the first `'` of `s`, or `|s|` when there is none. */
  function QuoteIndex(s: string): (k: nat)
    ensures k <= |s|
    ensures k < |s| ==> s[k] == '\''
    ensures forall j :: 0 <= j < k ==> s[j] != '\''
  {
    if s == [] || s[0] == '\'' then 0 else 1 + QuoteIndex(s[1..])
  }

  /** The opener occurs in `s` at `i`. */
  predicate OpenerAt(s: string, i: nat)
  {
    i + |Opener| <= |s| && s[i..i + |Opener|] == Opener
  }

  /** The pattern matches at `i`: the opener, one or more characters other
      than `'`, then a `'`. */
  predicate MatchAt(s: string, i: nat)
  {
    && OpenerAt(s, i)
    && 0 < QuoteIndex(s[i + |Opener|..]) < |s[i + |Opener|..]|
  }

  /** The captured group of a match at `i`. */
  function Group(s: string, i: nat): string
    requires MatchAt(s, i)
  {
    var rest := s[i + |Opener|..];
    Family + rest[..QuoteIndex(rest)]
  }

  /** `re.search` from position `i` on: the leftmost match, if any. */
  function SearchFrom(s: string, i: nat): (r: Option<nat>)
    ensures r.Some? ==> i <= r.value && MatchAt(s, r.value) && forall k :: i <= k < r.value ==> !MatchAt(s, k)
    ensures r.None? ==> forall k :: i <= k ==> !MatchAt(s, k)
    decreases |s| - i
  {
    if i + |Opener| > |s| then None
    else if MatchAt(s, i) then Some(i)
    else SearchFrom(s, i + 1)
  }

  /** `extract_arquetipo`: the archetype id named by the leftmost slot
      predicate of the jsonpath, or "UNKNOWN". */
  function ExtractArquetipo(jsonpath: string): (r: string)
    ensures r == "UNKNOWN" || (Family <= r && |Family| < |r| && '\'' !in r)
  {
    match SearchFrom(jsonpath, 0)
    case None => "UNKNOWN"
    case Some(i) =>
      var g := Group(jsonpath, i);
      var rest := jsonpath[i + |Opener|..];
      assert g == Family + rest[..QuoteIndex(rest)];
      assert '\'' !in Family;
      g
  }

  /** "UNKNOWN" comes out exactly when the pattern matches nowhere. */
  lemma ExtractUnknown(s: string)
    ensures ExtractArquetipo(s) == "UNKNOWN" <==> forall k: nat :: !MatchAt(s, k)
  {
    match SearchFrom(s, 0)
    case None =>
    case Some(i) =>
      var g := Group(s, i);
      assert g[0] == Family[0] == 'o' && "UNKNOWN"[0] == 'U';
  }

  /** The result is the group of the leftmost match. */
  lemma ExtractLeftmost(s: string, i: nat)
    requires MatchAt(s, i) && forall k: nat :: k < i ==> !MatchAt(s, k)
    ensures ExtractArquetipo(s) == Group(s, i)
  {
    var r := SearchFrom(s, 0);
  }

  /** `s` holds no occurrence of the opener. */
  predicate NoOpener(s: string)
  {
    forall k: nat :: k <= |s| ==> !OpenerAt(s, k)
  }

  lemma OpenerShape()
    ensures |Opener| == 53
    ensures Opener[0] == '@' && Opener[52] == '-'
    ensures forall d :: 1 <= d < |Opener| ==> Opener[d] != '@'
  {
    var tail := "." + SlotField + "=='" + Family;
    assert Opener == "@" + tail;
    assert '@' !in tail;
    forall d | 1 <= d < |Opener| ensures Opener[d] != '@' {
      assert Opener[d] == tail[d - 1];
    }
  }

  /** No match starts inside `prefix + "[?("` when `prefix` holds no opener. */
  lemma NoMatchBefore(prefix: string, rest: string, k: nat)
    requires NoOpener(prefix) && |rest| > 0 && rest[0] == '@'
    requires k < |prefix| + 3
    ensures !OpenerAt(prefix + "[?(" + rest, k)
  {
    var s := prefix + "[?(" + rest;
    var p := |prefix| + 3;
    OpenerShape();
    if k + |Opener| <= |prefix| {
      assert OpenerAt(s, k) ==> OpenerAt(prefix, k) by {
        assert s[k..k + |Opener|] == prefix[k..k + |Opener|];
      }
    } else if |Opener| <= p - k {
      var last := k + |Opener| - 1;
      var j := last - |prefix|;
      assert s[last] == "[?("[j];
      assert j == 0 || j == 1 || j == 2;
      assert "[?("[j] != '-';
    } else {
      assert s[p] == '@';
    }
  }

  /** A jsonpath ending in a slot predicate, cut around the opener. */
  lemma SlotPathShape(prefix: string, tail: string, suffix: string)
    ensures prefix + Predicate(SlotField, Family + tail) + suffix
            == (prefix + "[?(") + (Opener + (tail + "'" + (")]" + suffix)))
  {
    var f := SlotField;
    var pred := Predicate(f, Family + tail);
    var x := Opener + (tail + "')]");
    assert pred == "[?(" + x by {
      assert "[?(@." == "[?(" + "@.";
      assert pred == "[?(" + "@." + f + "=='" + Family + tail + "')]";
    }
    assert x + suffix == Opener + (tail + "'" + (")]" + suffix)) by {
      assert (tail + "')]") + suffix == tail + "'" + (")]" + suffix) by {
        assert "')]" == "'" + ")]";
      }
    }
    assert prefix + pred + suffix == (prefix + "[?(") + (x + suffix);
  }

  lemma QuoteFirst(tail: string, more: string)
    requires '\'' !in tail
    ensures QuoteIndex(tail + "'" + more) == |tail|
  {
    var s := tail + "'" + more;
    assert s[|tail|] == '\'';
  }

  /** The pattern matches right where the opener is placed, and captures up to the next `'`. */
  lemma MatchAfter(a: string, tail: string, more: string)
    requires '\'' !in tail && tail != []
    ensures MatchAt(a + (Opener + (tail + "'" + more)), |a|)
    ensures Group(a + (Opener + (tail + "'" + more)), |a|) == Family + tail
  {
    var after := tail + "'" + more;
    var s := a + (Opener + after);
    assert s[|a|..|a| + |Opener|] == Opener;
    assert s[|a| + |Opener|..] == after;
    QuoteFirst(tail, more);
    assert after[..|tail|] == tail;
  }

  /** No match starts before the opener that follows `prefix + "[?("`. */
  lemma NoMatchBeforeSlot(prefix: string, rest: string)
    requires NoOpener(prefix) && |rest| > 0 && rest[0] == '@'
    ensures forall k: nat :: k < |prefix| + 3 ==> !MatchAt(prefix + "[?(" + rest, k)
  {
    forall k: nat | k < |prefix| + 3 ensures !MatchAt(prefix + "[?(" + rest, k) {
      NoMatchBefore(prefix, rest, k);
    }
  }

  /** Lines 97-98 and 216-218: a jsonpath whose first slot predicate names
      `id` gives back `id`, whatever follows it. */
  lemma SlotArchetype(prefix: string, id: string, suffix: string)
    requires NoOpener(prefix)
    requires Family <= id && |Family| < |id| && '\'' !in id
    ensures ExtractArquetipo(prefix + Predicate(SlotField, id) + suffix) == id
  {
    var tail := id[|Family|..];
    assert id == Family + tail;
    assert '\'' !in tail by {
      forall j | 0 <= j < |tail| ensures tail[j] != '\'' {
        assert tail[j] == id[|Family| + j];
      }
    }
    SlotPathShape(prefix, tail, suffix);
    var a := prefix + "[?(";
    var rest := Opener + (tail + "'" + (")]" + suffix));
    OpenerShape();
    assert rest[0] == '@';
    MatchAfter(a, tail, ")]" + suffix);
    NoMatchBeforeSlot(prefix, rest);
    ExtractLeftmost(a + rest, |a|);
  }

  /** Lines 94-98, 110 and 216-218: every path compiled under an `at0000`
      archetype slot held in a C_MULTIPLE_ATTRIBUTE belongs to the slot's
      archetype, as long as the path above the slot names no slot itself. */
  lemma SlotPathsBelongToArchetype(n: Node, currentPath: string, terms: TermMap, archetypeId: string, attr: string)
    requires n.nodeId == Some("at0000") && LocalArchetypeId(n).Some?
    requires Family <= LocalArchetypeId(n).value && |Family| < |LocalArchetypeId(n).value|
    requires '\'' !in LocalArchetypeId(n).value
    requires NoOpener(currentPath + "." + attr)
    ensures forall e :: e in BuildJsonPaths(n, currentPath, terms, archetypeId, false, UnderAttribute(attr, true)) ==>
              ExtractArquetipo(e.path) == LocalArchetypeId(n).value
  {
    var id := LocalArchetypeId(n).value;
    var parent := UnderAttribute(attr, true);
    var r := BuildJsonPaths(n, currentPath, terms, archetypeId, false, parent);
    SlotNodePath(n, currentPath, archetypeId, attr);
    BuildExtendsNodePath(n, currentPath, terms, archetypeId, false, parent);
    forall e | e in r ensures ExtractArquetipo(e.path) == id {
      SlotPrefixedPath(currentPath + "." + attr, id, e.path);
    }
  }

  /** An `at0000` slot in a multiple container adds `.<attr>` and the slot predicate. */
  lemma SlotNodePath(n: Node, currentPath: string, archetypeId: string, attr: string)
    requires n.nodeId == Some("at0000") && LocalArchetypeId(n).Some?
    ensures NodePath(n, currentPath, archetypeId, false, UnderAttribute(attr, true))
              == currentPath + "." + attr + Predicate(SlotField, LocalArchetypeId(n).value)
  {
  }

  /** Lines 97-99 and 217: below a slot nested inside another slot, the path
      still holds the outer slot's predicate first, so `re.search` reads the
      outer slot's id and the path is grouped under the outer archetype. */
  lemma NestedSlotGoesOuter(prefix: string, outer: string, mid: string, inner: string, suffix: string)
    requires NoOpener(prefix)
    requires Family <= outer && |Family| < |outer| && '\'' !in outer
    ensures ExtractArquetipo(prefix + Predicate(SlotField, outer) + mid + Predicate(SlotField, inner) + suffix) == outer
  {
    var rest := mid + Predicate(SlotField, inner) + suffix;
    assert prefix + Predicate(SlotField, outer) + mid + Predicate(SlotField, inner) + suffix
        == prefix + Predicate(SlotField, outer) + rest;
    SlotArchetype(prefix, outer, rest);
  }

  /** Any path that extends a slot's path belongs to the slot's archetype. */
  lemma SlotPrefixedPath(prefix: string, id: string, p: string)
    requires NoOpener(prefix)
    requires Family <= id && |Family| < |id| && '\'' !in id
    requires prefix + Predicate(SlotField, id) <= p
    ensures ExtractArquetipo(p) == id
  {
    var q := prefix + Predicate(SlotField, id);
    var suffix := p[|q|..];
    assert p == q + suffix;
    SlotArchetype(prefix, id, suffix);
  }

  // ---------------------------------------------------------------------------
  // Grouping the summary rows by archetype (lines 220-233)

  /** The `values` cell of a row as read back: empty, text that is not JSON,
      or the decoded list of one-entry objects. */
  datatype CsvValues = EmptyCell | Malformed | Decoded(pairs: seq<(string, nat)>)

  datatype Row = Row(jsonpath: string, readableLabel: string, values: CsvValues)

  /** A column of a table: the label and the (value, frequency) list. */
  datatype Column = Column(readableLabel: string, values: seq<(string, nat)>)

  /** The row `write_csv` stores for a summary, as the reader gets it back:
      `""` stays empty, the empty list is written as `[]`. */
  function RowOf(s: Summary): Row
  {
    Row(s.jsonpath, s.readableLabel,
        match s.values
        case NoValues => EmptyCell
        case EmptyList => Decoded([])
        case Frequencies(pairs) => Decoded(pairs))
  }

  /** Lines 160-164 and 225-231: the rows of expressions that did not parse
      never reach a table; every parsed expression does, even without values. */
  lemma ParsedRowsReachTables(entry: PathEntry, q: Query, n: nat)
    requires Fits(q, n)
    ensures RowOf(Summarize(entry, q, n)).values.Decoded? <==> q.Parsed?
  {
  }

  /** The archetype of every row that survives the filters of lines 225-233, in order. */
  function Archetypes(rows: seq<Row>): seq<string>
  {
    if rows == [] then []
    else
      var row := rows[|rows| - 1];
      Archetypes(rows[..|rows| - 1]) + (if row.values.Decoded? then [ExtractArquetipo(row.jsonpath)] else [])
  }

  /** The columns `arquetipo_map[a]` receives, in row order. */
  function ColumnsOf(rows: seq<Row>, a: string): seq<Column>
  {
    if rows == [] then []
    else
      var row := rows[|rows| - 1];
      ColumnsOf(rows[..|rows| - 1], a)
      + (if row.values.Decoded? && ExtractArquetipo(row.jsonpath) == a
         then [Column(row.readableLabel, row.values.pairs)] else [])
  }

  /** Lines 221-233: `arquetipo_map` filled from the rows, returned with its key order. */
  method GroupByArquetipo(rows: seq<Row>) returns (order: seq<string>, groups: map<string, seq<Column>>)
    ensures order == FirstSeen(Archetypes(rows))
    ensures forall a :: a in groups <==> a in order
    ensures forall a :: a in groups ==> groups[a] == ColumnsOf(rows, a)
  {
    order := [];
    groups := map[];
    for t := 0 to |rows|
      invariant order == FirstSeen(Archetypes(rows[..t]))
      invariant forall a :: a in groups <==> a in order
      invariant forall a :: ColumnsOf(rows[..t], a) == ListAt(groups, a)
    {
      var row := rows[t];
      ArchetypesStep(rows, t);
      GroupStep(rows, t, groups);
      match row.values
      case EmptyCell =>
        assert Archetypes(rows[..t + 1]) == Archetypes(rows[..t]);
      case Malformed =>
        assert Archetypes(rows[..t + 1]) == Archetypes(rows[..t]);
      case Decoded(values) =>
        var arquetipo := ExtractArquetipo(row.jsonpath);
        assert Archetypes(rows[..t + 1]) == Archetypes(rows[..t]) + [arquetipo];
        FirstSeenSnoc(Archetypes(rows[..t]), arquetipo);
        if arquetipo !in groups {
          order := order + [arquetipo];
        }
        groups := groups[arquetipo := ListAt(groups, arquetipo) + [Column(row.readableLabel, values)]];
    }
    assert rows[..|rows|] == rows;
  }

  /** `arquetipo_map[a]` on the defaultdict: the list under `a`, or a new empty one. */
  function ListAt(groups: map<string, seq<Column>>, a: string): seq<Column>
  {
    if a in groups then groups[a] else []
  }

  lemma ArchetypesStep(rows: seq<Row>, t: nat)
    requires t < |rows|
    ensures Archetypes(rows[..t + 1])
            == Archetypes(rows[..t]) + (if rows[t].values.Decoded? then [ExtractArquetipo(rows[t].jsonpath)] else [])
  {
    assert rows[..t + 1][..t] == rows[..t];
  }

  /** One row appends its column to its archetype's list and leaves the others alone. */
  lemma GroupStep(rows: seq<Row>, t: nat, groups: map<string, seq<Column>>)
    requires t < |rows|
    requires forall a :: ColumnsOf(rows[..t], a) == ListAt(groups, a)
    ensures !rows[t].values.Decoded? ==> forall a :: ColumnsOf(rows[..t + 1], a) == ListAt(groups, a)
    ensures rows[t].values.Decoded? ==>
              var key := ExtractArquetipo(rows[t].jsonpath);
              var next := groups[key := ListAt(groups, key) + [Column(rows[t].readableLabel, rows[t].values.pairs)]];
              forall a :: ColumnsOf(rows[..t + 1], a) == ListAt(next, a)
  {
    assert rows[..t + 1][..t] == rows[..t];
  }

  /** An archetype's group holds one column per surviving row of that archetype. */
  lemma {:induction false} ColumnsCount(rows: seq<Row>, a: string)
    ensures |ColumnsOf(rows, a)| == multiset(Archetypes(rows))[a]
  {
    if rows != [] {
      var init := rows[..|rows| - 1];
      ColumnsCount(init, a);
      var row := rows[|rows| - 1];
      if row.values.Decoded? {
        assert Archetypes(rows) == Archetypes(init) + [ExtractArquetipo(row.jsonpath)];
      }
    }
  }

  /** Every archetype key of the grouping holds at least one column, so the
      `max` of line 238 is never taken over an empty group. */
  lemma GroupsNonEmpty(rows: seq<Row>, a: string)
    requires a in FirstSeen(Archetypes(rows))
    ensures ColumnsOf(rows, a) != []
  {
    ColumnsCount(rows, a);
    assert a in Archetypes(rows);
  }

  /** The groups, in key order, share out the surviving rows: their sizes are
      the histogram of the rows' archetypes and add up to the number of rows kept. */
  lemma GroupsPartitionRows(rows: seq<Row>)
    ensures var order := FirstSeen(Archetypes(rows));
            && seq(|order|, k requires 0 <= k < |order| => (order[k], |ColumnsOf(rows, order[k])|))
               == Histogram(Archetypes(rows))
            && Total(Histogram(Archetypes(rows))) == |Archetypes(rows)|
  {
    var order := FirstSeen(Archetypes(rows));
    var sizes := seq(|order|, k requires 0 <= k < |order| => (order[k], |ColumnsOf(rows, order[k])|));
    forall k | 0 <= k < |order| ensures sizes[k] == Histogram(Archetypes(rows))[k] {
      ColumnsCount(rows, order[k]);
    }
    HistogramTotal(Archetypes(rows));
  }

  // ---------------------------------------------------------------------------
  // The pivot of one group (lines 235-250)

  datatype Cell = Text(text: string) | Number(count: nat)

  /** Line 238: the length of the longest value list. */
  function MaxLen(cols: seq<Column>): (m: nat)
    ensures forall k :: 0 <= k < |cols| ==> |cols[k].values| <= m
    ensures cols != [] ==> exists k :: 0 <= k < |cols| && |cols[k].values| == m
    ensures cols == [] ==> m == 0
  {
    if cols == [] then 0
    else
      var m := MaxLen(cols[..|cols| - 1]);
      var l := |cols[|cols| - 1].values|;
      if l > m then l else m
  }

  /** Lines 242-243: `[label, "frecuencia"]` for every column. */
  function Header(cols: seq<Column>): seq<string>
  {
    if cols == [] then []
    else Header(cols[..|cols| - 1]) + [cols[|cols| - 1].readableLabel, "frecuencia"]
  }

  /** The header holds two titles per column: its label, then `frecuencia`. */
  lemma {:induction false} HeaderShape(cols: seq<Column>)
    ensures |Header(cols)| == 2 * |cols|
    ensures forall k :: 0 <= k < |Header(cols)| ==>
              Header(cols)[k] == if k % 2 == 0 then cols[k / 2].readableLabel else "frecuencia"
  {
    if cols != [] {
      var init := cols[..|cols| - 1];
      HeaderShape(init);
      forall k | 0 <= k < |Header(cols)|
        ensures Header(cols)[k] == if k % 2 == 0 then cols[k / 2].readableLabel else "frecuencia"
      {
        var titles := [cols[|init|].readableLabel, "frecuencia"];
        assert Header(cols) == Header(init) + titles;
        if k < 2 * |init| {
          assert Header(cols)[k] == Header(init)[k];
          assert cols[k / 2] == init[k / 2];
        } else {
          assert k / 2 == |init| && k % 2 == k - 2 * |init|;
          assert Header(cols)[k] == titles[k - 2 * |init|];
        }
      }
    }
  }

  /** Lines 244-249: the two cells column `c` gives row `i`. */
  function Cells(c: Column, i: nat): seq<Cell>
  {
    if i < |c.values| then [Text(c.values[i].0), Number(c.values[i].1)] else [Text(""), Text("")]
  }

  /** Row `i` of the table: the cells of every column, side by side. */
  function RowCells(cols: seq<Column>, i: nat): seq<Cell>
  {
    if cols == [] then []
    else RowCells(cols[..|cols| - 1], i) + Cells(cols[|cols| - 1], i)
  }

  /** A row has two cells per column, cells `2c` and `2c + 1` coming from column `c`. */
  lemma {:induction false} RowCellsShape(cols: seq<Column>, i: nat)
    ensures |RowCells(cols, i)| == 2 * |cols|
    ensures forall k :: 0 <= k < |RowCells(cols, i)| ==> RowCells(cols, i)[k] == Cells(cols[k / 2], i)[k % 2]
  {
    if cols != [] {
      var init := cols[..|cols| - 1];
      RowCellsShape(init, i);
      forall k | 0 <= k < |RowCells(cols, i)| ensures RowCells(cols, i)[k] == Cells(cols[k / 2], i)[k % 2] {
        var cells := Cells(cols[|init|], i);
        assert |cells| == 2;
        assert RowCells(cols, i) == RowCells(init, i) + cells;
        if k < 2 * |init| {
          assert RowCells(cols, i)[k] == RowCells(init, i)[k];
          assert cols[k / 2] == init[k / 2];
        } else {
          assert k / 2 == |init| && k % 2 == k - 2 * |init|;
          assert RowCells(cols, i)[k] == cells[k - 2 * |init|];
        }
      }
    }
  }

  /** Lines 235-250: the header and the rows of the table of one archetype.
      `max` over an empty group would fail; groups are never empty. */
  method Pivot(cols: seq<Column>) returns (header: seq<string>, table: seq<seq<Cell>>)
    requires cols != []
    ensures header == if MaxLen(cols) == 0 then [] else Header(cols)
    ensures |table| == MaxLen(cols)
    ensures forall i :: 0 <= i < |table| ==> table[i] == RowCells(cols, i)
  {
    header := [];
    table := [];
    var maxLen := MaxLen(cols);
    for i := 0 to maxLen
      invariant header == if i == 0 then [] else Header(cols)
      invariant |table| == i
      invariant TableRows(cols, table)
    {
      var row, titles := PivotRow(cols, i);
      if i == 0 {
        header := titles;
      }
      TableRowsSnoc(cols, table, row);
      table := table + [row];
    }
  }

  lemma TableRowsSnoc(cols: seq<Column>, table: seq<seq<Cell>>, row: seq<Cell>)
    requires TableRows(cols, table) && row == RowCells(cols, |table|)
    ensures TableRows(cols, table + [row])
  {
    forall r | 0 <= r < |table| + 1 ensures (table + [row])[r] == RowCells(cols, r) {
      if r < |table| {
        assert (table + [row])[r] == table[r];
      }
    }
  }

  /** Row `r` of `table` is row `r` of the pivot of `cols`. */
  ghost predicate TableRows(cols: seq<Column>, table: seq<seq<Cell>>)
  {
    forall r :: 0 <= r < |table| ==> table[r] == RowCells(cols, r)
  }

  /** Lines 240-249: one pass over the columns for row `i`; the first pass
      also collects the header. */
  method PivotRow(cols: seq<Column>, i: nat) returns (row: seq<Cell>, titles: seq<string>)
    ensures row == RowCells(cols, i)
    ensures titles == if i == 0 then Header(cols) else []
  {
    row := [];
    titles := [];
    for c := 0 to |cols|
      invariant row == RowCells(cols[..c], i)
      invariant titles == if i == 0 then Header(cols[..c]) else []
    {
      PivotStep(cols, c, i);
      var values := cols[c].values;
      if i == 0 {
        titles := titles + [cols[c].readableLabel, "frecuencia"];
      }
      if i < |values| {
        var (val, freq) := values[i];
        row := row + [Text(val), Number(freq)];
      } else {
        row := row + [Text(""), Text("")];
      }
    }
    assert cols[..|cols|] == cols;
  }

  lemma PivotStep(cols: seq<Column>, c: nat, i: nat)
    requires c < |cols|
    ensures RowCells(cols[..c + 1], i) == RowCells(cols[..c], i) + Cells(cols[c], i)
    ensures Header(cols[..c + 1]) == Header(cols[..c]) + [cols[c].readableLabel, "frecuencia"]
  {
    assert cols[..c + 1][..c] == cols[..c];
  }

  /** Lines 238-249: every row has a real (value, frequency) pair in some
      column, and the last row is the last one some column fills. */
  lemma RowsAreFilled(cols: seq<Column>, i: nat)
    requires i < MaxLen(cols)
    ensures exists c :: 0 <= c < |cols| && i < |cols[c].values|
    ensures i == MaxLen(cols) - 1 ==> exists c :: 0 <= c < |cols| && |cols[c].values| == i + 1
  {
  }
}
