/**
 * The steps shared by the three samples-with-data (SWD) builders
 * (Scripts/AquaticScripts/AQUATIC_CreateAllSpeciesSWDFiles.py,
 * Scripts/AquaticScripts/AQUATIC_CreateSpeciesSWDFile.py and
 * Scripts/DataPrep/ExtractSpeciesData.py): the species-name check, the
 * HUC8 list of a species, the catchment selection by HUC8, the column
 * bookkeeping while StreamCat frames are stacked side by side, the
 * null-column pruner and the building blocks of the row pruners and of the
 * correlation filters.
 */
module SwdCommon {
  import opened Wrappers
  import opened Seqs
  import opened Strings
  import opened Frames

  // ---------------------------------------------------------------------
  // checkSpeciesName
  // ---------------------------------------------------------------------

  /** How a step ends: normally, or by `sys.exit(code)`. */
  datatype Outcome = Continue | Exit(code: int)

  /** `checkSpeciesName`: the run stops with status 1 unless the name is a column of the occurrence table. */
  function CheckSpeciesName(speciesName: string, fldNames: seq<string>): (o: Outcome)
    ensures o == Continue <==> speciesName in fldNames
    ensures o != Continue ==> o == Exit(1)
  {
    if speciesName !in fldNames then Exit(1) else Continue
  }

  // ---------------------------------------------------------------------
  // getHUC8s and spatialSelect
  // ---------------------------------------------------------------------

  /** `column.str[:8]` on one cell: text is cut to 8 characters, anything else becomes NaN. */
  function Huc8Prefix(c: Cell): (p: Cell)
    ensures p.Text? <==> c.Text?
    ensures p.Text? ==> |p.s| <= 8 && StartsWith(c.s, p.s)
  {
    if c.Text? then Text(TakeN(c.s, 8)) else Missing
  }

  /** The REACHCODE prefixes of the presence rows (label cell `== 1`), top to bottom. */
  function PresencePrefixes(rows: seq<Row>, kReach: nat, kLabel: nat): seq<Cell>
    decreases |rows|
  {
    if |rows| == 0 then []
    else
      (if kReach < |rows[0]| && kLabel < |rows[0]| && rows[0][kLabel] == Num(1)
       then [Huc8Prefix(rows[0][kReach])] else [])
      + PresencePrefixes(rows[1..], kReach, kLabel)
  }

  lemma {:induction false} PresencePrefixesMember(rows: seq<Row>, kReach: nat, kLabel: nat, c: Cell)
    ensures c in PresencePrefixes(rows, kReach, kLabel) <==>
            exists i :: 0 <= i < |rows| && kReach < |rows[i]| && kLabel < |rows[i]| &&
                        rows[i][kLabel] == Num(1) && Huc8Prefix(rows[i][kReach]) == c
    decreases |rows|
  {
    if |rows| > 0 {
      PresencePrefixesMember(rows[1..], kReach, kLabel, c);
      var e := exists i :: 0 <= i < |rows| && kReach < |rows[i]| && kLabel < |rows[i]| &&
                           rows[i][kLabel] == Num(1) && Huc8Prefix(rows[i][kReach]) == c;
      if e {
        var i :| 0 <= i < |rows| && kReach < |rows[i]| && kLabel < |rows[i]| &&
                 rows[i][kLabel] == Num(1) && Huc8Prefix(rows[i][kReach]) == c;
        if i > 0 {
          assert rows[1..][i - 1] == rows[i];
        }
      }
    }
  }

  /**
   * `getHUC8s`: the distinct 8-character REACHCODE prefixes of the rows
   * labelled 1, in order of first appearance (`Series.unique`); reading
   * the two columns fails when either is absent.
   */
  function GetHuc8s(eo: Table, species: string): (r: Result<seq<Cell>, string>)
    ensures r.Ok? <==> "REACHCODE" in eo.header && species in eo.header
  {
    if "REACHCODE" in eo.header && species in eo.header
    then Ok(Unique(PresencePrefixes(eo.rows, IndexOf(eo.header, "REACHCODE"), IndexOf(eo.header, species))))
    else Err("ValueError: usecols do not match columns")
  }

  /** The HUC8 list holds exactly the prefixes of presence rows, each once, in first-appearance order. */
  lemma GetHuc8sSpec(eo: Table, species: string, c: Cell)
    requires Rectangular(eo) && "REACHCODE" in eo.header && species in eo.header
    ensures Distinct(GetHuc8s(eo, species).value)
    ensures var kR := IndexOf(eo.header, "REACHCODE");
            var kS := IndexOf(eo.header, species);
            c in GetHuc8s(eo, species).value <==>
               exists i :: 0 <= i < |eo.rows| && eo.rows[i][kS] == Num(1) && Huc8Prefix(eo.rows[i][kR]) == c
    ensures InFirstAppearanceOrder(GetHuc8s(eo, species).value,
              PresencePrefixes(eo.rows, IndexOf(eo.header, "REACHCODE"), IndexOf(eo.header, species)))
  {
    var kR := IndexOf(eo.header, "REACHCODE");
    var kS := IndexOf(eo.header, species);
    var pre := PresencePrefixes(eo.rows, kR, kS);
    assert forall i :: 0 <= i < |eo.rows| ==> kR < |eo.rows[i]| && kS < |eo.rows[i]|;
    UniqueSpec(pre);
    PresencePrefixesMember(eo.rows, kR, kS, c);
  }

  /**
   * A row is selected when its `HUC_12[:8]` is one of the HUC8s; `isin`
   * matches NaN with NaN, so a row without a text HUC_12 is selected when
   * the list holds NaN.
   */
  predicate InHuc8s(r: Row, k: nat, huc8s: seq<Cell>) {
    k < |r| && Huc8Prefix(r[k]) in huc8s
  }

  /**
   * `spatialSelect(dataFN, huc8List)`: the catchment rows whose
   * `HUC_12[:8]` is in `huc8s`, which is the script's global list and not
   * the `huc8List` parameter (the parameter is never read); `HUC_12`
   * missing from the catchment table is a KeyError.
   */
  function SpatialSelect(data: Table, huc8List: seq<Cell>, huc8s: seq<Cell>): (r: Result<Table, string>)
    requires Rectangular(data)
    ensures r.Ok? <==> "HUC_12" in data.header
    ensures r.Ok? ==> r.value.header == data.header && Rectangular(r.value)
  {
    if "HUC_12" !in data.header then Err("KeyError: HUC_12")
    else
      var k := IndexOf(data.header, "HUC_12");
      var rows := Filter(data.rows, (r: Row) => InHuc8s(r, k, huc8s));
      assert forall i :: 0 <= i < |rows| ==> |rows[i]| == |data.header| by {
        forall i | 0 <= i < |rows| ensures |rows[i]| == |data.header| {
          FilterMember(data.rows, (r: Row) => InHuc8s(r, k, huc8s), rows[i]);
        }
      }
      Ok(Table(data.header, rows))
  }

  /** The selection keeps exactly the rows in the global HUC8s, in their order, whatever list is passed. */
  lemma SpatialSelectSpec(data: Table, huc8List: seq<Cell>, huc8s: seq<Cell>, r: Row)
    requires Rectangular(data) && "HUC_12" in data.header
    ensures var sel := SpatialSelect(data, huc8List, huc8s).value;
            IsSubseq(sel.rows, data.rows) &&
            (r in sel.rows <==> r in data.rows && InHuc8s(r, IndexOf(data.header, "HUC_12"), huc8s)) &&
            sel == SpatialSelect(data, [], huc8s).value
  {
    var k := IndexOf(data.header, "HUC_12");
    FilterMember(data.rows, (x: Row) => InHuc8s(x, k, huc8s), r);
    FilterSubseq(data.rows, (x: Row) => InHuc8s(x, k, huc8s));
  }

  /**
   * A catchment whose HUC_12 is not text (blank, read as NaN) is selected
   * exactly when the HUC8 list holds NaN, as it does when a presence
   * record has a blank REACHCODE.
   */
  lemma SpatialSelectNaN(data: Table, huc8s: seq<Cell>, r: Row)
    requires Rectangular(data) && "HUC_12" in data.header && r in data.rows
    requires !r[IndexOf(data.header, "HUC_12")].Text?
    ensures r in SpatialSelect(data, [], huc8s).value.rows <==> Missing in huc8s
  {
    SpatialSelectSpec(data, [], huc8s, r);
  }

  // ---------------------------------------------------------------------
  // mergePresAbs: the right join with the occurrence table
  // ---------------------------------------------------------------------

  /**
   * The occurrence table read with `usecols=["FEATUREID", species]` and
   * FEATUREID as text: the label cell of each catchment that has a record.
   */
  type Occurrences = map<string, Cell>

  /** The label a catchment row receives from the join: its record's cell, or NaN without one. */
  function JoinLabel(eo: Occurrences, key: Cell): Cell {
    if key.Text? && key.s in eo then eo[key.s] else Missing
  }

  /**
   * `pd.merge(eoDF, dataDF, how='right', on="FEATUREID")`: one row per
   * catchment row, in order, headed by the key and the species label,
   * followed by the other catchment columns; a catchment table without
   * FEATUREID is a KeyError.
   */
  function RightJoin(eo: Occurrences, data: Table, species: string): (r: Result<Table, string>)
    requires Rectangular(data) && species != "FEATUREID" && species !in data.header
    ensures r.Ok? <==> "FEATUREID" in data.header
    ensures r.Ok? ==> Rectangular(r.value) && |r.value.rows| == |data.rows|
  {
    if "FEATUREID" !in data.header then Err("KeyError: FEATUREID")
    else
      var h := data.header;
      var kf := IndexOf(h, "FEATUREID");
      var rest := KeepWhere(h, h, {"FEATUREID"});
      var rows := seq(|data.rows|, i requires 0 <= i < |data.rows| =>
                      [data.rows[i][kf], JoinLabel(eo, data.rows[i][kf])] + KeepWhere(data.rows[i], h, {"FEATUREID"}));
      assert forall i :: 0 <= i < |rows| ==> |rows[i]| == 2 + |rest| by {
        forall i | 0 <= i < |rows| { KeepWhereLength(data.rows[i], h, {"FEATUREID"}); }
      }
      Ok(Table(["FEATUREID", species] + rest, rows))
  }

  /** The joined header: the key, the label, then the other catchment labels; no label repeats. */
  lemma RightJoinHeader(eo: Occurrences, data: Table, species: string)
    requires Wf(data) && species != "FEATUREID" && species !in data.header && "FEATUREID" in data.header
    ensures var h := RightJoin(eo, data, species).value.header;
            h == ["FEATUREID", species] + KeepWhere(data.header, data.header, {"FEATUREID"}) && Distinct(h)
  {
    var h := data.header;
    var j := RightJoin(eo, data, species).value;
    var rest := KeepWhere(h, h, {"FEATUREID"});
    KeepWhereDistinct(h, {"FEATUREID"});
    KeepWhereMember(h, {"FEATUREID"}, "FEATUREID");
    KeepWhereMember(h, {"FEATUREID"}, species);
    assert j.header == ["FEATUREID", species] + rest;
    forall a, b | 0 <= a < b < |j.header|
      ensures j.header[a] != j.header[b]
    {
      if a >= 2 {
        assert j.header[a] == rest[a - 2] && j.header[b] == rest[b - 2];
      } else if b >= 2 {
        assert j.header[b] in rest;
      }
    }
  }

  /**
   * Every catchment row survives the right join: row `i` of the result
   * carries the key of catchment row `i` and the label of its occurrence
   * record, NaN when it has none.
   */
  lemma RightJoinSpec(eo: Occurrences, data: Table, species: string, i: nat)
    requires Wf(data) && species != "FEATUREID" && species !in data.header && "FEATUREID" in data.header
    requires i < |data.rows|
    ensures var j := RightJoin(eo, data, species).value;
            var key := data.rows[i][IndexOf(data.header, "FEATUREID")];
            j.header[..2] == ["FEATUREID", species] &&
            j.rows[i][0] == key && j.rows[i][1] == JoinLabel(eo, key) &&
            (key.Text? && key.s in eo ==> j.rows[i][1] == eo[key.s]) &&
            (!(key.Text? && key.s in eo) ==> j.rows[i][1] == Missing)
  {
    RightJoinHeader(eo, data, species);
  }

  /** The other catchment columns keep their labels and, row by row, their values. */
  lemma RightJoinColumn(eo: Occurrences, data: Table, species: string, i: nat, x: string)
    requires Wf(data) && species != "FEATUREID" && species !in data.header && "FEATUREID" in data.header
    requires i < |data.rows| && x in data.header && x != "FEATUREID"
    ensures var j := RightJoin(eo, data, species).value;
            x in j.header && j.rows[i][IndexOf(j.header, x)] == data.rows[i][IndexOf(data.header, x)]
  {
    var h := data.header;
    var j := RightJoin(eo, data, species).value;
    var rest := KeepWhere(h, h, {"FEATUREID"});
    RightJoinHeader(eo, data, species);
    KeepWhereLookup(data.rows[i], h, {"FEATUREID"}, x);
    var k := IndexOf(rest, x);
    assert j.header[k + 2] == x;
    IndexOfDistinct(j.header, k + 2);
    assert j.rows[i][2..] == KeepWhere(data.rows[i], h, {"FEATUREID"});
  }

  // ---------------------------------------------------------------------
  // Stacking the StreamCat frames
  // ---------------------------------------------------------------------

  /** A StreamCat file: its name and its header. */
  datatype CsvFile = CsvFile(name: string, columns: seq<string>)

  /**
   * The columns of a later frame that the stacking loop keeps: those not
   * yet in `seen`, where each kept column joins `seen` at once (so a label
   * repeated inside the frame is kept only the first time).
   */
  function Fresh(seen: seq<string>, cols: seq<string>): (r: seq<string>)
    decreases |cols|
  {
    if |cols| == 0 then []
    else if cols[0] in seen then Fresh(seen, cols[1..])
    else [cols[0]] + Fresh(seen + [cols[0]], cols[1..])
  }

  /** The kept columns are new, distinct, and taken from the frame in order. */
  lemma {:induction false} FreshSpec(seen: seq<string>, cols: seq<string>)
    ensures Distinct(Fresh(seen, cols))
    ensures IsSubseq(Fresh(seen, cols), cols)
    ensures forall x :: x in Fresh(seen, cols) ==> x !in seen
    ensures forall x :: x in cols ==> x in seen + Fresh(seen, cols)
    decreases |cols|
  {
    if |cols| > 0 {
      var c := cols[0];
      if c in seen {
        FreshSpec(seen, cols[1..]);
        SubseqDropHead(Fresh(seen, cols), cols);
        assert cols == [c] + cols[1..];
      } else {
        var rest := Fresh(seen + [c], cols[1..]);
        FreshSpec(seen + [c], cols[1..]);
        assert Fresh(seen, cols) == [c] + rest;
        assert ([c] + rest)[1..] == rest;
        assert c !in rest;
        assert forall x :: x in rest ==> x !in seen;
        assert cols == [c] + cols[1..];
        forall x | x in cols ensures x in seen + ([c] + rest) {
          if x != c {
            assert x in cols[1..];
            assert x in seen + [c] + rest;
          }
        }
      }
    }
  }

  /** Appending the fresh columns keeps the header free of repetition. */
  lemma FreshExtends(seen: seq<string>, cols: seq<string>)
    requires Distinct(seen)
    ensures Distinct(seen + Fresh(seen, cols))
  {
    FreshSpec(seen, cols);
    DistinctConcat(seen, Fresh(seen, cols));
  }

  /** The column bookkeeping of the stacking loop, as a fold over the CSV files after the first. */
  function StackFrom(colNames: seq<string>, later: seq<CsvFile>): (r: (seq<string>, seq<seq<string>>))
    decreases |later|
  {
    if |later| == 0 then (colNames, [])
    else if !IsCsvName(later[0].name) then StackFrom(colNames, later[1..])
    else
      var newCols := Fresh(colNames, later[0].columns);
      var rest := StackFrom(colNames + newCols, later[1..]);
      (rest.0, [newCols] + rest.1)
  }

  /** All the columns `colNames` ends with, and those the frames contribute, in order. */
  function Flatten(parts: seq<seq<string>>): seq<string>
    decreases |parts|
  {
    if |parts| == 0 then [] else parts[0] + Flatten(parts[1..])
  }

  /** `colNames` is always the side-by-side header of the selected frames, and it never repeats a label. */
  lemma {:induction false} StackFromSpec(colNames: seq<string>, later: seq<CsvFile>)
    requires Distinct(colNames)
    ensures StackFrom(colNames, later).0 == colNames + Flatten(StackFrom(colNames, later).1)
    ensures Distinct(StackFrom(colNames, later).0)
    decreases |later|
  {
    if |later| > 0 {
      if IsCsvName(later[0].name) {
        var newCols := Fresh(colNames, later[0].columns);
        FreshExtends(colNames, later[0].columns);
        StackFromSpec(colNames + newCols, later[1..]);
        var rest := StackFrom(colNames + newCols, later[1..]);
        assert StackFrom(colNames, later) == (rest.0, [newCols] + rest.1);
        assert Flatten([newCols] + rest.1) == newCols + Flatten(rest.1) by {
          assert ([newCols] + rest.1)[1..] == rest.1;
        }
        assert colNames + newCols + Flatten(rest.1) == colNames + (newCols + Flatten(rest.1));
      } else {
        StackFromSpec(colNames, later[1..]);
        assert StackFrom(colNames, later) == StackFrom(colNames, later[1..]);
      }
    }
  }

  /** The column bookkeeping of the whole stacking loop: the first CSV file starts `colNames`. */
  function Stack(files: seq<CsvFile>): (r: (seq<string>, seq<seq<string>>))
    decreases |files|
  {
    if |files| == 0 then ([], [])
    else if !IsCsvName(files[0].name) then Stack(files[1..])
    else
      var rest := StackFrom(files[0].columns, files[1..]);
      (rest.0, [files[0].columns] + rest.1)
  }

  /** Stacked frames never bring a label in twice: the header of the concatenation is duplicate-free. */
  lemma {:induction false} StackSpec(files: seq<CsvFile>)
    requires forall k :: 0 <= k < |files| ==> Distinct(files[k].columns)
    ensures Stack(files).0 == Flatten(Stack(files).1)
    ensures Distinct(Stack(files).0)
    decreases |files|
  {
    if |files| > 0 {
      if IsCsvName(files[0].name) {
        var first := files[0].columns;
        StackFromSpec(first, files[1..]);
        var rest := StackFrom(first, files[1..]);
        assert ([first] + rest.1)[1..] == rest.1;
      } else {
        StackSpec(files[1..]);
      }
    }
  }

  /** The inner loop of the stacking step: `newCols` and the extended `colNames`. */
  method FreshColumns(colNames: seq<string>, cols: seq<string>) returns (newCols: seq<string>, names: seq<string>)
    ensures newCols == Fresh(colNames, cols)
    ensures names == colNames + newCols
  {
    newCols := [];
    names := colNames;
    for c := 0 to |cols|
      invariant names == colNames + newCols
      invariant Fresh(colNames, cols) == newCols + Fresh(names, cols[c..])
    {
      var col := cols[c];
      assert cols[c..][1..] == cols[c + 1..];
      if col !in names {
        newCols := newCols + [col];
        names := names + [col];
      }
    }
    assert cols[|cols|..] == [];
  }

  /**
   * The stacking loop of the SWD builders: the first CSV file keeps all
   * its columns and starts `colNames`; every later CSV file keeps the
   * columns not yet in `colNames`, which are appended to it one by one.
   * `selected` lists the kept columns of each CSV file in order; names
   * not ending in `.csv` are skipped.
   */
  method StackColumns(files: seq<CsvFile>) returns (colNames: seq<string>, selected: seq<seq<string>>)
    ensures (colNames, selected) == Stack(files)
  {
    colNames := [];
    selected := [];
    var firstFile := true;
    for n := 0 to |files|
      invariant firstFile ==> colNames == [] && selected == [] && Stack(files) == Stack(files[n..])
      invariant !firstFile ==> Stack(files) == (StackFrom(colNames, files[n..]).0,
                                                selected + StackFrom(colNames, files[n..]).1)
    {
      var f := files[n];
      assert files[n..][1..] == files[n + 1..];
      if IsCsvName(f.name) {
        if firstFile {
          firstFile := false;
          colNames := f.columns;
          selected := [f.columns];
        } else {
          var newCols;
          ghost var rest := StackFrom(colNames + Fresh(colNames, f.columns), files[n + 1..]);
          assert StackFrom(colNames, files[n..]) == (rest.0, [Fresh(colNames, f.columns)] + rest.1);
          newCols, colNames := FreshColumns(colNames, f.columns);
          assert selected + ([newCols] + rest.1) == (selected + [newCols]) + rest.1;
          selected := selected + [newCols];
        }
      } else {
        assert Stack(files[n..]) == Stack(files[n + 1..]);
        assert StackFrom(colNames, files[n..]) == StackFrom(colNames, files[n + 1..]);
      }
    }
    assert files[|files|..] == [];
    if !firstFile {
      assert StackFrom(colNames, []) == (colNames, []);
      assert selected + [] == selected;
    }
  }

  // ---------------------------------------------------------------------
  // Row pruner building blocks
  // ---------------------------------------------------------------------

  /**
   * `(df[speciesName] == 0) & (df[fld] == -9999)` on one row, with the
   * label in cell `lab` and the field in cell `k`; a text or missing cell
   * is never equal to a number.
   */
  predicate AbsenceNullAt(r: Row, lab: nat, k: nat) {
    lab < |r| && k < |r| && r[lab] == Num(0) && r[k] == Num(Sentinel)
  }

  /** Some column of `cols` makes the row a background row with no data. */
  predicate Pruned(r: Row, lab: nat, cols: set<nat>) {
    exists k :: k in cols && AbsenceNullAt(r, lab, k)
  }

  /** The rows not pruned by any column of `cols`, in their order. */
  function KeepRows(rows: seq<Row>, lab: nat, cols: set<nat>): (r: seq<Row>)
    ensures |r| <= |rows|
  {
    Filter(rows, (x: Row) => !Pruned(x, lab, cols))
  }

  /** A row survives iff it was there and no column of `cols` prunes it; survivors keep their order. */
  lemma KeepRowsSpec(rows: seq<Row>, lab: nat, cols: set<nat>, r: Row)
    ensures r in KeepRows(rows, lab, cols) <==> r in rows && !Pruned(r, lab, cols)
    ensures IsSubseq(KeepRows(rows, lab, cols), rows)
  {
    FilterMember(rows, (x: Row) => !Pruned(x, lab, cols), r);
    FilterSubseq(rows, (x: Row) => !Pruned(x, lab, cols));
  }

  /** Pruning by `a` and then by `b` is pruning by both. */
  lemma KeepRowsCompose(rows: seq<Row>, lab: nat, a: set<nat>, b: set<nat>)
    ensures KeepRows(KeepRows(rows, lab, a), lab, b) == KeepRows(rows, lab, a + b)
  {
    FilterCompose(rows, (x: Row) => !Pruned(x, lab, a), (x: Row) => !Pruned(x, lab, b),
                  (x: Row) => !Pruned(x, lab, a + b));
  }

  /** Pruning twice by the same columns removes nothing more. */
  lemma KeepRowsIdempotent(rows: seq<Row>, lab: nat, cols: set<nat>)
    ensures KeepRows(KeepRows(rows, lab, cols), lab, cols) == KeepRows(rows, lab, cols)
  {
    KeepRowsCompose(rows, lab, cols, cols);
    assert cols + cols == cols;
  }

  /** Pruning column after column, in any order, as the loop over `list(theDF.columns)` does. */
  function PruneInOrder(rows: seq<Row>, lab: nat, order: seq<nat>): seq<Row>
    decreases |order|
  {
    if |order| == 0 then rows else PruneInOrder(KeepRows(rows, lab, {order[0]}), lab, order[1..])
  }

  /** The column order does not matter: only the set of columns visited decides which rows survive. */
  lemma {:induction false} PruneInOrderSpec(rows: seq<Row>, lab: nat, order: seq<nat>)
    ensures PruneInOrder(rows, lab, order) == KeepRows(rows, lab, Elems(order))
    decreases |order|
  {
    if |order| == 0 {
      assert Elems(order) == {};
      FilterAll(rows, (x: Row) => !Pruned(x, lab, {}));
    } else {
      PruneInOrderSpec(KeepRows(rows, lab, {order[0]}), lab, order[1..]);
      KeepRowsCompose(rows, lab, {order[0]}, Elems(order[1..]));
      assert order == [order[0]] + order[1..];
      ElemsCons(order[0], order[1..]);
    }
  }

  /** A row whose label is not `0` (a presence row, or one with a missing label) is never pruned. */
  lemma KeepRowsNonBackground(rows: seq<Row>, lab: nat, cols: set<nat>)
    ensures Filter(KeepRows(rows, lab, cols), (x: Row) => !(lab < |x| && x[lab] == Num(0)))
         == Filter(rows, (x: Row) => !(lab < |x| && x[lab] == Num(0)))
  {
    var nb := (x: Row) => !(lab < |x| && x[lab] == Num(0));
    var kp := (x: Row) => !Pruned(x, lab, cols);
    FilterCompose(rows, kp, nb, (x: Row) => kp(x) && nb(x));
    FilterExt(rows, (x: Row) => kp(x) && nb(x), nb);
  }

  // ---------------------------------------------------------------------
  // removePresenceNullColumns
  // ---------------------------------------------------------------------

  /** `Series.min()` as the scripts use it: the least number of the column, skipping NaN and text. */
  function MinNum(col: seq<Cell>): (m: Option<int>)
    ensures m.None? <==> forall i :: 0 <= i < |col| ==> !col[i].Num?
    ensures m.Some? ==> (exists i :: 0 <= i < |col| && col[i] == Num(m.value)) &&
                        forall i :: 0 <= i < |col| && col[i].Num? ==> m.value <= col[i].n
    decreases |col|
  {
    if |col| == 0 then None
    else
      var rest := MinNum(col[1..]);
      assert forall i :: 1 <= i < |col| ==> col[i] == col[1..][i - 1];
      if !col[0].Num? then rest
      else if rest.None? || col[0].n <= rest.value then Some(col[0].n)
      else rest
  }

  /** `theDF[fld].min() == -9999`. */
  predicate NullColumn(col: seq<Cell>) {
    MinNum(col) == Some(Sentinel)
  }

  /** A column is a null column iff it holds the sentinel and no smaller number. */
  lemma NullColumnIff(col: seq<Cell>)
    ensures NullColumn(col) <==>
            Num(Sentinel) in col && forall i :: 0 <= i < |col| && col[i].Num? ==> Sentinel <= col[i].n
  {
    if Num(Sentinel) in col && forall i :: 0 <= i < |col| && col[i].Num? ==> Sentinel <= col[i].n {
      var k :| 0 <= k < |col| && col[k] == Num(Sentinel);
      var m := MinNum(col);
      assert m.Some?;
      assert m.value <= col[k].n;
    }
  }

  /** The labels of the null columns. */
  function NullColumns(t: Table): set<string>
    requires Rectangular(t)
  {
    set x | x in t.header && NullColumn(Column(t, x))
  }

  /**
   * `removePresenceNullColumns`: visits a snapshot of the labels and drops,
   * in place, each column whose minimum is the sentinel; the rows are not
   * touched.
   */
  method RemovePresenceNullColumns(df: DataFrame)
    requires df.Valid() && Distinct(df.header)
    modifies df
    ensures df.Valid()
    ensures df.Value() == DropNames(old(df.Value()), NullColumns(old(df.Value())))
  {
    ghost var t0 := df.Value();
    var flds := df.header;
    ghost var dropped: set<string> := {};
    DropNamesAbsent(t0, {});
    for i := 0 to |flds|
      invariant df.Valid()
      invariant dropped == set x | x in flds[..i] && NullColumn(Column(t0, x))
      invariant df.Value() == DropNames(t0, dropped)
    {
      var fld := flds[i];
      assert fld !in dropped by {
        assert forall k :: 0 <= k < i ==> flds[k] != fld;
      }
      DropNamesColumn(t0, dropped, fld);
      assert flds[..i + 1] == flds[..i] + [fld];
      if MinNum(Column(df.Value(), fld)) == Some(Sentinel) {
        var _ := df.Drop(fld);
        DropNamesCompose(t0, dropped, {fld});
        dropped := dropped + {fld};
      }
    }
    assert flds[..|flds|] == flds;
  }

  /** After the null-column pruner, no remaining column has the sentinel as its minimum, and only null columns are gone. */
  lemma NoNullColumnLeft(t: Table, x: string)
    requires Wf(t)
    ensures x in DropNames(t, NullColumns(t)).header <==> x in t.header && !NullColumn(Column(t, x))
    ensures x in DropNames(t, NullColumns(t)).header ==> !NullColumn(Column(DropNames(t, NullColumns(t)), x))
  {
    DropNamesHeader(t, NullColumns(t), x);
    if x in t.header && x !in NullColumns(t) {
      DropNamesColumn(t, NullColumns(t), x);
    }
  }

  // ---------------------------------------------------------------------
  // Correlation filter building blocks
  // ---------------------------------------------------------------------

  /** `stats.pearsonr(label, column)`: coefficient and p-value, taken as given. */
  datatype LabelCorr = LabelCorr(coeff: real, p: real)

  function Abs(x: real): (r: real)
    ensures r >= 0.0 && (r == x || r == -x)
  {
    if x < 0.0 then -x else x
  }

  /** The p-value cut-off of the univariate filter. */
  const PCutoff: real := 0.05

  /** A column passes the univariate filter unless `abs(pValue) > 0.05`. */
  predicate Significant(c: LabelCorr) {
    !(Abs(c.p) > PCutoff)
  }

  /** The examined columns whose p-value fails the cut-off. */
  function Insignificant(flds: seq<string>, pearson: string -> LabelCorr): set<string> {
    set x | x in flds && !Significant(pearson(x))
  }

  lemma InsignificantSnoc(flds: seq<string>, x: string, pearson: string -> LabelCorr)
    ensures Insignificant(flds + [x], pearson) ==
            Insignificant(flds, pearson) + (if Significant(pearson(x)) then {} else {x})
  {
  }

  /** The default threshold of the redundancy filter. */
  const DefaultThreshold: real := 0.75

  /** `list(theDF.columns)[:6]`. */
  function FirstSix(h: seq<string>): seq<string> {
    if |h| <= 6 then h else h[..6]
  }

  /** `list(theDF.columns)[6:]`: the columns the correlation filters examine. */
  function FromSix(h: seq<string>): (r: seq<string>)
    ensures FirstSix(h) + r == h
  {
    if |h| <= 6 then [] else h[6..]
  }

  /** With distinct labels, the examined columns are distinct and the two parts of the header do not share a label. */
  lemma FirstSixFromSix(h: seq<string>, x: string)
    requires Distinct(h)
    ensures Distinct(FromSix(h))
    ensures x in h <==> x in FirstSix(h) || x in FromSix(h)
    ensures !(x in FirstSix(h) && x in FromSix(h))
  {
    var f, r := FirstSix(h), FromSix(h);
    assert f + r == h;
    forall a, b | 0 <= a < b < |r|
      ensures r[a] != r[b]
    {
      assert r[a] == h[|f| + a] && r[b] == h[|f| + b];
    }
  }

  /** Dropping only examined columns leaves the first six columns where they were. */
  lemma FirstSixKept(t: Table, names: set<string>)
    requires Wf(t)
    requires forall x :: x in names ==> x in FromSix(t.header)
    ensures FirstSix(DropNames(t, names).header) == FirstSix(t.header)
  {
    var h := t.header;
    var k := |FirstSix(h)|;
    assert forall i :: 0 <= i < k ==> h[i] !in names;
    KeepWherePrefix(h, h, names, k);
    assert h[..k] == FirstSix(h);
  }

  /**
   * The label recoding for MaxEnt on one cell: presence 1 becomes the
   * species name, background 0 becomes "Background", anything else stays.
   */
  function RecodeLabel(c: Cell, sppName: string): Cell {
    if c == Num(1) then Text(sppName)
    else if c == Num(0) then Text("Background")
    else c
  }

  /** The table with its label column `name` recoded; a table without that column is left as it is. */
  function Recoded(t: Table, name: string, sppName: string): (r: Table)
    requires Rectangular(t)
    ensures Rectangular(r) && r.header == t.header && |r.rows| == |t.rows|
  {
    if name in t.header then MapColumn(t, IndexOf(t.header, name), (c: Cell) => RecodeLabel(c, sppName)) else t
  }

  /**
   * The two in-place `sppVector.replace` calls at the end of both
   * `removeUncorrelated` copies, 0 by "Background" and then 1 by the
   * species name, recode the label column: the second never matches a cell
   * the first one rewrote.
   */
  lemma ReplacesRecode(t: Table, name: string, sppName: string)
    requires Rectangular(t) && name in t.header
    ensures var k := IndexOf(t.header, name);
            AssignWhere(AssignWhere(t, k, Num(0), k, Text("Background")), k, Num(1), k, Text(sppName)) ==
            Recoded(t, name, sppName)
  {
    var k := IndexOf(t.header, name);
    var t1 := AssignWhere(t, k, Num(0), k, Text("Background"));
    var t2 := AssignWhere(t1, k, Num(1), k, Text(sppName));
    var m := Recoded(t, name, sppName);
    assert m == MapColumn(t, k, (c: Cell) => RecodeLabel(c, sppName));
    forall i | 0 <= i < |t.rows|
      ensures t2.rows[i] == m.rows[i]
    {
      assert forall j :: 0 <= j < |t.header| ==> t2.rows[i][j] == m.rows[i][j];
    }
  }

  /** Recoding twice is recoding once: a recoded label is text or neither 0 nor 1. */
  lemma {:induction false} RecodedIdempotent(t: Table, name: string, sppName: string)
    requires Rectangular(t)
    ensures Recoded(Recoded(t, name, sppName), name, sppName) == Recoded(t, name, sppName)
  {
    if name in t.header {
      var k := IndexOf(t.header, name);
      var once := Recoded(t, name, sppName);
      var twice := Recoded(once, name, sppName);
      assert once == MapColumn(t, k, (c: Cell) => RecodeLabel(c, sppName));
      assert twice == MapColumn(once, k, (c: Cell) => RecodeLabel(c, sppName));
      forall i | 0 <= i < |t.rows|
        ensures twice.rows[i] == once.rows[i]
      {
        assert forall j :: 0 <= j < |t.header| ==> twice.rows[i][j] == once.rows[i][j];
      }
    }
  }

  /** In a recoded table the label column holds each row's recoded label, and every other column is as it was. */
  lemma RecodedColumn(t: Table, name: string, sppName: string, x: string)
    requires Wf(t) && name in t.header && x in t.header
    ensures x in Recoded(t, name, sppName).header
    ensures forall i :: 0 <= i < |t.rows| ==>
              Column(Recoded(t, name, sppName), x)[i] ==
              if x == name then RecodeLabel(Column(t, x)[i], sppName) else Column(t, x)[i]
  {
    var r := Recoded(t, name, sppName);
    forall i | 0 <= i < |t.rows|
      ensures Column(r, x)[i] == if x == name then RecodeLabel(Column(t, x)[i], sppName) else Column(t, x)[i]
    {
      assert r.rows[i][IndexOf(t.header, x)] ==
             if IndexOf(t.header, x) == IndexOf(t.header, name) then RecodeLabel(t.rows[i][IndexOf(t.header, x)], sppName)
             else t.rows[i][IndexOf(t.header, x)];
    }
  }

  /**
   * What the univariate filter leaves of a frame whose label is among its
   * first six columns: the label column survives, recoded row by row.
   */
  lemma UncorrelatedRecodesLabel(t: Table, speciesName: string, sppName: string, pearson: string -> LabelCorr)
    requires Wf(t) && speciesName in FirstSix(t.header)
    ensures var u := Recoded(DropNames(t, Insignificant(FromSix(t.header), pearson)), speciesName, sppName);
            speciesName in u.header && |u.rows| == |t.rows| &&
            forall i :: 0 <= i < |t.rows| ==> Column(u, speciesName)[i] == RecodeLabel(Column(t, speciesName)[i], sppName)
  {
    var names := Insignificant(FromSix(t.header), pearson);
    FirstSixFromSix(t.header, speciesName);
    var d := DropNames(t, names);
    DropNamesColumn(t, names, speciesName);
    DropNamesWf(t, names);
    RecodedColumn(d, speciesName, sppName, speciesName);
  }

  /**
   * The drop pass of the redundancy filters: drops the listed columns one
   * after the other, in place.
   */
  method DropEach(df: DataFrame, names: seq<string>)
    requires df.Valid() && Distinct(names)
    requires forall i :: 0 <= i < |names| ==> names[i] in df.header
    modifies df
    ensures df.Valid()
    ensures df.Value() == DropNames(old(df.Value()), Elems(names))
  {
    ghost var t0 := df.Value();
    DropNamesAbsent(t0, {});
    assert Elems(names[..0]) == {};
    for i := 0 to |names|
      invariant df.Valid()
      invariant df.Value() == DropNames(t0, Elems(names[..i]))
    {
      var x := names[i];
      DropNamesHeader(t0, Elems(names[..i]), x);
      assert x !in names[..i] by {
        assert forall k :: 0 <= k < i ==> names[k] != x;
      }
      var _ := df.Drop(x);
      DropNamesCompose(t0, Elems(names[..i]), {x});
      assert names[..i + 1] == names[..i] + [x];
      ElemsSnoc(names[..i], x);
    }
    assert names[..|names|] == names;
  }
}
