/**
 * The data-preparation extractor (`ExtractSpeciesData`): its own label
 * column, which replaces the occurrence value by a `Species` column of
 * names, and its stacking loop, which compares every later frame with the
 * first frame's columns only.
 */
module ExtractSpeciesData {
  import opened Wrappers
  import opened Seqs
  import opened Strings
  import opened Frames
  import opened SwdCommon

  // ---------------------------------------------------------------------
  // mergePresAbs: the Species column
  // ---------------------------------------------------------------------

  /** The `Species` value of a row whose occurrence value is `occ`: the species name iff it is 1, NaN counting as 0. */
  function SpeciesValue(occ: Cell, species: string): Cell {
    if FillZero(occ) == Num(1) then Text(species) else Text("Background")
  }

  /** Dropping the third of three leading labels, when no later label is the same. */
  lemma DropThird<T>(xs: seq<T>, tags: seq<string>, x: string)
    requires |xs| == |tags| >= 3 && tags[2] == x && tags[0] != x && tags[1] != x
    requires forall i :: 3 <= i < |tags| ==> tags[i] != x
    ensures KeepWhere(xs, tags, {x}) == xs[..2] + xs[3..]
  {
    KeepWherePrefix(xs, tags, {x}, 2);
    var a, b := xs[2..], tags[2..];
    assert b[0] == x;
    assert KeepWhere(a, b, {x}) == KeepWhere(a[1..], b[1..], {x});
    assert a[1..] == xs[3..] && b[1..] == tags[3..];
    assert forall i :: 0 <= i < |tags[3..]| ==> tags[3..][i] !in {x} by {
      assert forall i :: 0 <= i < |tags[3..]| ==> tags[3..][i] == tags[i + 3];
    }
    KeepWhereNothing(xs[3..], tags[3..], {x});
  }

  /**
   * The four in-place steps of `mergePresAbs` after the join: insert
   * `Species` at 0, fill the occurrence column (now at 2), set `Species`
   * where it is 1, drop it.
   */
  function LabelSteps(j: Table, species: string): Table
    requires Rectangular(j) && |j.header| >= 2
  {
    var t1 := WithFirstColumn(j, "Species", Text("Background"));
    DropNames(AssignWhere(MapColumn(t1, 2, FillZero), 2, Num(1), 0, Text(species)), {species})
  }

  /** What the in-place steps leave of each joined row. */
  lemma LabelStepsSpec(j: Table, species: string, rest: seq<string>)
    requires Rectangular(j) && j.header == ["FEATUREID", species] + rest
    requires species != "Species" && species != "FEATUREID" && species !in rest
    ensures LabelSteps(j, species).header == ["Species", "FEATUREID"] + rest
    ensures |LabelSteps(j, species).rows| == |j.rows|
    ensures forall i :: 0 <= i < |j.rows| ==>
              LabelSteps(j, species).rows[i] == [SpeciesValue(j.rows[i][1], species), j.rows[i][0]] + j.rows[i][2..]
  {
    var t1 := WithFirstColumn(j, "Species", Text("Background"));
    var t3 := AssignWhere(MapColumn(t1, 2, FillZero), 2, Num(1), 0, Text(species));
    var h := t1.header;
    assert forall i :: 3 <= i < |h| ==> h[i] != species by {
      assert forall i :: 3 <= i < |h| ==> h[i] == rest[i - 3];
    }
    DropThird(h, h, species);
    assert h[..2] + h[3..] == ["Species", "FEATUREID"] + rest;
    forall i | 0 <= i < |j.rows|
      ensures LabelSteps(j, species).rows[i] == [SpeciesValue(j.rows[i][1], species), j.rows[i][0]] + j.rows[i][2..]
    {
      var row := t3.rows[i];
      assert row[0] == SpeciesValue(j.rows[i][1], species);
      assert row[1] == j.rows[i][0];
      assert row[3..] == j.rows[i][2..];
      DropThird(row, h, species);
    }
  }

  /**
   * The in-place steps of `mergePresAbs` on the joined table: the insert
   * fails with a ValueError when a `Species` column is already there.
   */
  method LabelInPlace(j: Table, species: string) returns (r: Result<Table, string>)
    requires Rectangular(j) && Distinct(j.header) && |j.header| >= 2 && j.header[1] == species
    ensures r.Ok? <==> "Species" !in j.header
    ensures r.Ok? ==> r.value == LabelSteps(j, species)
  {
    var df := new DataFrame(j);
    var ok := df.InsertFirst("Species", Text("Background"));
    if !ok {
      return Err("ValueError: cannot insert Species, already exists");
    }
    ghost var h := df.header;
    assert h == ["Species"] + j.header;
    DistinctCons("Species", j.header);
    assert IndexOf(h, species) == 2;
    assert IndexOf(h, "Species") == 0;
    var _ := df.FillNa(species);
    var _ := df.SetWhere(species, Num(1), "Species", Text(species));
    var _ := df.Drop(species);
    r := Ok(df.Value());
  }

  /**
   * `mergePresAbs`: the right join, then a first column `Species` set to
   * "Background", the occurrence value filled with 0, `Species` set to the
   * species name where that value is 1, and the occurrence column dropped.
   * A catchment table without FEATUREID is a KeyError; a `Species` column
   * already present makes the insert a ValueError.
   */
  method MergePresAbs(eo: Occurrences, data: Table, species: string) returns (r: Result<Table, string>)
    requires Wf(data) && species != "FEATUREID" && species !in data.header
    ensures r.Ok? <==> "FEATUREID" in data.header && "Species" !in data.header && species != "Species"
    ensures r.Ok? ==> Rectangular(r.value) && |r.value.rows| == |data.rows| &&
                      r.value.header == ["Species", "FEATUREID"] + KeepWhere(data.header, data.header, {"FEATUREID"})
    ensures r.Ok? ==> forall i :: 0 <= i < |data.rows| ==>
              var key := data.rows[i][IndexOf(data.header, "FEATUREID")];
              r.value.rows[i] == [SpeciesValue(JoinLabel(eo, key), species), key] +
                                 KeepWhere(data.rows[i], data.header, {"FEATUREID"})
  {
    var joined := RightJoin(eo, data, species);
    if joined.Err? {
      return Err(joined.error);
    }
    var j := joined.value;
    var rest := KeepWhere(data.header, data.header, {"FEATUREID"});
    KeepWhereMember(data.header, {"FEATUREID"}, "Species");
    KeepWhereMember(data.header, {"FEATUREID"}, species);
    RightJoinHeader(eo, data, species);
    var labelled := LabelInPlace(j, species);
    if labelled.Err? {
      return Err(labelled.error);
    }
    var out := labelled.value;
    LabelStepsSpec(j, species, rest);
    forall i | 0 <= i < |data.rows|
      ensures var key := data.rows[i][IndexOf(data.header, "FEATUREID")];
              out.rows[i] == [SpeciesValue(JoinLabel(eo, key), species), key] +
                             KeepWhere(data.rows[i], data.header, {"FEATUREID"})
    {
      RightJoinSpec(eo, data, species, i);
    }
    return Ok(out);
  }

  /**
   * Every catchment row survives the join with a `Species` value, and that
   * value is the species name exactly for the catchments whose occurrence
   * record says 1; the occurrence column itself is gone.
   */
  lemma SpeciesColumnSpec(eo: Occurrences, species: string, key: Cell)
    requires species != "Background"
    ensures SpeciesValue(JoinLabel(eo, key), species) == Text(species) <==>
            key.Text? && key.s in eo && eo[key.s] == Num(1)
    ensures SpeciesValue(JoinLabel(eo, key), species) != Text(species) ==>
            SpeciesValue(JoinLabel(eo, key), species) == Text("Background")
  {
  }

  // ---------------------------------------------------------------------
  // Stacking: later frames compared with the first frame only
  // ---------------------------------------------------------------------

  lemma FlattenCons(p: seq<string>, rest: seq<seq<string>>)
    ensures Flatten([p] + rest) == p + Flatten(rest)
  {
    assert ([p] + rest)[1..] == rest;
  }

  /** The columns of a later frame not among `colNames`, in order. */
  function NotSeen(colNames: seq<string>, cols: seq<string>): (r: seq<string>)
    ensures forall x :: x in r <==> x in cols && x !in colNames
  {
    FilterMemberAll(cols, (x: string) => x !in colNames);
    Filter(cols, (x: string) => x !in colNames)
  }

  lemma FilterMemberAll<T>(s: seq<T>, p: T -> bool)
    ensures forall x :: x in Filter(s, p) <==> x in s && p(x)
  {
    forall x {
      FilterMember(s, p, x);
    }
  }

  /** The kept columns of the CSV files after the first, each compared with the unchanged `colNames`. */
  function AgainstFirst(colNames: seq<string>, later: seq<CsvFile>): seq<seq<string>>
    decreases |later|
  {
    if |later| == 0 then []
    else if !IsCsvName(later[0].name) then AgainstFirst(colNames, later[1..])
    else [NotSeen(colNames, later[0].columns)] + AgainstFirst(colNames, later[1..])
  }

  /** The columns each CSV file contributes when the first file's header is never extended. */
  function StackAsWritten(files: seq<CsvFile>): seq<seq<string>>
    decreases |files|
  {
    if |files| == 0 then []
    else if !IsCsvName(files[0].name) then StackAsWritten(files[1..])
    else [files[0].columns] + AgainstFirst(files[0].columns, files[1..])
  }

  /** The inner loop of the stacking step: the columns not in `colNames`, with `colNames` left as it is. */
  method NewColumns(colNames: seq<string>, cols: seq<string>) returns (newCols: seq<string>)
    ensures newCols == NotSeen(colNames, cols)
  {
    newCols := [];
    for c := 0 to |cols|
      invariant newCols == Filter(cols[..c], (x: string) => x !in colNames)
    {
      var col := cols[c];
      FilterConcat(cols[..c], [col], (x: string) => x !in colNames);
      assert cols[..c + 1] == cols[..c] + [col];
      if !(col in colNames) {
        newCols := newCols + [col];
      }
    }
    assert cols[..|cols|] == cols;
  }

  /**
   * The stacking loop of the extractor: the first CSV file keeps all its
   * columns and fixes `colNames`; every later CSV file keeps the columns
   * not in `colNames`, which is never extended.
   */
  method StackColumns(files: seq<CsvFile>) returns (selected: seq<seq<string>>)
    ensures selected == StackAsWritten(files)
  {
    selected := [];
    var colNames: seq<string> := [];
    var firstFile := true;
    for n := 0 to |files|
      invariant firstFile ==> selected == [] && StackAsWritten(files) == StackAsWritten(files[n..])
      invariant !firstFile ==> StackAsWritten(files) == selected + AgainstFirst(colNames, files[n..])
    {
      var f := files[n];
      assert files[n..][1..] == files[n + 1..];
      if IsCsvName(f.name) {
        if firstFile {
          firstFile := false;
          colNames := f.columns;
          selected := [f.columns];
        } else {
          var newCols := NewColumns(colNames, f.columns);
          assert selected + ([newCols] + AgainstFirst(colNames, files[n + 1..])) ==
                 (selected + [newCols]) + AgainstFirst(colNames, files[n + 1..]);
          selected := selected + [newCols];
        }
      }
    }
    assert files[|files|..] == [];
  }

  /**
   * Three CSV files with headers [A], [B] and [B]: the extractor keeps B
   * twice, so the concatenated header repeats a label, while the stacking
   * of the SWD builders, which extends `colNames`, keeps it once.
   */
  lemma StackRepeatsLaterColumn()
    ensures var files := [CsvFile("a.csv", ["A"]), CsvFile("b.csv", ["B"]), CsvFile("c.csv", ["B"])];
            Flatten(StackAsWritten(files)) == ["A", "B", "B"] && !Distinct(Flatten(StackAsWritten(files))) &&
            Flatten(Stack(files).1) == ["A", "B"] && Distinct(Stack(files).0)
  {
    var files := [CsvFile("a.csv", ["A"]), CsvFile("b.csv", ["B"]), CsvFile("c.csv", ["B"])];
    AsWrittenOfThree(files);
    StackOfThree(files);
    StackSpec(files);
    assert Flatten(StackAsWritten(files))[1] == Flatten(StackAsWritten(files))[2];
  }

  /** The extractor's header for the three files of `StackRepeatsLaterColumn`. */
  lemma AsWrittenOfThree(files: seq<CsvFile>)
    requires files == [CsvFile("a.csv", ["A"]), CsvFile("b.csv", ["B"]), CsvFile("c.csv", ["B"])]
    ensures Flatten(StackAsWritten(files)) == ["A", "B", "B"]
  {
    assert IsCsvName(files[0].name) && IsCsvName(files[1].name) && IsCsvName(files[2].name);
    assert files[1..] == [files[1], files[2]];
    assert files[1..][1..] == [files[2]];
    assert NotSeen(["A"], ["B"]) == ["B"];
    assert AgainstFirst(["A"], [files[2]]) == [["B"]];
    assert AgainstFirst(["A"], files[1..]) == [["B"], ["B"]];
    var sw := StackAsWritten(files);
    assert sw == [["A"], ["B"], ["B"]];
    FlattenCons(["A"], [["B"], ["B"]]);
    FlattenCons(["B"], [["B"]]);
    FlattenCons(["B"], []);
  }

  /** The SWD builders' stacking of the three files of `StackRepeatsLaterColumn`. */
  lemma StackOfThree(files: seq<CsvFile>)
    requires files == [CsvFile("a.csv", ["A"]), CsvFile("b.csv", ["B"]), CsvFile("c.csv", ["B"])]
    ensures Flatten(Stack(files).1) == ["A", "B"]
  {
    assert IsCsvName(files[0].name) && IsCsvName(files[1].name) && IsCsvName(files[2].name);
    assert files[1..] == [files[1], files[2]];
    assert files[1..][1..] == [files[2]];
    assert Fresh(["A"], ["B"]) == ["B"];
    assert Fresh(["A", "B"], ["B"]) == [];
    assert ["A"] + ["B"] == ["A", "B"];
    assert StackFrom(["A", "B"], [files[2]]).1 == [[]];
    assert StackFrom(["A"], files[1..]).1 == [["B"], []];
    var st := Stack(files);
    assert st.1 == [["A"], ["B"], []];
    FlattenCons(["A"], [["B"], []]);
    FlattenCons(["B"], [[]]);
    FlattenCons([], []);
  }

  /** Later frames never bring back a column of the first frame, and keep their other columns in order. */
  lemma {:induction false} AgainstFirstSpec(colNames: seq<string>, later: seq<CsvFile>, k: nat, x: string)
    requires k < |AgainstFirst(colNames, later)|
    ensures x in AgainstFirst(colNames, later)[k] ==> x !in colNames
    ensures exists n :: 0 <= n < |later| && IsCsvName(later[n].name) &&
                        AgainstFirst(colNames, later)[k] == NotSeen(colNames, later[n].columns)
    decreases |later|
  {
    var a := AgainstFirst(colNames, later);
    if !IsCsvName(later[0].name) {
      AgainstFirstSpec(colNames, later[1..], k, x);
      var n :| 0 <= n < |later[1..]| && IsCsvName(later[1..][n].name) &&
               a[k] == NotSeen(colNames, later[1..][n].columns);
      assert later[n + 1] == later[1..][n];
    } else if k > 0 {
      AgainstFirstSpec(colNames, later[1..], k - 1, x);
      var n :| 0 <= n < |later[1..]| && IsCsvName(later[1..][n].name) &&
               AgainstFirst(colNames, later[1..])[k - 1] == NotSeen(colNames, later[1..][n].columns);
      assert later[n + 1] == later[1..][n];
    } else {
      assert a[0] == NotSeen(colNames, later[0].columns);
    }
  }
}
