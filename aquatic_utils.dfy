/**
 * `getSpeciesList` of the aquatic utilities: the indicator species of one
 * ecoregion, read from the species table, as a multivalue string with the
 * names separated by `;`.
 */
module AquaticUtils {
  import opened Wrappers
  import opened Seqs
  import opened Strings
  import opened Frames

  /** The column holding the species names. */
  const NameColumn: string := "ScientificName"

  /** The ecoregion argument that selects every species. */
  const AllRegions: string := "ALL"

  /** The separator of a multivalue string. */
  const Separator: char := ';'

  /** Why pandas fails: no name column (AttributeError) or no ecoregion column (KeyError). */
  datatype Failure = NoNameColumn | NoRegionColumn(region: string)

  /** `"{}".format(v)` for a cell of the species table. */
  function Format(c: Cell): string {
    match c
    case Text(s) => s
    case Num(n) => IntToString(n)
    case Missing => "nan"
  }

  /** The flag test `sppDF[ecoregion] == 1` on one row. */
  predicate Flagged(r: Row, e: nat) {
    e < |r| && r[e] == Num(1)
  }

  /** `sppDF.ScientificName.values`, each as text. */
  function Names(rows: seq<Row>, n: nat): seq<string>
    requires forall i :: 0 <= i < |rows| ==> n < |rows[i]|
  {
    seq(|rows|, i requires 0 <= i < |rows| => Format(rows[i][n]))
  }

  /** `sppDF.ScientificName[sppDF[ecoregion] == 1].values`, each as text. */
  function FlaggedNames(rows: seq<Row>, n: nat, e: nat): (r: seq<string>)
    requires forall i :: 0 <= i < |rows| ==> n < |rows[i]|
    ensures |r| <= |rows|
    decreases |rows|
  {
    if |rows| == 0 then []
    else (if Flagged(rows[0], e) then [Format(rows[0][n])] else []) + FlaggedNames(rows[1..], n, e)
  }

  /**
   * The flagged selection holds exactly the names of flagged rows, and it
   * keeps their table order: it is a subsequence of all the names.
   */
  lemma {:induction false} FlaggedNamesSpec(rows: seq<Row>, n: nat, e: nat, x: string)
    requires forall i :: 0 <= i < |rows| ==> n < |rows[i]|
    ensures x in FlaggedNames(rows, n, e) <==>
            exists i :: 0 <= i < |rows| && Flagged(rows[i], e) && Format(rows[i][n]) == x
    ensures IsSubseq(FlaggedNames(rows, n, e), Names(rows, n))
    decreases |rows|
  {
    if |rows| > 0 {
      var tail := rows[1..];
      FlaggedNamesSpec(tail, n, e, x);
      var rest := FlaggedNames(tail, n, e);
      var all := Names(rows, n);
      assert all[1..] == Names(tail, n);
      if x in FlaggedNames(rows, n, e) && !(Flagged(rows[0], e) && Format(rows[0][n]) == x) {
        var i :| 0 <= i < |tail| && Flagged(tail[i], e) && Format(tail[i][n]) == x;
        assert rows[i + 1] == tail[i];
      }
      if exists i :: 0 <= i < |rows| && Flagged(rows[i], e) && Format(rows[i][n]) == x {
        var i :| 0 <= i < |rows| && Flagged(rows[i], e) && Format(rows[i][n]) == x;
        if i > 0 {
          assert tail[i - 1] == rows[i];
        }
      }
      if Flagged(rows[0], e) {
        assert ([Format(rows[0][n])] + rest)[1..] == rest;
      } else {
        assert FlaggedNames(rows, n, e) == rest;
        SubseqDropHead(rest, all);
      }
    }
  }

  /** The region selection: the names of the rows whose ecoregion flag is 1. */
  function RegionSelection(t: Table, ecoregion: string): (r: Result<seq<string>, Failure>)
    requires Rectangular(t)
    ensures r.Err? <==> NameColumn !in t.header || ecoregion !in t.header
  {
    if NameColumn !in t.header then Err(NoNameColumn)
    else if ecoregion !in t.header then Err(NoRegionColumn(ecoregion))
    else Ok(FlaggedNames(t.rows, IndexOf(t.header, NameColumn), IndexOf(t.header, ecoregion)))
  }

  /** The selection of `getSpeciesList`: every name for `ALL`, else the region selection. */
  function Selection(t: Table, ecoregion: string): (r: Result<seq<string>, Failure>)
    requires Rectangular(t)
    ensures r.Err? <==> NameColumn !in t.header || (ecoregion != AllRegions && ecoregion !in t.header)
  {
    if ecoregion != AllRegions then RegionSelection(t, ecoregion)
    else if NameColumn !in t.header then Err(NoNameColumn)
    else Ok(Names(t.rows, IndexOf(t.header, NameColumn)))
  }

  /**
   * With `ALL` every name is selected in table order; otherwise exactly the
   * names of rows whose ecoregion cell is 1, in table order (a subsequence
   * of the `ALL` selection).
   */
  lemma SelectionSpec(t: Table, ecoregion: string, x: string)
    requires Rectangular(t) && NameColumn in t.header
    ensures var all := Selection(t, AllRegions);
            all.Ok? && |all.value| == |t.rows| &&
            forall i :: 0 <= i < |t.rows| ==> all.value[i] == Format(Column(t, NameColumn)[i])
    ensures ecoregion != AllRegions && ecoregion in t.header ==>
              var sel := Selection(t, ecoregion);
              sel.Ok? &&
              (x in sel.value <==>
                 exists i :: 0 <= i < |t.rows| && Column(t, ecoregion)[i] == Num(1) &&
                             Format(Column(t, NameColumn)[i]) == x) &&
              IsSubseq(sel.value, Selection(t, AllRegions).value)
  {
    var n := IndexOf(t.header, NameColumn);
    if ecoregion != AllRegions && ecoregion in t.header {
      var e := IndexOf(t.header, ecoregion);
      FlaggedNamesSpec(t.rows, n, e, x);
      assert forall i :: 0 <= i < |t.rows| ==> (Flagged(t.rows[i], e) <==> Column(t, ecoregion)[i] == Num(1));
    }
  }

  // ---------------------------------------------------------------------
  // The multivalue string
  // ---------------------------------------------------------------------

  /** What the loop has built after the names `names`: each followed by `;`. */
  function Terminated(names: seq<string>): string
    decreases |names|
  {
    if |names| == 0 then "" else names[0] + [Separator] + Terminated(names[1..])
  }

  lemma {:induction false} TerminatedSnoc(names: seq<string>, x: string)
    ensures Terminated(names + [x]) == Terminated(names) + x + [Separator]
    decreases |names|
  {
    if |names| == 0 {
      assert names + [x] == [x];
    } else {
      assert (names + [x])[1..] == names[1..] + [x];
      TerminatedSnoc(names[1..], x);
    }
  }

  /** The terminated text is the joined text plus one final separator. */
  lemma {:induction false} TerminatedJoin(names: seq<string>)
    requires |names| > 0
    ensures Terminated(names) == Join(names, [Separator]) + [Separator]
    decreases |names|
  {
    if |names| > 1 {
      TerminatedJoin(names[1..]);
    }
  }

  /**
   * The loop `outStr += "{};".format(spp)` followed by `outStr[:-1]`: the
   * names separated by `;`, with no trailing separator, and `""` for no names.
   */
  method MultiList(names: seq<string>) returns (outStr: string)
    ensures outStr == Join(names, [Separator])
  {
    outStr := "";
    for i := 0 to |names|
      invariant outStr == Terminated(names[..i])
    {
      assert names[..i + 1] == names[..i] + [names[i]];
      TerminatedSnoc(names[..i], names[i]);
      outStr := outStr + names[i] + [Separator];
    }
    assert names[..|names|] == names;
    if |names| > 0 {
      TerminatedJoin(names);
      assert DropLastN(outStr, 1) == Join(names, [Separator]);
    }
    outStr := DropLastN(outStr, 1);
  }

  /**
   * Splitting the multivalue string on `;` gives the names back when none
   * holds a `;`; an empty selection comes back as one empty name.
   */
  lemma MultiListRoundTrip(names: seq<string>)
    requires forall i :: 0 <= i < |names| ==> Separator !in names[i]
    ensures Split(Join(names, [Separator]), Separator) == if |names| == 0 then [""] else names
  {
    if |names| > 0 {
      SplitJoin(names, Separator);
    }
  }

  /** `getSpeciesList(sppFile, ecoregion)` on the table the workbook holds. */
  method GetSpeciesList(sppTable: Table, ecoregion: string) returns (r: Result<string, Failure>)
    requires Rectangular(sppTable)
    ensures r.Err? <==> Selection(sppTable, ecoregion).Err?
    ensures r.Ok? ==> r.value == Join(Selection(sppTable, ecoregion).value, [Separator])
  {
    var sel := Selection(sppTable, ecoregion);
    if sel.Err? {
      return Err(sel.error);
    }
    var s := MultiList(sel.value);
    return Ok(s);
  }
}
