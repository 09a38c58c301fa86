/**
 * Building an alternate samples-with-data table for a wetland project:
 * the land-cover area dictionaries of the project rasters, their merge
 * into one list of four areas per land-cover code, and the choice of the
 * StreamCat files whose fields the project changes.
 */
module CreateAlternateSwd {
  import opened Wrappers
  import opened Seqs
  import opened Frames

  // ---------------------------------------------------------------------
  // getRasterCounts
  // ---------------------------------------------------------------------

  /** One row of a land-cover raster's attribute table: an NLCD code and its area in km². */
  datatype RasterRecord = RasterRecord(code: int, area: real)

  type AreaDict = map<int, real>

  /** The dictionary the cursor loop builds; a later record overwrites an earlier one with its code. */
  function Counts(records: seq<RasterRecord>): AreaDict
    decreases |records|
  {
    if |records| == 0 then map[]
    else Counts(records[..|records| - 1])[records[|records| - 1].code := records[|records| - 1].area]
  }

  /**
   * The keys are exactly the codes that occur, and each maps to the area of
   * the last record with that code.
   */
  lemma {:induction false} CountsSpec(records: seq<RasterRecord>, k: int)
    ensures k in Counts(records) <==> exists i :: 0 <= i < |records| && records[i].code == k
    ensures k in Counts(records) ==>
              exists i :: 0 <= i < |records| && records[i].code == k && Counts(records)[k] == records[i].area &&
                          forall j :: i < j < |records| ==> records[j].code != k
    decreases |records|
  {
    if |records| > 0 {
      var n := |records| - 1;
      var front := records[..n];
      CountsSpec(front, k);
      assert forall i :: 0 <= i < n ==> front[i] == records[i];
      if records[n].code != k && k in Counts(records) {
        var i :| 0 <= i < n && front[i].code == k && Counts(front)[k] == front[i].area &&
                 forall j :: i < j < n ==> front[j].code != k;
        assert records[i].code == k;
      }
    }
  }

  /**
   * `getRasterCounts`: `{}` for a raster that is all NoData, otherwise the
   * dictionary the cursor loop fills with one entry per record.
   */
  method GetRasterCounts(allNoData: bool, records: seq<RasterRecord>) returns (theDict: AreaDict)
    ensures theDict == if allNoData then map[] else Counts(records)
  {
    if allNoData {
      return map[];
    }
    theDict := map[];
    for i := 0 to |records|
      invariant theDict == Counts(records[..i])
    {
      assert records[..i + 1][..i] == records[..i];
      theDict := theDict[records[i].code := records[i].area];
    }
    assert records[..|records|] == records;
  }

  // ---------------------------------------------------------------------
  // The merge in getNLCDValues
  // ---------------------------------------------------------------------

  /** `theDict[k]` when `k in theDict.keys()`, else `0`. */
  function Lookup(d: AreaDict, k: int): real {
    if k in d then d[k] else 0.0
  }

  /** What the merge loop stores under one code. */
  function AreaList(nlcd: AreaDict, others: seq<AreaDict>, k: int): seq<real>
    requires k in nlcd
  {
    [nlcd[k]] + seq(|others|, j requires 0 <= j < |others| => Lookup(others[j], k))
  }

  /** The merged dictionary: one list per code of the project's land-cover dictionary. */
  function Merged(nlcd: AreaDict, buff: AreaDict, mid: AreaDict, high: AreaDict): map<int, seq<real>> {
    map k | k in nlcd :: AreaList(nlcd, [buff, mid, high], k)
  }

  /**
   * The merged keys are exactly the project's land-cover codes, so a code
   * found only in the buffer or slope dictionaries is ignored; each value
   * holds four areas: the whole project, then the buffer, the mid slope and
   * the high slope, each 0 where that dictionary lacks the code.
   */
  lemma MergedSpec(nlcd: AreaDict, buff: AreaDict, mid: AreaDict, high: AreaDict, k: int)
    ensures k in Merged(nlcd, buff, mid, high) <==> k in nlcd
    ensures k in nlcd ==>
              var v := Merged(nlcd, buff, mid, high)[k];
              |v| == 4 && v[0] == nlcd[k] &&
              (v[1] == if k in buff then buff[k] else 0.0) &&
              (v[2] == if k in mid then mid[k] else 0.0) &&
              (v[3] == if k in high then high[k] else 0.0)
  {
  }

  /** An all-NoData project raster gives an empty merge, whatever the other rasters hold. */
  lemma MergedNoData(buff: AreaDict, mid: AreaDict, high: AreaDict)
    ensures Merged(map[], buff, mid, high) == map[]
  {
    assert Merged(map[], buff, mid, high).Keys == {};
  }

  /** The inner loop over `[buffDict, midDict, highDict]`. */
  method AppendAreas(nlcd: AreaDict, others: seq<AreaDict>, k: int) returns (valList: seq<real>)
    requires k in nlcd
    ensures valList == AreaList(nlcd, others, k)
  {
    valList := [nlcd[k]];
    for j := 0 to |others|
      invariant valList == [nlcd[k]] + seq(j, m requires 0 <= m < j => Lookup(others[m], k))
    {
      var theDict := others[j];
      if k in theDict {
        valList := valList + [theDict[k]];
      } else {
        valList := valList + [0.0];
      }
    }
  }

  /**
   * The outer loop over `nlcdDict.keys()`, visited in the order `keys`
   * the dictionary yields them (each key once).
   */
  method MergeDicts(nlcd: AreaDict, buff: AreaDict, mid: AreaDict, high: AreaDict, keys: seq<int>)
    returns (outDict: map<int, seq<real>>)
    requires Elems(keys) == nlcd.Keys
    ensures outDict == Merged(nlcd, buff, mid, high)
  {
    outDict := map[];
    for i := 0 to |keys|
      invariant outDict.Keys == Elems(keys[..i])
      invariant forall k :: k in outDict ==> k in nlcd && outDict[k] == AreaList(nlcd, [buff, mid, high], k)
    {
      var k := keys[i];
      assert k in Elems(keys);
      var valList := AppendAreas(nlcd, [buff, mid, high], k);
      outDict := outDict[k := valList];
      assert keys[..i + 1] == keys[..i] + [k];
      ElemsSnoc(keys[..i], k);
    }
    assert keys[..|keys|] == keys;
    assert outDict.Keys == Merged(nlcd, buff, mid, high).Keys;
  }

  // ---------------------------------------------------------------------
  // csvFiles
  // ---------------------------------------------------------------------

  const FileColumn: string := "File"
  const WetlandColumn: string := "WetlandProject"
  const Unchanged: string := "Unchanged"

  /** The file cells of the rows whose wetland entry is not `'Unchanged'` (a missing entry counts as changed). */
  function ChangedFileCells(rows: seq<Row>, f: nat, w: nat): seq<Cell>
    requires forall i :: 0 <= i < |rows| ==> f < |rows[i]| && w < |rows[i]|
    decreases |rows|
  {
    if |rows| == 0 then []
    else (if rows[0][w] != Text(Unchanged) then [rows[0][f]] else []) + ChangedFileCells(rows[1..], f, w)
  }

  lemma {:induction false} ChangedFileCellsMember(rows: seq<Row>, f: nat, w: nat, x: Cell)
    requires forall i :: 0 <= i < |rows| ==> f < |rows[i]| && w < |rows[i]|
    ensures x in ChangedFileCells(rows, f, w) <==>
            exists i :: 0 <= i < |rows| && rows[i][w] != Text(Unchanged) && rows[i][f] == x
    decreases |rows|
  {
    if |rows| > 0 {
      var tail := rows[1..];
      ChangedFileCellsMember(tail, f, w, x);
      if exists i :: 0 <= i < |rows| && rows[i][w] != Text(Unchanged) && rows[i][f] == x {
        var i :| 0 <= i < |rows| && rows[i][w] != Text(Unchanged) && rows[i][f] == x;
        if i > 0 {
          assert tail[i - 1] == rows[i];
        }
      }
      if x in ChangedFileCells(tail, f, w) {
        var i :| 0 <= i < |tail| && tail[i][w] != Text(Unchanged) && tail[i][f] == x;
        assert rows[i + 1] == tail[i];
      }
    }
  }

  /**
   * `pd.unique(fldsDF.File).tolist()` for the rows with
   * `WetlandProject <> 'Unchanged'`; a missing column is the KeyError (or
   * AttributeError) pandas raises.
   */
  function CsvFiles(fldmap: Table): Result<seq<Cell>, string>
    requires Rectangular(fldmap)
  {
    if WetlandColumn !in fldmap.header then Err(WetlandColumn)
    else if FileColumn !in fldmap.header then Err(FileColumn)
    else Ok(Unique(ChangedFileCells(fldmap.rows, IndexOf(fldmap.header, FileColumn),
                                    IndexOf(fldmap.header, WetlandColumn))))
  }

  /**
   * The files are found iff both columns are there; they are then the
   * distinct file entries of the changed rows, in order of first appearance.
   */
  lemma CsvFilesSpec(fldmap: Table, x: Cell)
    requires Rectangular(fldmap)
    ensures CsvFiles(fldmap).Ok? <==> WetlandColumn in fldmap.header && FileColumn in fldmap.header
    ensures CsvFiles(fldmap).Ok? ==>
              var files := CsvFiles(fldmap).value;
              var f, w := IndexOf(fldmap.header, FileColumn), IndexOf(fldmap.header, WetlandColumn);
              Distinct(files) &&
              (x in files <==> exists i :: 0 <= i < |fldmap.rows| &&
                                           fldmap.rows[i][w] != Text(Unchanged) && fldmap.rows[i][f] == x) &&
              InFirstAppearanceOrder(files, ChangedFileCells(fldmap.rows, f, w))
  {
    if CsvFiles(fldmap).Ok? {
      var f, w := IndexOf(fldmap.header, FileColumn), IndexOf(fldmap.header, WetlandColumn);
      var cells := ChangedFileCells(fldmap.rows, f, w);
      UniqueSpec(cells);
      ChangedFileCellsMember(fldmap.rows, f, w, x);
    }
  }
}
