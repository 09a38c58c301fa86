/**
 * The species-list generator: the species flagged for one ecoregion as a
 * multivalue string in which every name is preceded by `;`.
 */
module GenerateSpeciesList {
  import opened Wrappers
  import opened Strings
  import opened Frames
  import opened AquaticUtils

  /** What the loop has built after the names `names`: each preceded by `;`. */
  function Prefixed(names: seq<string>): string
    decreases |names|
  {
    if |names| == 0 then "" else [Separator] + names[0] + Prefixed(names[1..])
  }

  lemma {:induction false} PrefixedSnoc(names: seq<string>, x: string)
    ensures Prefixed(names + [x]) == Prefixed(names) + [Separator] + x
    decreases |names|
  {
    if |names| == 0 {
      assert names + [x] == [x];
    } else {
      assert (names + [x])[1..] == names[1..] + [x];
      PrefixedSnoc(names[1..], x);
    }
  }

  /** The sum of `len(name) + 1` over the names. */
  function TotalLength(names: seq<string>): nat
    decreases |names|
  {
    if |names| == 0 then 0 else |names[0]| + 1 + TotalLength(names[1..])
  }

  /** The output holds each name and one separator per name. */
  lemma {:induction false} PrefixedLength(names: seq<string>)
    ensures |Prefixed(names)| == TotalLength(names)
    decreases |names|
  {
    if |names| > 0 {
      PrefixedLength(names[1..]);
    }
  }

  /**
   * The output is empty for no names, and otherwise one leading `;`
   * followed by the names joined with `;`: the multivalue string of
   * `getSpeciesList` with a separator in front.
   */
  lemma {:induction false} PrefixedJoin(names: seq<string>)
    ensures Prefixed(names) == if |names| == 0 then "" else [Separator] + Join(names, [Separator])
    decreases |names|
  {
    if |names| > 1 {
      PrefixedJoin(names[1..]);
    }
  }

  /** The loop `outStr += ";{}".format(spp)`. */
  method MultiList(names: seq<string>) returns (outStr: string)
    ensures outStr == Prefixed(names)
  {
    outStr := "";
    for i := 0 to |names|
      invariant outStr == Prefixed(names[..i])
    {
      assert names[..i + 1] == names[..i] + [names[i]];
      PrefixedSnoc(names[..i], names[i]);
      outStr := outStr + [Separator] + names[i];
    }
    assert names[..|names|] == names;
  }

  /** The script on the table the workbook holds: select, then build the string. */
  method GenerateList(sppTable: Table, ecoregion: string) returns (r: Result<string, Failure>)
    requires Rectangular(sppTable)
    ensures r.Err? <==> RegionSelection(sppTable, ecoregion).Err?
    ensures r.Ok? ==> r.value == Prefixed(RegionSelection(sppTable, ecoregion).value)
  {
    var sel := RegionSelection(sppTable, ecoregion);
    if sel.Err? {
      return Err(sel.error);
    }
    var s := MultiList(sel.value);
    return Ok(s);
  }

  /**
   * For an ecoregion other than `ALL`, both scripts select the same names,
   * and the generator's string is `getSpeciesList`'s with a leading `;`
   * (both are empty for an empty selection).
   */
  lemma SameAsSpeciesList(sppTable: Table, ecoregion: string)
    requires Rectangular(sppTable) && ecoregion != AllRegions
    ensures Selection(sppTable, ecoregion) == RegionSelection(sppTable, ecoregion)
    ensures RegionSelection(sppTable, ecoregion).Ok? ==>
              var names := RegionSelection(sppTable, ecoregion).value;
              Prefixed(names) == if |names| == 0 then "" else [Separator] + Join(names, [Separator])
  {
    if RegionSelection(sppTable, ecoregion).Ok? {
      PrefixedJoin(RegionSelection(sppTable, ecoregion).value);
    }
  }
}
