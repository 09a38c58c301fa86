/**
 * The uplift computation: for every species of an ecoregion it derives
 * short column names, gathers the joined current/projected MaxEnt results,
 * drops the repeated GRIDCODE column of all but the first species, and
 * skips species whose join is empty.
 */
module ComputeUplift {
  import opened Wrappers
  import opened Seqs
  import opened Strings
  import opened Frames

  /** The catchment code column shared by every species result. */
  const GridCode: string := "GRIDCODE"

  /** Why a species name cannot be shortened: ValueError on unpacking, or IndexError on `genus[1]`. */
  datatype NameError = NotTwoParts(species: string) | ShortGenus(species: string)

  /** `genus, spp = species.split("_")` followed by `"{}_{}".format(genus[1], spp)`. */
  function ShortName(species: string): Result<string, NameError> {
    var parts := Split(species, '_');
    if |parts| != 2 then Err(NotTwoParts(species))
    else if |parts[0]| < 2 then Err(ShortGenus(species))
    else Ok([parts[0][1]] + "_" + parts[1])
  }

  /**
   * For a genus and an epithet without `_`, the short name is the second
   * letter of the genus, `_`, and the epithet.
   */
  lemma ShortNameOf(genus: string, epithet: string)
    requires '_' !in genus && '_' !in epithet
    ensures ShortName(genus + "_" + epithet)
            == if |genus| < 2 then Err(ShortGenus(genus + "_" + epithet)) else Ok([genus[1]] + "_" + epithet)
  {
    assert Join([genus, epithet], "_") == genus + "_" + epithet;
    SplitJoin([genus, epithet], '_');
  }

  /**
   * A name is shortened only when it holds exactly one `_`; a name without
   * one (the empty name of an empty selection among them) fails to unpack.
   */
  lemma ShortNameNeedsOneUnderscore(species: string)
    ensures ShortName(species).Ok? ==>
              exists k :: 0 <= k < |species| && species[k] == '_' && '_' !in species[..k] && '_' !in species[k + 1..]
    ensures '_' !in species ==> ShortName(species) == Err(NotTwoParts(species))
  {
    var parts := Split(species, '_');
    if |parts| == 2 {
      JoinSplit(species, '_');
      var k := |parts[0]|;
      assert species == parts[0] + "_" + parts[1];
      assert species[..k] == parts[0] && species[k + 1..] == parts[1];
    }
  }

  /** The current, projected and uplift columns of one species. */
  datatype FieldNames = FieldNames(current: string, projected: string, uplift: string)

  function Fields(short: string): FieldNames {
    FieldNames(short + "_C", short + "_P", short + "_U")
  }

  /**
   * The three columns of a species differ, each is the short name plus a
   * two-letter suffix, and different short names give different uplift columns.
   */
  lemma FieldsSpec(a: string, b: string)
    ensures var f := Fields(a);
            f.current != f.projected && f.projected != f.uplift && f.current != f.uplift
    ensures var f := Fields(a);
            DropLastN(f.current, 2) == a && DropLastN(f.projected, 2) == a && DropLastN(f.uplift, 2) == a
    ensures Fields(a).uplift == Fields(b).uplift ==> a == b
  {
    var f := Fields(a);
    assert f.current[|a| + 1] == 'C' && f.projected[|a| + 1] == 'P' && f.uplift[|a| + 1] == 'U';
    assert f.current[..|a|] == a && f.projected[..|a|] == a && f.uplift[..|a|] == a;
    if Fields(a).uplift == Fields(b).uplift {
      assert Fields(b).uplift[..|b|] == b;
    }
  }

  /** The merged table of a species after the GRIDCODE rule: dropped unless the species is the first. */
  function Prepared(species: string, first: string, t: Table): Table
    requires Rectangular(t)
  {
    if species != first then DropNames(t, {GridCode}) else t
  }

  /**
   * A prepared table keeps its rows and every other column, and it has
   * GRIDCODE only when its species equals the first of the list.
   */
  lemma PreparedSpec(species: string, first: string, t: Table, x: string)
    requires Rectangular(t)
    ensures |Prepared(species, first, t).rows| == |t.rows|
    ensures GridCode in Prepared(species, first, t).header <==> species == first && GridCode in t.header
    ensures x != GridCode ==> (x in Prepared(species, first, t).header <==> x in t.header)
  {
    DropNamesHeader(t, {GridCode}, x);
    DropNamesHeader(t, {GridCode}, GridCode);
  }

  /** One pass of the species loop succeeds: the name shortens and a needed GRIDCODE drop finds its column. */
  predicate StepOk(species: string, first: string, t: Table) {
    ShortName(species).Ok? && (species != first ==> GridCode in t.header)
  }

  predicate HasRows(t: Table) {
    |t.rows| > 0
  }

  /** `upliftFlds` after the species `spp`: one uplift column per species. */
  function UpliftFields(spp: seq<string>): seq<string>
    requires forall i :: 0 <= i < |spp| ==> ShortName(spp[i]).Ok?
  {
    seq(|spp|, i requires 0 <= i < |spp| => Fields(ShortName(spp[i]).value).uplift)
  }

  lemma UpliftFieldsSnoc(spp: seq<string>, k: nat)
    requires k < |spp| && forall i :: 0 <= i <= k ==> ShortName(spp[i]).Ok?
    ensures UpliftFields(spp[..k + 1]) == UpliftFields(spp[..k]) + [Fields(ShortName(spp[k]).value).uplift]
  {
  }

  /** The prepared table of every species, in list order. */
  function PreparedAll(sppList: seq<string>, merged: seq<Table>): seq<Table>
    requires |merged| == |sppList| && forall i :: 0 <= i < |merged| ==> Rectangular(merged[i])
  {
    seq(|sppList|, i requires 0 <= i < |sppList| => Prepared(sppList[i], sppList[0], merged[i]))
  }

  /** `sppDFs`: the prepared tables whose join is not empty. */
  function Kept(sppList: seq<string>, merged: seq<Table>): seq<Table>
    requires |merged| == |sppList| && forall i :: 0 <= i < |merged| ==> Rectangular(merged[i])
  {
    Filter(PreparedAll(sppList, merged), HasRows)
  }

  /**
   * Every gathered table has rows, comes from one species of the list, and
   * has GRIDCODE only when that species equals the first one.
   */
  lemma KeptSpec(sppList: seq<string>, merged: seq<Table>, t: Table)
    requires |merged| == |sppList| && forall i :: 0 <= i < |merged| ==> Rectangular(merged[i])
    ensures t in Kept(sppList, merged) ==>
              |t.rows| > 0 &&
              exists i :: 0 <= i < |sppList| && t == Prepared(sppList[i], sppList[0], merged[i]) &&
                          (GridCode in t.header ==> sppList[i] == sppList[0])
  {
    var all := PreparedAll(sppList, merged);
    FilterMember(all, HasRows, t);
    if t in Kept(sppList, merged) {
      var i :| 0 <= i < |all| && all[i] == t;
      PreparedSpec(sppList[i], sppList[0], merged[i], GridCode);
    }
  }

  datatype Uplift = Uplift(upliftFlds: seq<string>, sppDFs: seq<Table>)

  /** Why the script stops: a bad species name, a missing GRIDCODE, or nothing to concatenate at the end. */
  datatype Failure = BadName(e: NameError) | NoGridCode(species: string) | NothingToMerge

  /** `if species <> sppList[0]: sppDF.drop("GRIDCODE", axis=1, inplace=True)`. */
  method DropGridCode(species: string, first: string, merged: Table) returns (r: Result<Table, Failure>)
    requires Rectangular(merged)
    ensures r.Ok? <==> (species != first ==> GridCode in merged.header)
    ensures r.Ok? ==> r.value == Prepared(species, first, merged)
  {
    var df := new DataFrame(merged);
    if species != first {
      var found := df.Drop(GridCode);
      if !found {
        return Err(NoGridCode(species));
      }
    }
    return Ok(df.Value());
  }

  /**
   * The species loop over the joined results `merged` (one per species, read
   * and joined outside the model): the uplift columns and the gathered tables.
   */
  method Gather(sppList: seq<string>, merged: seq<Table>) returns (r: Result<Uplift, Failure>)
    requires |merged| == |sppList| && forall i :: 0 <= i < |merged| ==> Rectangular(merged[i])
    ensures r.Ok? <==> forall i :: 0 <= i < |sppList| ==> StepOk(sppList[i], sppList[0], merged[i])
    ensures r.Ok? ==> r.value.upliftFlds == UpliftFields(sppList) && r.value.sppDFs == Kept(sppList, merged)
  {
    var upliftFlds: seq<string> := [];
    var sppDFs: seq<Table> := [];
    ghost var all := PreparedAll(sppList, merged);
    for i := 0 to |sppList|
      invariant forall j :: 0 <= j < i ==> StepOk(sppList[j], sppList[0], merged[j])
      invariant upliftFlds == UpliftFields(sppList[..i])
      invariant sppDFs == Filter(all[..i], HasRows)
    {
      var species := sppList[i];
      var short := ShortName(species);
      if short.Err? {
        return Err(BadName(short.error));
      }
      UpliftFieldsSnoc(sppList, i);
      upliftFlds := upliftFlds + [Fields(short.value).uplift];
      var prepared := DropGridCode(species, sppList[0], merged[i]);
      if prepared.Err? {
        return Err(prepared.error);
      }
      var t := prepared.value;
      assert t == all[i];
      FilterSnoc(all, i, HasRows);
      if HasRows(t) {
        sppDFs := sppDFs + [t];
      }
    }
    assert sppList[..|sppList|] == sppList;
    assert all[..|sppList|] == all;
    return Ok(Uplift(upliftFlds, sppDFs));
  }

  /** The loop, then the final concatenation, which pandas refuses for an empty list. */
  method Compute(sppList: seq<string>, merged: seq<Table>) returns (r: Result<Uplift, Failure>)
    requires |merged| == |sppList| && forall i :: 0 <= i < |merged| ==> Rectangular(merged[i])
    ensures r.Ok? <==> (forall i :: 0 <= i < |sppList| ==> StepOk(sppList[i], sppList[0], merged[i])) &&
                       |Kept(sppList, merged)| > 0
    ensures r.Ok? ==> r.value.upliftFlds == UpliftFields(sppList) && r.value.sppDFs == Kept(sppList, merged)
  {
    r := Gather(sppList, merged);
    if r.Ok? && |r.value.sppDFs| == 0 {
      r := Err(NothingToMerge);
    }
  }
}
