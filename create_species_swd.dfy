/**
 * The single-species SWD builder (`AQUATIC_CreateSpeciesSWDFile`): the
 * steps in which it differs from the all-species builder. Its join does no
 * fill, its row pruner keeps filtering the already-filtered frame, its
 * univariate filter records every examined coefficient, and its redundancy
 * filter works on column positions without skipping dropped columns.
 */
module CreateSpeciesSwd {
  import opened Wrappers
  import opened Seqs
  import opened Frames
  import opened SwdCommon

  // ---------------------------------------------------------------------
  // mergePresAbs: no fill
  // ---------------------------------------------------------------------

  /**
   * The join leaves NaN as the label of a catchment without an occurrence
   * record; such a row, like a presence row, survives every row pruner,
   * whose test is `label == 0`.
   */
  lemma UnfilledLabelsSurvive(eo: Occurrences, data: Table, species: string, cols: set<nat>, i: nat)
    requires Wf(data) && species != "FEATUREID" && species !in data.header && "FEATUREID" in data.header
    requires i < |data.rows|
    ensures var j := RightJoin(eo, data, species).value;
            var key := data.rows[i][IndexOf(data.header, "FEATUREID")];
            (!(key.Text? && key.s in eo) || eo[key.s] != Num(0)) ==> j.rows[i] in KeepRows(j.rows, 1, cols)
  {
    var j := RightJoin(eo, data, species).value;
    RightJoinSpec(eo, data, species, i);
    KeepRowsSpec(j.rows, 1, cols, j.rows[i]);
  }

  // ---------------------------------------------------------------------
  // removeAbsenceNullRows: cumulative
  // ---------------------------------------------------------------------

  /** The positions of the first `n` columns. */
  function AllColumns(n: nat): (r: set<nat>)
    ensures forall k: nat :: k in r <==> k < n
  {
    if n == 0 then {} else AllColumns(n - 1) + {n - 1}
  }

  /**
   * `removeAbsenceNullRows`: for each label of the header, in order, the
   * frame is replaced by its rows that are not background rows holding the
   * sentinel in that column. The label column is looked up on the first
   * pass, so a missing species label is a KeyError unless there is no
   * column at all.
   */
  method RemoveAbsenceNullRows(t: Table, speciesName: string) returns (r: Result<Table, string>)
    requires Wf(t)
    ensures r.Ok? <==> |t.header| == 0 || speciesName in t.header
    ensures r.Ok? ==> r.value.header == t.header && Rectangular(r.value)
    ensures r.Ok? && |t.header| == 0 ==> r.value == t
    ensures r.Ok? && |t.header| > 0 ==>
              r.value.rows == KeepRows(t.rows, IndexOf(t.header, speciesName), AllColumns(|t.header|))
  {
    var flds := t.header;
    if |flds| == 0 {
      return Ok(t);
    }
    if speciesName !in flds {
      return Err("KeyError: " + speciesName);
    }
    var lab := IndexOf(flds, speciesName);
    var rows := t.rows;
    assert AllColumns(0) == {};
    FilterAll(rows, (x: Row) => !Pruned(x, lab, {}));
    for i := 0 to |flds|
      invariant rows == KeepRows(t.rows, lab, AllColumns(i))
    {
      var k := IndexOf(flds, flds[i]);
      IndexOfDistinct(flds, i);
      rows := KeepRows(rows, lab, {k});
      KeepRowsCompose(t.rows, lab, AllColumns(i), {i});
      assert AllColumns(i) + {i} == AllColumns(i + 1);
    }
    FilterSubseq(t.rows, (x: Row) => !Pruned(x, lab, AllColumns(|flds|)));
    forall x | x in rows
      ensures |x| == |flds|
    {
      FilterMember(t.rows, (x: Row) => !Pruned(x, lab, AllColumns(|flds|)), x);
    }
    return Ok(Table(flds, rows));
  }

  /**
   * What the cumulative pruner keeps: a row survives iff it is not a
   * background row holding the sentinel in some column; the survivors keep
   * their order.
   */
  lemma CumulativePrunerSpec(rows: seq<Row>, n: nat, lab: nat, x: Row)
    requires lab < n && forall i :: 0 <= i < |rows| ==> |rows[i]| == n
    ensures x in KeepRows(rows, lab, AllColumns(n)) <==>
            x in rows && !(x[lab] == Num(0) && Num(Sentinel) in x)
    ensures IsSubseq(KeepRows(rows, lab, AllColumns(n)), rows)
  {
    KeepRowsSpec(rows, lab, AllColumns(n), x);
    if x in rows {
      var i :| 0 <= i < |rows| && rows[i] == x;
      if x[lab] == Num(0) && Num(Sentinel) in x {
        var k :| 0 <= k < |x| && x[k] == Num(Sentinel);
        assert k in AllColumns(n) && AbsenceNullAt(x, lab, k);
      }
    }
  }

  /** Visiting the columns in any order that covers them all gives the same rows, and a second run removes nothing more. */
  lemma CumulativePrunerStable(rows: seq<Row>, n: nat, lab: nat, order: seq<nat>)
    requires Elems(order) == AllColumns(n)
    ensures PruneInOrder(rows, lab, order) == KeepRows(rows, lab, AllColumns(n))
    ensures KeepRows(KeepRows(rows, lab, AllColumns(n)), lab, AllColumns(n)) == KeepRows(rows, lab, AllColumns(n))
  {
    PruneInOrderSpec(rows, lab, order);
    KeepRowsIdempotent(rows, lab, AllColumns(n));
  }

  // ---------------------------------------------------------------------
  // removeUncorrelated: every examined coefficient recorded
  // ---------------------------------------------------------------------

  /** `corDict`: the label coefficient of every examined column. */
  function Coefficients(flds: seq<string>, pearson: string -> LabelCorr): map<string, real> {
    map x | x in flds :: pearson(x).coeff
  }

  lemma CoefficientsSnoc(flds: seq<string>, x: string, pearson: string -> LabelCorr)
    ensures Coefficients(flds + [x], pearson) == Coefficients(flds, pearson)[x := pearson(x).coeff]
  {
  }

  /**
   * The loop of `removeUncorrelated` over the examined labels `flds`:
   * records each coefficient and drops, in place, each column with
   * `abs(p) > 0.05`.
   */
  method RecordAndDrop(df: DataFrame, flds: seq<string>, pearson: string -> LabelCorr)
    returns (corDict: map<string, real>)
    requires df.Valid() && Distinct(flds)
    requires forall i :: 0 <= i < |flds| ==> flds[i] in df.header
    modifies df
    ensures df.Valid()
    ensures corDict == Coefficients(flds, pearson)
    ensures df.Value() == DropNames(old(df.Value()), Insignificant(flds, pearson))
  {
    ghost var t0 := df.Value();
    corDict := map[];
    ghost var dropped: set<string> := {};
    DropNamesAbsent(t0, {});
    for i := 0 to |flds|
      invariant df.Valid()
      invariant corDict == Coefficients(flds[..i], pearson)
      invariant dropped == Insignificant(flds[..i], pearson)
      invariant df.Value() == DropNames(t0, dropped)
    {
      var fld := flds[i];
      assert flds[..i + 1] == flds[..i] + [fld];
      CoefficientsSnoc(flds[..i], fld, pearson);
      InsignificantSnoc(flds[..i], fld, pearson);
      var pearsonFld := pearson(fld);
      corDict := corDict[fld := pearsonFld.coeff];
      if Abs(pearsonFld.p) > PCutoff {
        assert fld !in dropped by {
          assert forall k :: 0 <= k < i ==> flds[k] != fld;
        }
        DropNamesHeader(t0, dropped, fld);
        var _ := df.Drop(fld);
        DropNamesCompose(t0, dropped, {fld});
        dropped := dropped + {fld};
      }
    }
    assert flds[..|flds|] == flds;
  }

  /**
   * `removeUncorrelated`: the species label is looked up first, so a
   * missing label is a KeyError and nothing changes; otherwise the columns
   * `list(theDF.columns)[6:]` go through the record-and-drop loop, and the
   * two in-place `replace` calls on the cached label column `sppVector`
   * then recode, in the frame itself, 0 as "Background" and 1 as
   * `sppName`, the script's species name.
   */
  method RemoveUncorrelated(df: DataFrame, speciesName: string, sppName: string, pearson: string -> LabelCorr)
    returns (corDict: Result<map<string, real>, string>)
    requires df.Valid() && Distinct(df.header)
    modifies df
    ensures df.Valid()
    ensures corDict.Ok? <==> speciesName in old(df.header)
    ensures corDict.Err? ==> df.Value() == old(df.Value())
    ensures corDict.Ok? ==> corDict.value == Coefficients(FromSix(old(df.header)), pearson)
    ensures corDict.Ok? ==>
              df.Value() == Recoded(DropNames(old(df.Value()), Insignificant(FromSix(old(df.header)), pearson)),
                                    speciesName, sppName)
  {
    if speciesName !in df.header {
      return Err("KeyError: " + speciesName);
    }
    var flds := FromSix(df.header);
    FirstSixFromSix(df.header, speciesName);
    forall i | 0 <= i < |flds|
      ensures flds[i] in df.header
    {
      FirstSixFromSix(df.header, flds[i]);
    }
    var cor := RecordAndDrop(df, flds, pearson);
    DropNamesWf(old(df.Value()), Insignificant(flds, pearson));
    ghost var t1 := df.Value();
    if speciesName in df.header {
      var _ := df.SetWhere(speciesName, Num(0), speciesName, Text("Background"));
      var _ := df.SetWhere(speciesName, Num(1), speciesName, Text(sppName));
      ReplacesRecode(t1, speciesName, sppName);
    }
    return Ok(cor);
  }

  /**
   * The univariate filter keeps a column iff it is one of the first six or
   * its p-value passes; the first six stay in place, and `corDict` has an
   * entry for every examined column, dropped or not.
   */
  lemma UncorrelatedSpec(t: Table, pearson: string -> LabelCorr, x: string)
    requires Wf(t)
    ensures x in DropNames(t, Insignificant(FromSix(t.header), pearson)).header <==>
            x in t.header && (x in FirstSix(t.header) || Significant(pearson(x)))
    ensures FirstSix(DropNames(t, Insignificant(FromSix(t.header), pearson)).header) == FirstSix(t.header)
    ensures x in Coefficients(FromSix(t.header), pearson) <==> x in t.header && x !in FirstSix(t.header)
  {
    FirstSixFromSix(t.header, x);
    DropNamesHeader(t, Insignificant(FromSix(t.header), pearson), x);
    FirstSixKept(t, Insignificant(FromSix(t.header), pearson));
  }

  // ---------------------------------------------------------------------
  // removeXCorrelated: positional, no skipping
  // ---------------------------------------------------------------------

  /** Some earlier examined column, dropped or not, is correlated with `flds[j]` at the threshold or above. */
  predicate Redundant(flds: seq<string>, r: (string, string) -> real, threshold: real, j: nat)
    requires j < |flds|
  {
    exists i :: 0 <= i < j && Abs(r(flds[i], flds[j])) >= threshold
  }

  /** `Redundant` restricted to the partners `flds[i]` with `i < n`. */
  predicate RedundantBelow(flds: seq<string>, r: (string, string) -> real, threshold: real, n: nat, j: nat)
    requires j < |flds|
  {
    exists i :: 0 <= i < n && i < j && Abs(r(flds[i], flds[j])) >= threshold
  }

  /**
   * The nested i/j loops of `removeXCorrelated`: for each pair `i < j`
   * whose correlation reaches the threshold, `flds[j]` is appended unless
   * already listed.
   */
  method PositionalDropList(flds: seq<string>, r: (string, string) -> real, threshold: real)
    returns (dropFlds: seq<string>)
    requires Distinct(flds)
    ensures Distinct(dropFlds)
    ensures forall x :: x in dropFlds ==> x in flds
    ensures forall j :: 0 <= j < |flds| ==> (flds[j] in dropFlds <==> Redundant(flds, r, threshold, j))
  {
    dropFlds := [];
    var nCols := |flds|;
    for i := 0 to nCols
      invariant Distinct(dropFlds)
      invariant forall x :: x in dropFlds ==> x in flds
      invariant forall k :: 0 <= k < nCols ==> (flds[k] in dropFlds <==> RedundantBelow(flds, r, threshold, i, k))
    {
      for j := 0 to nCols
        invariant Distinct(dropFlds)
        invariant forall x :: x in dropFlds ==> x in flds
        invariant forall k :: 0 <= k < nCols ==>
                    (flds[k] in dropFlds <==>
                       RedundantBelow(flds, r, threshold, i, k) ||
                       (i < k < j && Abs(r(flds[i], flds[k])) >= threshold))
      {
        if j > i {
          var iFld := flds[i];
          var jFld := flds[j];
          var pearson := r(iFld, jFld);
          if Abs(pearson) >= threshold {
            if !(jFld in dropFlds) {
              dropFlds := dropFlds + [jFld];
            }
          }
        }
      }
    }
  }

  /** The columns the positional filter drops. */
  function PositionalDrops(flds: seq<string>, r: (string, string) -> real, threshold: real): set<string> {
    set j | 0 <= j < |flds| && Redundant(flds, r, threshold, j) :: flds[j]
  }

  /** `removeXCorrelated`: builds the drop list over `list(theDF.columns)[6:]`, then drops its columns in place. */
  method RemoveXCorrelated(df: DataFrame, r: (string, string) -> real, threshold: real)
    requires df.Valid() && Distinct(df.header)
    modifies df
    ensures df.Valid()
    ensures df.Value() == DropNames(old(df.Value()), PositionalDrops(FromSix(old(df.header)), r, threshold))
  {
    var flds := FromSix(df.header);
    FirstSixFromSix(df.header, "");
    var dropFlds := PositionalDropList(flds, r, threshold);
    assert Elems(dropFlds) == PositionalDrops(flds, r, threshold) by {
      forall x | x in dropFlds
        ensures x in PositionalDrops(flds, r, threshold)
      {
        var j :| 0 <= j < |flds| && flds[j] == x;
      }
    }
    forall i | 0 <= i < |dropFlds|
      ensures dropFlds[i] in df.header
    {
      FirstSixFromSix(df.header, dropFlds[i]);
    }
    DropEach(df, dropFlds);
  }

  /**
   * The positional filter drops `flds[j]` iff some earlier column, kept or
   * dropped, reaches the threshold with it: a kept column is below the
   * threshold with every earlier column, and the first examined column is
   * never dropped.
   */
  lemma PositionalDropsSpec(flds: seq<string>, r: (string, string) -> real, threshold: real, j: nat)
    requires Distinct(flds) && j < |flds|
    ensures flds[j] in PositionalDrops(flds, r, threshold) <==> Redundant(flds, r, threshold, j)
    ensures flds[j] !in PositionalDrops(flds, r, threshold) <==>
            forall i :: 0 <= i < j ==> Abs(r(flds[i], flds[j])) < threshold
    ensures flds[0] !in PositionalDrops(flds, r, threshold)
  {
    if flds[j] in PositionalDrops(flds, r, threshold) {
      var k :| 0 <= k < |flds| && Redundant(flds, r, threshold, k) && flds[k] == flds[j];
    }
  }

  /** Two examined columns that both survive are correlated below the threshold. */
  lemma PositionalRetainedPairs(flds: seq<string>, r: (string, string) -> real, threshold: real, i: nat, j: nat)
    requires Distinct(flds) && i < j < |flds|
    requires flds[i] !in PositionalDrops(flds, r, threshold) && flds[j] !in PositionalDrops(flds, r, threshold)
    ensures Abs(r(flds[i], flds[j])) < threshold
  {
    PositionalDropsSpec(flds, r, threshold, j);
  }

  /** Neither correlation filter touches the first six columns. */
  lemma FiltersKeepFirstSix(t: Table, pearson: string -> LabelCorr, r: (string, string) -> real, threshold: real)
    requires Wf(t)
    ensures FirstSix(DropNames(t, Insignificant(FromSix(t.header), pearson)).header) == FirstSix(t.header)
    ensures FirstSix(DropNames(t, PositionalDrops(FromSix(t.header), r, threshold)).header) == FirstSix(t.header)
  {
    FirstSixKept(t, Insignificant(FromSix(t.header), pearson));
    FirstSixKept(t, PositionalDrops(FromSix(t.header), r, threshold));
  }
}
