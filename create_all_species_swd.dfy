/**
 * The all-species SWD builder (`AQUATIC_CreateAllSpeciesSWDFiles`): the
 * steps in which it differs from the single-species builder. Its join fills
 * missing labels with 0, its row pruner keeps only the last column's
 * filter, its univariate filter records only the kept coefficients, and its
 * redundancy filter visits the recorded columns sorted by coefficient and
 * skips columns already marked. It ends by recoding the label column for
 * MaxEnt.
 */
module CreateAllSpeciesSwd {
  import opened Wrappers
  import opened Seqs
  import opened Frames
  import opened SwdCommon
  import CreateSpeciesSwd

  // ---------------------------------------------------------------------
  // mergePresAbs: right join, then fillna(0) on the label
  // ---------------------------------------------------------------------

  /** `mergePresAbs`: the right join followed by `outDF[speciesName].fillna(0)`. */
  function MergePresAbs(eo: Occurrences, data: Table, species: string): (r: Result<Table, string>)
    requires Rectangular(data) && species != "FEATUREID" && species !in data.header
    ensures r.Ok? <==> "FEATUREID" in data.header
    ensures r.Ok? ==> Rectangular(r.value) && |r.value.rows| == |data.rows| && |r.value.header| >= 2
  {
    match RightJoin(eo, data, species)
    case Err(e) => Err(e)
    case Ok(j) => Ok(MapColumn(j, 1, FillZero))
  }

  /**
   * After the fill every catchment row has a label: a catchment without an
   * occurrence record is background (0), one with a record keeps its value
   * with NaN read as 0; the key stays in front.
   */
  lemma MergePresAbsSpec(eo: Occurrences, data: Table, species: string, i: nat)
    requires Wf(data) && species != "FEATUREID" && species !in data.header && "FEATUREID" in data.header
    requires i < |data.rows|
    ensures var m := MergePresAbs(eo, data, species).value;
            var key := data.rows[i][IndexOf(data.header, "FEATUREID")];
            m.header[..2] == ["FEATUREID", species] &&
            m.rows[i][0] == key && m.rows[i][1] != Missing &&
            (key.Text? && key.s in eo ==> m.rows[i][1] == FillZero(eo[key.s])) &&
            (!(key.Text? && key.s in eo) ==> m.rows[i][1] == Num(0))
  {
    RightJoinSpec(eo, data, species, i);
  }

  // ---------------------------------------------------------------------
  // removeAbsenceNullRows as written: only the last column counts
  // ---------------------------------------------------------------------

  /**
   * `removeAbsenceNullRows` as written: every pass filters the unchanged
   * input into `theDF2`, so only the pass over the last label survives. A
   * missing species label is a KeyError on the first pass; a frame without
   * columns never binds `theDF2`, an UnboundLocalError.
   */
  method RemoveAbsenceNullRows(t: Table, speciesName: string) returns (r: Result<Table, string>)
    requires Wf(t)
    ensures r.Ok? <==> |t.header| > 0 && speciesName in t.header
    ensures r.Ok? ==> r.value.header == t.header &&
                      r.value.rows == KeepRows(t.rows, IndexOf(t.header, speciesName), {|t.header| - 1})
  {
    var flds := t.header;
    if |flds| > 0 && speciesName !in flds {
      return Err("KeyError: " + speciesName);
    }
    var lab := if speciesName in flds then IndexOf(flds, speciesName) else 0;
    var theDF2: Option<Table> := None;
    for i := 0 to |flds|
      invariant i == 0 ==> theDF2 == None
      invariant i > 0 ==> theDF2 == Some(Table(flds, KeepRows(t.rows, lab, {i - 1})))
    {
      var k := IndexOf(flds, flds[i]);
      IndexOfDistinct(flds, i);
      theDF2 := Some(Table(flds, KeepRows(t.rows, lab, {k})));
    }
    if theDF2.None? {
      return Err("UnboundLocalError: theDF2");
    }
    return Ok(theDF2.value);
  }

  /** What the last-column pruner keeps: a row survives unless it is background with the sentinel in the last column. */
  lemma LastColumnPrunerSpec(rows: seq<Row>, n: nat, lab: nat, x: Row)
    requires lab < n && forall i :: 0 <= i < |rows| ==> |rows[i]| == n
    ensures x in KeepRows(rows, lab, {n - 1}) <==>
            x in rows && !(x[lab] == Num(0) && x[n - 1] == Num(Sentinel))
  {
    KeepRowsSpec(rows, lab, {n - 1}, x);
    if x in rows {
      var i :| 0 <= i < |rows| && rows[i] == x;
      if x[lab] == Num(0) && x[n - 1] == Num(Sentinel) {
        assert AbsenceNullAt(x, lab, n - 1);
      }
    }
  }

  /**
   * A background row with the sentinel only in the middle column survives
   * the last-column pruner, while pruning by every column, as intended,
   * removes it.
   */
  lemma LastColumnPrunerMissesRow()
    ensures var rows: seq<Row> := [[Num(0), Num(Sentinel), Num(5)]];
            KeepRows(rows, 0, {2}) == rows && KeepRows(rows, 0, CreateSpeciesSwd.AllColumns(3)) == []
  {
    var x: Row := [Num(0), Num(Sentinel), Num(5)];
    var rows: seq<Row> := [x];
    assert !Pruned(x, 0, {2});
    assert AbsenceNullAt(x, 0, 1) && 1 in CreateSpeciesSwd.AllColumns(3);
    assert Pruned(x, 0, CreateSpeciesSwd.AllColumns(3));
    assert rows[1..] == [];
  }

  // ---------------------------------------------------------------------
  // removeUncorrelated: only kept coefficients recorded
  // ---------------------------------------------------------------------

  /** `corDict`: the label coefficient of every examined column that passes the cut-off. */
  function KeptCoefficients(flds: seq<string>, pearson: string -> LabelCorr): map<string, real> {
    map x | x in flds && Significant(pearson(x)) :: pearson(x).coeff
  }

  lemma KeptCoefficientsSnoc(flds: seq<string>, x: string, pearson: string -> LabelCorr)
    ensures KeptCoefficients(flds + [x], pearson) ==
            if Significant(pearson(x)) then KeptCoefficients(flds, pearson)[x := pearson(x).coeff]
            else KeptCoefficients(flds, pearson)
  {
  }

  /**
   * The loop of `removeUncorrelated` over the examined labels `flds`:
   * drops, in place, each column with `abs(p) > 0.05` and records the
   * coefficient of each other one.
   */
  method DropOrRecord(df: DataFrame, flds: seq<string>, pearson: string -> LabelCorr)
    returns (corDict: map<string, real>)
    requires df.Valid() && Distinct(flds)
    requires forall i :: 0 <= i < |flds| ==> flds[i] in df.header
    modifies df
    ensures df.Valid()
    ensures corDict == KeptCoefficients(flds, pearson)
    ensures df.Value() == DropNames(old(df.Value()), Insignificant(flds, pearson))
  {
    ghost var t0 := df.Value();
    corDict := map[];
    ghost var dropped: set<string> := {};
    DropNamesAbsent(t0, {});
    for i := 0 to |flds|
      invariant df.Valid()
      invariant corDict == KeptCoefficients(flds[..i], pearson)
      invariant dropped == Insignificant(flds[..i], pearson)
      invariant df.Value() == DropNames(t0, dropped)
    {
      var fld := flds[i];
      assert flds[..i + 1] == flds[..i] + [fld];
      KeptCoefficientsSnoc(flds[..i], fld, pearson);
      InsignificantSnoc(flds[..i], fld, pearson);
      var pearsonFld := pearson(fld);
      if Abs(pearsonFld.p) > PCutoff {
        assert fld !in dropped by {
          assert forall k :: 0 <= k < i ==> flds[k] != fld;
        }
        DropNamesHeader(t0, dropped, fld);
        var _ := df.Drop(fld);
        DropNamesCompose(t0, dropped, {fld});
        dropped := dropped + {fld};
      } else {
        corDict := corDict[fld := pearsonFld.coeff];
      }
    }
    assert flds[..|flds|] == flds;
  }

  /**
   * `removeUncorrelated`: the species label is looked up first, so a
   * missing label is a KeyError and nothing changes; otherwise the columns
   * `list(theDF.columns)[6:]` go through the drop-or-record loop, and the
   * two in-place `replace` calls on the cached label column `sppVector`
   * then recode, in the frame itself, 0 as "Background" and 1 as
   * `sppName`, the script's species name.
   */
  method RemoveUncorrelated(df: DataFrame, speciesName: string, sppName: string, pearson: string -> LabelCorr)
    returns (corDict: Result<map<string, real>, string>)
    requires df.Valid() && Distinct(df.header)
    modifies df
    ensures df.Valid()
    ensures corDict.Ok? <==> speciesName in old(df.header)
    ensures corDict.Err? ==> df.Value() == old(df.Value())
    ensures corDict.Ok? ==> corDict.value == KeptCoefficients(FromSix(old(df.header)), pearson)
    ensures corDict.Ok? ==>
              df.Value() == Recoded(DropNames(old(df.Value()), Insignificant(FromSix(old(df.header)), pearson)),
                                    speciesName, sppName)
  {
    if speciesName !in df.header {
      return Err("KeyError: " + speciesName);
    }
    var flds := FromSix(df.header);
    FirstSixFromSix(df.header, speciesName);
    forall i | 0 <= i < |flds|
      ensures flds[i] in df.header
    {
      FirstSixFromSix(df.header, flds[i]);
    }
    var cor := DropOrRecord(df, flds, pearson);
    DropNamesWf(old(df.Value()), Insignificant(flds, pearson));
    ghost var t1 := df.Value();
    if speciesName in df.header {
      var _ := df.SetWhere(speciesName, Num(0), speciesName, Text("Background"));
      var _ := df.SetWhere(speciesName, Num(1), speciesName, Text(sppName));
      ReplacesRecode(t1, speciesName, sppName);
    }
    return Ok(cor);
  }

  /**
   * The keys of `corDict` are exactly the examined columns that survive the
   * univariate filter, so every key names a column of the filtered frame.
   */
  lemma KeptCoefficientsSpec(t: Table, pearson: string -> LabelCorr, x: string)
    requires Wf(t)
    ensures x in KeptCoefficients(FromSix(t.header), pearson) <==>
            x in DropNames(t, Insignificant(FromSix(t.header), pearson)).header && x !in FirstSix(t.header)
  {
    FirstSixFromSix(t.header, x);
    DropNamesHeader(t, Insignificant(FromSix(t.header), pearson), x);
  }

  // ---------------------------------------------------------------------
  // sorted(corrDict, key=corrDict.get)
  // ---------------------------------------------------------------------

  /** Ascending by the value of each label in `m`. */
  predicate SortedBy(s: seq<string>, m: map<string, real>)
    requires forall i :: 0 <= i < |s| ==> s[i] in m
  {
    forall i, j :: 0 <= i < j < |s| ==> m[s[i]] <= m[s[j]]
  }

  /** Inserts `x` after every label whose value does not exceed its own, which keeps the sort stable. */
  function Insert(x: string, s: seq<string>, m: map<string, real>): (r: seq<string>)
    requires x in m && forall i :: 0 <= i < |s| ==> s[i] in m
    ensures |r| == |s| + 1 && forall y :: y in r <==> y == x || y in s
    ensures forall i :: 0 <= i < |r| ==> r[i] in m
    decreases |s|
  {
    if |s| == 0 then [x]
    else if m[x] < m[s[0]] then [x] + s
    else [s[0]] + Insert(x, s[1..], m)
  }

  lemma {:induction false} InsertSorted(x: string, s: seq<string>, m: map<string, real>)
    requires x in m && forall i :: 0 <= i < |s| ==> s[i] in m
    requires SortedBy(s, m)
    ensures var r := Insert(x, s, m);
            (forall i :: 0 <= i < |r| ==> r[i] in m) && SortedBy(r, m)
    decreases |s|
  {
    if |s| > 0 && m[x] >= m[s[0]] {
      InsertSorted(x, s[1..], m);
      var rest := Insert(x, s[1..], m);
      forall j | 0 <= j < |rest|
        ensures m[s[0]] <= m[rest[j]]
      {
        assert rest[j] in rest;
        if rest[j] != x {
          var k :| 0 <= k < |s[1..]| && s[1..][k] == rest[j];
          assert s[k + 1] == rest[j];
        }
      }
    }
  }

  lemma {:induction false} InsertDistinct(x: string, s: seq<string>, m: map<string, real>)
    requires x in m && forall i :: 0 <= i < |s| ==> s[i] in m
    requires Distinct(s) && x !in s
    ensures Distinct(Insert(x, s, m))
    decreases |s|
  {
    if |s| > 0 && m[x] >= m[s[0]] {
      InsertDistinct(x, s[1..], m);
      var rest := Insert(x, s[1..], m);
      assert s[0] !in rest by {
        assert s[0] !in s[1..];
      }
    }
  }

  /** Python's `sorted(corrDict, key=corrDict.get)` over the keys in dictionary order `keys`. */
  function SortByCoeff(keys: seq<string>, m: map<string, real>): (r: seq<string>)
    requires forall i :: 0 <= i < |keys| ==> keys[i] in m
    ensures |r| == |keys| && (forall y :: y in r <==> y in keys) && forall i :: 0 <= i < |r| ==> r[i] in m
    decreases |keys|
  {
    if |keys| == 0 then []
    else Insert(keys[|keys| - 1], SortByCoeff(keys[..|keys| - 1], m), m)
  }

  /** The sorted labels are a permutation of the keys, ascending by coefficient. */
  lemma {:induction false} SortByCoeffSpec(keys: seq<string>, m: map<string, real>)
    requires forall i :: 0 <= i < |keys| ==> keys[i] in m
    requires Distinct(keys)
    ensures SortedBy(SortByCoeff(keys, m), m) && Distinct(SortByCoeff(keys, m))
    ensures Elems(SortByCoeff(keys, m)) == Elems(keys) && |SortByCoeff(keys, m)| == |keys|
    decreases |keys|
  {
    if |keys| > 0 {
      var n := |keys| - 1;
      SortByCoeffSpec(keys[..n], m);
      assert keys[n] !in keys[..n];
      InsertSorted(keys[n], SortByCoeff(keys[..n], m), m);
      InsertDistinct(keys[n], SortByCoeff(keys[..n], m), m);
    }
  }

  // ---------------------------------------------------------------------
  // removeXCorrelated: sorted candidates, marked columns skipped
  // ---------------------------------------------------------------------

  /**
   * Whether `flds[j]` ends on the drop list: some earlier column that is
   * itself not dropped reaches the threshold with it.
   */
  predicate Dropped(flds: seq<string>, r: (string, string) -> real, threshold: real, j: nat)
    requires j < |flds|
    decreases j
  {
    exists i :: 0 <= i < j && !Dropped(flds, r, threshold, i) && Abs(r(flds[i], flds[j])) >= threshold
  }

  /** `Dropped` restricted to the partners `flds[i]` with `i < n`: the drop list after the first `n` outer passes. */
  predicate DroppedBelow(flds: seq<string>, r: (string, string) -> real, threshold: real, n: nat, j: nat)
    requires j < |flds|
  {
    exists i :: 0 <= i < n && i < j && !Dropped(flds, r, threshold, i) && Abs(r(flds[i], flds[j])) >= threshold
  }

  lemma DroppedBelowStep(flds: seq<string>, r: (string, string) -> real, threshold: real, n: nat, j: nat)
    requires n < j < |flds|
    ensures DroppedBelow(flds, r, threshold, n + 1, j) <==>
            DroppedBelow(flds, r, threshold, n, j) ||
            (!Dropped(flds, r, threshold, n) && Abs(r(flds[n], flds[j])) >= threshold)
  {
  }

  /** One outer pass: `flds[i]`, when not itself dropped, adds its partners to the drop list. */
  lemma DroppedBelowNext(flds: seq<string>, r: (string, string) -> real, threshold: real, i: nat)
    requires i < |flds|
    ensures forall k :: 0 <= k < |flds| ==>
              (DroppedBelow(flds, r, threshold, i + 1, k) <==>
                 DroppedBelow(flds, r, threshold, i, k) ||
                 (i < k && !Dropped(flds, r, threshold, i) && Abs(r(flds[i], flds[k])) >= threshold))
  {
    forall k | 0 <= k < |flds|
      ensures DroppedBelow(flds, r, threshold, i + 1, k) <==>
                DroppedBelow(flds, r, threshold, i, k) ||
                (i < k && !Dropped(flds, r, threshold, i) && Abs(r(flds[i], flds[k])) >= threshold)
    {
      if i < k {
        DroppedBelowStep(flds, r, threshold, i, k);
      }
    }
  }

  /**
   * The inner loop of `removeXCorrelated` for the outer column `flds[i]`:
   * every later column not yet marked whose correlation with it reaches the
   * threshold is appended.
   */
  method MarkPartners(flds: seq<string>, r: (string, string) -> real, threshold: real, i: nat, dropIn: seq<string>)
    returns (dropFlds: seq<string>)
    requires Distinct(flds) && i < |flds|
    requires Distinct(dropIn) && forall x :: x in dropIn ==> x in flds
    ensures Distinct(dropFlds)
    ensures forall x :: x in dropFlds ==> x in flds
    ensures forall k :: 0 <= k < |flds| ==>
              (flds[k] in dropFlds <==> flds[k] in dropIn || (i < k && Abs(r(flds[i], flds[k])) >= threshold))
  {
    dropFlds := dropIn;
    var iFld := flds[i];
    var nCols := |flds|;
    for j := 0 to nCols
      invariant Distinct(dropFlds)
      invariant forall x :: x in dropFlds ==> x in flds
      invariant forall k :: 0 <= k < nCols ==>
                  (flds[k] in dropFlds <==> flds[k] in dropIn || (i < k < j && Abs(r(iFld, flds[k])) >= threshold))
    {
      if j > i {
        var jFld := flds[j];
        if jFld in dropFlds {
          continue;
        }
        var pearson := r(iFld, jFld);
        if Abs(pearson) >= threshold {
          if !(jFld in dropFlds) {
            dropFlds := dropFlds + [jFld];
          }
        }
      }
    }
  }

  /**
   * The nested i/j loops of `removeXCorrelated`: an outer column already
   * marked is skipped, as is an inner one; for each remaining pair `i < j`
   * whose correlation reaches the threshold, `flds[j]` is appended.
   */
  method GreedyDropList(flds: seq<string>, r: (string, string) -> real, threshold: real)
    returns (dropFlds: seq<string>)
    requires Distinct(flds)
    ensures Distinct(dropFlds)
    ensures forall x :: x in dropFlds ==> x in flds
    ensures forall j :: 0 <= j < |flds| ==> (flds[j] in dropFlds <==> Dropped(flds, r, threshold, j))
  {
    dropFlds := [];
    var nCols := |flds|;
    for i := 0 to nCols
      invariant Distinct(dropFlds)
      invariant forall x :: x in dropFlds ==> x in flds
      invariant forall k :: 0 <= k < nCols ==> (flds[k] in dropFlds <==> DroppedBelow(flds, r, threshold, i, k))
    {
      var iFld := flds[i];
      DroppedBelowNext(flds, r, threshold, i);
      assert iFld in dropFlds <==> Dropped(flds, r, threshold, i);
      if iFld in dropFlds {
        continue;
      }
      dropFlds := MarkPartners(flds, r, threshold, i, dropFlds);
    }
  }

  /** The columns the greedy filter drops from the candidates `flds`. */
  function GreedyDrops(flds: seq<string>, r: (string, string) -> real, threshold: real): set<string> {
    set j | 0 <= j < |flds| && Dropped(flds, r, threshold, j) :: flds[j]
  }

  /**
   * `removeXCorrelated`: the candidates are the `corrDict` keys, visited in
   * dictionary order `keyOrder` and sorted by coefficient; the drop list is
   * then dropped in place.
   */
  method RemoveXCorrelated(df: DataFrame, corrDict: map<string, real>, keyOrder: seq<string>,
                           r: (string, string) -> real, threshold: real)
    requires df.Valid() && Distinct(df.header)
    requires Distinct(keyOrder) && Elems(keyOrder) == corrDict.Keys
    requires forall x :: x in corrDict ==> x in df.header
    modifies df
    ensures df.Valid()
    ensures df.Value() == DropNames(old(df.Value()), GreedyDrops(SortByCoeff(keyOrder, corrDict), r, threshold))
  {
    var flds := SortByCoeff(keyOrder, corrDict);
    SortByCoeffSpec(keyOrder, corrDict);
    var dropFlds := GreedyDropList(flds, r, threshold);
    assert Elems(dropFlds) == GreedyDrops(flds, r, threshold) by {
      forall x | x in dropFlds
        ensures x in GreedyDrops(flds, r, threshold)
      {
        var j :| 0 <= j < |flds| && flds[j] == x;
      }
    }
    forall i | 0 <= i < |dropFlds|
      ensures dropFlds[i] in df.header
    {
      assert dropFlds[i] in flds;
    }
    DropEach(df, dropFlds);
  }

  /**
   * The greedy filter drops `flds[j]` iff an earlier kept column reaches
   * the threshold with it, and the first candidate is never dropped.
   */
  lemma GreedyDropsSpec(flds: seq<string>, r: (string, string) -> real, threshold: real, j: nat)
    requires Distinct(flds) && j < |flds|
    ensures flds[j] in GreedyDrops(flds, r, threshold) <==>
            exists i :: 0 <= i < j && flds[i] !in GreedyDrops(flds, r, threshold) &&
                        Abs(r(flds[i], flds[j])) >= threshold
    ensures flds[0] !in GreedyDrops(flds, r, threshold)
  {
    assert forall k :: 0 <= k < |flds| ==>
             (flds[k] in GreedyDrops(flds, r, threshold) <==> Dropped(flds, r, threshold, k)) by {
      forall k | 0 <= k < |flds|
        ensures flds[k] in GreedyDrops(flds, r, threshold) ==> Dropped(flds, r, threshold, k)
      {
        if flds[k] in GreedyDrops(flds, r, threshold) {
          var k' :| 0 <= k' < |flds| && Dropped(flds, r, threshold, k') && flds[k'] == flds[k];
        }
      }
    }
  }

  /** Two candidates that both survive the greedy filter are correlated below the threshold. */
  lemma GreedyRetainedPairs(flds: seq<string>, r: (string, string) -> real, threshold: real, i: nat, j: nat)
    requires Distinct(flds) && i < j < |flds|
    requires flds[i] !in GreedyDrops(flds, r, threshold) && flds[j] !in GreedyDrops(flds, r, threshold)
    ensures Abs(r(flds[i], flds[j])) < threshold
  {
    GreedyDropsSpec(flds, r, threshold, j);
  }

  /**
   * With the candidates sorted ascending, a dropped column has a kept
   * partner, correlated at the threshold or above, whose signed label
   * coefficient is at most its own: the filter drops the column with the
   * larger coefficient.
   */
  lemma DropsLargerCoefficient(keys: seq<string>, m: map<string, real>,
                               r: (string, string) -> real, threshold: real, j: nat)
    requires Distinct(keys) && forall i :: 0 <= i < |keys| ==> keys[i] in m
    requires j < |keys| && SortByCoeff(keys, m)[j] in GreedyDrops(SortByCoeff(keys, m), r, threshold)
    ensures var flds := SortByCoeff(keys, m);
            exists i :: 0 <= i < j && flds[i] !in GreedyDrops(flds, r, threshold) &&
                        Abs(r(flds[i], flds[j])) >= threshold && m[flds[i]] <= m[flds[j]]
  {
    SortByCoeffSpec(keys, m);
    GreedyDropsSpec(SortByCoeff(keys, m), r, threshold, j);
  }

  /**
   * The strength of each label correlation, negated: sorting by it puts
   * the column most strongly correlated with the label, of either sign,
   * first, up to the order of ties.
   */
  function Strength(m: map<string, real>): (n: map<string, real>)
    ensures n.Keys == m.Keys && forall x :: x in m ==> n[x] == -Abs(m[x])
  {
    map x | x in m :: -Abs(m[x])
  }

  /**
   * Ranked as the comment at the drop describes: with the candidates sorted
   * by decreasing `abs` of their label coefficient, a dropped column's kept
   * partner is correlated with the label at least as strongly as it is, so
   * the column with the weaker correlation goes, whatever the signs.
   */
  lemma StrongestFirstDropsWeaker(keys: seq<string>, m: map<string, real>,
                                  r: (string, string) -> real, threshold: real, j: nat)
    requires Distinct(keys) && forall i :: 0 <= i < |keys| ==> keys[i] in m
    requires j < |keys| && SortByCoeff(keys, Strength(m))[j] in GreedyDrops(SortByCoeff(keys, Strength(m)), r, threshold)
    ensures var flds := SortByCoeff(keys, Strength(m));
            exists i :: 0 <= i < j && flds[i] !in GreedyDrops(flds, r, threshold) &&
                        Abs(r(flds[i], flds[j])) >= threshold && Abs(m[flds[i]]) >= Abs(m[flds[j]])
  {
    DropsLargerCoefficient(keys, Strength(m), r, threshold, j);
  }

  /** Columns outside `corrDict`, among them the first six and the label, are never dropped by the redundancy filter. */
  lemma XCorrelatedKeepsOthers(t: Table, corrDict: map<string, real>, keyOrder: seq<string>,
                               r: (string, string) -> real, threshold: real, x: string)
    requires Wf(t) && Distinct(keyOrder) && Elems(keyOrder) == corrDict.Keys
    requires x in t.header && x !in corrDict
    ensures x in DropNames(t, GreedyDrops(SortByCoeff(keyOrder, corrDict), r, threshold)).header
  {
    var flds := SortByCoeff(keyOrder, corrDict);
    DropNamesHeader(t, GreedyDrops(flds, r, threshold), x);
  }

  // ---------------------------------------------------------------------
  // Adjusting the table for MaxEnt
  // ---------------------------------------------------------------------

  /** The renaming at the end: the label column becomes `Species`, GRIDCODE and REACHCODE become X and Y. */
  function MaxentNames(sppName: string): map<string, string> {
    map[sppName := "Species", "GRIDCODE" := "X", "REACHCODE" := "Y"]
  }

  /** Reading a recoded label back. */
  function DecodeLabel(c: Cell, sppName: string): Cell {
    if c == Text(sppName) then Num(1)
    else if c == Text("Background") then Num(0)
    else c
  }

  /**
   * The recoding loses nothing: a presence or background label, or any
   * non-text cell, is recovered from its recoded form, as long as the
   * species is not itself called "Background".
   */
  lemma RecodeLabelRoundTrip(c: Cell, sppName: string)
    requires sppName != "Background" && (c == Num(0) || c == Num(1) || !c.Text?)
    ensures DecodeLabel(RecodeLabel(c, sppName), sppName) == c
    ensures c != Num(0) && c != Num(1) ==> RecodeLabel(c, sppName) == c
  {
  }

  /**
   * The two `.loc` updates in sequence recode the label column cell by
   * cell: the second test never matches a cell the first one rewrote.
   */
  lemma RecodeInTwoSteps(t: Table, k: nat, sppName: string)
    requires Rectangular(t) && k < |t.header|
    ensures AssignWhere(AssignWhere(t, k, Num(1), k, Text(sppName)), k, Num(0), k, Text("Background")) ==
            MapColumn(t, k, (c: Cell) => RecodeLabel(c, sppName))
  {
    var t1 := AssignWhere(t, k, Num(1), k, Text(sppName));
    var t2 := AssignWhere(t1, k, Num(0), k, Text("Background"));
    var m := MapColumn(t, k, (c: Cell) => RecodeLabel(c, sppName));
    forall i | 0 <= i < |t.rows|
      ensures t2.rows[i] == m.rows[i]
    {
      assert forall j :: 0 <= j < |t.header| ==> t2.rows[i][j] == m.rows[i][j];
    }
  }

  /** The frame written as the SWD file: renamed, label recoded, FEATUREID and HUC_12 dropped. */
  function ForMaxent(t: Table, sppName: string): (r: Table)
    requires Rectangular(t) && "Species" in RenameLabels(t.header, MaxentNames(sppName))
    ensures Rectangular(r)
  {
    var h := RenameLabels(t.header, MaxentNames(sppName));
    DropNames(MapColumn(Table(h, t.rows), IndexOf(h, "Species"), (c: Cell) => RecodeLabel(c, sppName)),
              {"FEATUREID", "HUC_12"})
  }

  /**
   * The adjustments at the end of the species loop, in place: rename, the
   * two label updates and the two drops; `ok` is false where pandas raises
   * KeyError (no `Species` column after the renaming, or no FEATUREID or
   * HUC_12 column).
   */
  method AdjustForMaxent(df: DataFrame, sppName: string) returns (ok: bool)
    requires df.Valid() && Distinct(RenameLabels(df.header, MaxentNames(sppName)))
    modifies df
    ensures df.Valid()
    ensures ok <==> var h := RenameLabels(old(df.header), MaxentNames(sppName));
                    "Species" in h && "FEATUREID" in h && "HUC_12" in h
    ensures ok ==> df.Value() == ForMaxent(old(df.Value()), sppName)
  {
    ghost var t0 := df.Value();
    df.Rename(MaxentNames(sppName));
    if "Species" !in df.header {
      return false;
    }
    ghost var t1 := df.Value();
    var k := IndexOf(df.header, "Species");
    var _ := df.SetWhere("Species", Num(1), "Species", Text(sppName));
    var _ := df.SetWhere("Species", Num(0), "Species", Text("Background"));
    RecodeInTwoSteps(t1, k, sppName);
    ghost var t2 := df.Value();
    var found := df.Drop("FEATUREID");
    if !found {
      return false;
    }
    DropNamesHeader(t2, {"FEATUREID"}, "HUC_12");
    found := df.Drop("HUC_12");
    if !found {
      return false;
    }
    DropNamesCompose(t2, {"FEATUREID"}, {"HUC_12"});
    assert {"FEATUREID"} + {"HUC_12"} == {"FEATUREID", "HUC_12"};
    ok := true;
  }

  /**
   * In the SWD table the `Species` column holds the recoded label of every
   * row, the other columns keep their values, and FEATUREID and HUC_12 are
   * gone.
   */
  lemma ForMaxentSpec(t: Table, sppName: string, x: string)
    requires Rectangular(t) && Distinct(RenameLabels(t.header, MaxentNames(sppName)))
    requires sppName in t.header && sppName != "GRIDCODE" && sppName != "REACHCODE"
    requires x in t.header && x !in MaxentNames(sppName) && x != "FEATUREID" && x != "HUC_12"
    ensures "Species" in ForMaxent(t, sppName).header
    ensures "FEATUREID" !in ForMaxent(t, sppName).header && "HUC_12" !in ForMaxent(t, sppName).header
    ensures forall i :: 0 <= i < |t.rows| ==>
              Column(ForMaxent(t, sppName), "Species")[i] == RecodeLabel(Column(t, sppName)[i], sppName)
    ensures x in ForMaxent(t, sppName).header && Column(ForMaxent(t, sppName), x) == Column(t, x)
  {
    var m := MaxentNames(sppName);
    var h := RenameLabels(t.header, m);
    var k := IndexOf(t.header, sppName);
    assert h[k] == "Species";
    IndexOfDistinct(h, k);
    var kx := IndexOf(t.header, x);
    assert h[kx] == x;
    IndexOfDistinct(h, kx);
    assert Distinct(t.header);
    var mc := MapColumn(Table(h, t.rows), k, (c: Cell) => RecodeLabel(c, sppName));
    var names := {"FEATUREID", "HUC_12"};
    DropNamesHeader(mc, names, "FEATUREID");
    DropNamesHeader(mc, names, "HUC_12");
    DropNamesColumn(mc, names, "Species");
    DropNamesColumn(mc, names, x);
  }
}
