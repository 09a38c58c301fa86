/**
 * Preparing a generic project samples-with-data table for one species
 * model: the project table loses, in place, every column the species table
 * does not have.
 */
module PrepAlternateSwd {
  import opened Seqs
  import opened Frames

  /** The project columns the species table lacks. */
  function Foreign(t: Table, sppCols: seq<string>): set<string> {
    set x | x in t.header && x !in sppCols
  }

  /** The project table restricted to the columns the species table shares. */
  function KeepShared(t: Table, sppCols: seq<string>): Table
    requires Rectangular(t)
  {
    DropNames(t, Foreign(t, sppCols))
  }

  /**
   * The kept columns are exactly the project columns that the species table
   * also has, in project order; a species-only column is never added.
   */
  lemma KeepSharedHeader(t: Table, sppCols: seq<string>, x: string)
    requires Rectangular(t)
    ensures x in KeepShared(t, sppCols).header <==> x in t.header && x in sppCols
    ensures IsSubseq(KeepShared(t, sppCols).header, t.header)
  {
    DropNamesHeader(t, Foreign(t, sppCols), x);
    SubseqKeepWhere(t.header, t.header, Foreign(t, sppCols));
  }

  /** The rows stay, and every kept column keeps all its values. */
  lemma KeepSharedValues(t: Table, sppCols: seq<string>, x: string)
    requires Wf(t) && x in t.header && x in sppCols
    ensures |KeepShared(t, sppCols).rows| == |t.rows|
    ensures x in KeepShared(t, sppCols).header && Column(KeepShared(t, sppCols), x) == Column(t, x)
  {
    DropNamesColumn(t, Foreign(t, sppCols), x);
  }

  /** A table whose columns the species table all has is left as it is. */
  lemma KeepSharedSubset(t: Table, sppCols: seq<string>)
    requires Rectangular(t)
    requires forall i :: 0 <= i < |t.header| ==> t.header[i] in sppCols
    ensures KeepShared(t, sppCols) == t
  {
    assert Foreign(t, sppCols) == {};
    DropNamesAbsent(t, {});
  }

  /** Preparing twice is preparing once. */
  lemma KeepSharedIdempotent(t: Table, sppCols: seq<string>)
    requires Rectangular(t)
    ensures KeepShared(KeepShared(t, sppCols), sppCols) == KeepShared(t, sppCols)
  {
    var r := KeepShared(t, sppCols);
    forall i | 0 <= i < |r.header|
      ensures r.header[i] in sppCols
    {
      KeepSharedHeader(t, sppCols, r.header[i]);
    }
    KeepSharedSubset(r, sppCols);
  }

  /**
   * The loop over a snapshot of the project labels, dropping in place each
   * one the species table lacks.
   */
  method PrepAlternate(prjDF: DataFrame, sppCols: seq<string>)
    requires prjDF.Valid() && Distinct(prjDF.header)
    modifies prjDF
    ensures prjDF.Valid()
    ensures prjDF.Value() == KeepShared(old(prjDF.Value()), sppCols)
  {
    ghost var t0 := prjDF.Value();
    var prjCols := prjDF.header;
    ghost var dropped: set<string> := {};
    DropNamesAbsent(t0, {});
    for i := 0 to |prjCols|
      invariant prjDF.Valid()
      invariant forall x :: x in dropped <==> x in prjCols[..i] && x !in sppCols
      invariant prjDF.Value() == DropNames(t0, dropped)
    {
      var prjCol := prjCols[i];
      assert prjCol !in prjCols[..i];
      assert prjCols[..i + 1] == prjCols[..i] + [prjCol];
      if prjCol !in sppCols {
        DropNamesHeader(t0, dropped, prjCol);
        var _ := prjDF.Drop(prjCol);
        DropNamesCompose(t0, dropped, {prjCol});
        dropped := dropped + {prjCol};
      }
    }
    assert prjCols[..|prjCols|] == prjCols;
    assert dropped == Foreign(t0, sppCols);
  }
}
