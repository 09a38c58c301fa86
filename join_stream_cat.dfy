/**
 * Joining regional StreamCat tables to the catchment feature class: which
 * files of a region folder are processed, and which of a file's header
 * attributes are joined.
 */
module JoinStreamCat {
  import opened Wrappers
  import opened Seqs
  import opened Strings

  /** The id column of the StreamCat tables. */
  const IdField: string := "COMID"

  /** `"Region{}.csv".format(region) in fileName`. */
  predicate IsRegionFile(fileName: string, region: string) {
    Contains(fileName, "Region" + region + ".csv")
  }

  /** The files the loop processes, in folder order; every other file is skipped. */
  function RegionFiles(files: seq<string>, region: string): seq<string> {
    Filter(files, f => IsRegionFile(f, region))
  }

  lemma RegionFilesSpec(files: seq<string>, region: string, f: string)
    ensures f in RegionFiles(files, region) <==> f in files && Contains(f, "Region" + region + ".csv")
    ensures IsSubseq(RegionFiles(files, region), files)
  {
    FilterMember(files, g => IsRegionFile(g, region), f);
    FilterSubseq(files, g => IsRegionFile(g, region));
  }

  /** `if "COMID" in attributesToJoin: attributesToJoin.remove("COMID")`. */
  function DropId(attrs: seq<string>): seq<string> {
    if IdField in attrs then RemoveFirst(attrs, IdField) else attrs
  }

  // ---------------------------------------------------------------------
  // The loop as written: removing from the list it iterates over
  // ---------------------------------------------------------------------

  /**
   * The `for attrib in attributesToJoin` loop from list position `i` on:
   * the iterator reads the element at `i` and moves to `i + 1`, while a
   * removal shifts the later elements down, so the element after a removed
   * one is never visited. `last` is the variable `attrib`, which keeps the
   * value of the last visited element (and whatever it held before).
   */
  function Sweep(attrs: seq<string>, i: nat, fldNames: seq<string>, last: Option<string>)
    : (seq<string>, Option<string>)
    decreases |attrs| - i
  {
    if i >= |attrs| then (attrs, last)
    else if attrs[i] in fldNames then Sweep(RemoveFirst(attrs, attrs[i]), i + 1, fldNames, Some(attrs[i]))
    else Sweep(attrs, i + 1, fldNames, Some(attrs[i]))
  }

  /**
   * The loop `if attrib in fldNames: attributesToJoin.remove(attrib)`,
   * stepping a list index as Python's list iterator does.
   */
  method RemoveJoined(attributesToJoin: seq<string>, fldNames: seq<string>, prev: Option<string>)
    returns (attrs: seq<string>, attrib: Option<string>)
    ensures (attrs, attrib) == Sweep(attributesToJoin, 0, fldNames, prev)
  {
    attrs := attributesToJoin;
    attrib := prev;
    var i := 0;
    while i < |attrs|
      invariant Sweep(attrs, i, fldNames, attrib) == Sweep(attributesToJoin, 0, fldNames, prev)
      decreases |attrs| - i
    {
      attrib := Some(attrs[i]);
      if attrs[i] in fldNames {
        attrs := RemoveFirst(attrs, attrs[i]);
      }
      i := i + 1;
    }
  }

  /**
   * What the loop leaves is a subsequence of the list, and it removes only
   * names already in the feature class: every other name keeps its count.
   */
  lemma {:induction false} SweepSpec(attrs: seq<string>, i: nat, fldNames: seq<string>, last: Option<string>, x: string)
    ensures IsSubseq(Sweep(attrs, i, fldNames, last).0, attrs)
    ensures x !in fldNames ==> multiset(Sweep(attrs, i, fldNames, last).0)[x] == multiset(attrs)[x]
    decreases |attrs| - i
  {
    if i >= |attrs| {
      SubseqRefl(attrs);
    } else if attrs[i] in fldNames {
      var rest := RemoveFirst(attrs, attrs[i]);
      SweepSpec(rest, i + 1, fldNames, Some(attrs[i]), x);
      SubseqRemoveFirst(attrs, attrs[i]);
      SubseqTrans(Sweep(rest, i + 1, fldNames, Some(attrs[i])).0, rest, attrs);
      RemoveFirstMultiset(attrs, attrs[i]);
    } else {
      SweepSpec(attrs, i + 1, fldNames, Some(attrs[i]), x);
    }
  }

  /**
   * Two adjacent names that are both in the feature class: the first is
   * removed, the second is skipped and stays in the list to be joined again.
   */
  lemma RemoveWhileIteratingSkips()
    ensures Sweep(["A", "B"], 0, ["A", "B"], None) == (["B"], Some("A"))
  {
    assert RemoveFirst(["A", "B"], "A") == ["B"];
  }

  /**
   * The "nothing to join" test looks at the length of the last visited
   * name, not of the list: a list emptied by the loop still goes to the join.
   */
  lemma LengthTestMissesEmptyList()
    ensures Sweep(["A"], 0, ["A"], None) == ([], Some("A")) && |"A"| != 0
  {
    assert RemoveFirst(["A"], "A") == [];
  }

  /** The per-file decision: nothing to join, or join these attributes. */
  datatype Plan = NothingToJoin | JoinFields(fields: seq<string>)

  /**
   * The file's decision as written: the loop, then `len(attrib) == 0`;
   * `attrib` is unbound (NameError) when no element was ever visited.
   */
  function PlanAsWritten(header: seq<string>, fldNames: seq<string>, prev: Option<string>): Result<Plan, string> {
    var r := Sweep(DropId(header), 0, fldNames, prev);
    if r.1.None? then Err("NameError")
    else if |r.1.value| == 0 then Ok(NothingToJoin)
    else Ok(JoinFields(r.0))
  }

  // ---------------------------------------------------------------------
  // The evident intent: keep the names the feature class lacks
  // ---------------------------------------------------------------------

  /** The attributes not yet in the feature class, in header order. */
  function NewAttributes(attrs: seq<string>, fldNames: seq<string>): seq<string> {
    Filter(attrs, a => a !in fldNames)
  }

  /** The kept names are exactly the names absent from the feature class, in their order. */
  lemma NewAttributesSpec(attrs: seq<string>, fldNames: seq<string>, x: string)
    ensures x in NewAttributes(attrs, fldNames) <==> x in attrs && x !in fldNames
    ensures IsSubseq(NewAttributes(attrs, fldNames), attrs)
  {
    FilterMember(attrs, a => a !in fldNames, x);
    FilterSubseq(attrs, a => a !in fldNames);
  }

  /** The corrected decision: join when some attribute is new. */
  function PlanFor(header: seq<string>, fldNames: seq<string>): Plan {
    var fields := NewAttributes(DropId(header), fldNames);
    if |fields| == 0 then NothingToJoin else JoinFields(fields)
  }

  /**
   * The corrected decision joins exactly the header names other than the
   * first COMID that the feature class lacks, and skips the file when there
   * are none.
   */
  lemma PlanForSpec(header: seq<string>, fldNames: seq<string>, x: string)
    ensures PlanFor(header, fldNames).NothingToJoin? <==> forall i :: 0 <= i < |DropId(header)| ==> DropId(header)[i] in fldNames
    ensures PlanFor(header, fldNames).JoinFields? ==>
              (x in PlanFor(header, fldNames).fields <==> x in DropId(header) && x !in fldNames)
  {
    var attrs := DropId(header);
    NewAttributesSpec(attrs, fldNames, x);
    if forall i :: 0 <= i < |attrs| ==> attrs[i] in fldNames {
      if |NewAttributes(attrs, fldNames)| > 0 {
        var y := NewAttributes(attrs, fldNames)[0];
        NewAttributesSpec(attrs, fldNames, y);
      }
    } else {
      var i :| 0 <= i < |attrs| && attrs[i] !in fldNames;
      NewAttributesSpec(attrs, fldNames, attrs[i]);
    }
  }

  /** On a header whose last two names are already present, the two decisions differ. */
  lemma PlansDiffer()
    ensures PlanAsWritten(["COMID", "A", "B"], ["A", "B"], None) == Ok(JoinFields(["B"]))
    ensures PlanFor(["COMID", "A", "B"], ["A", "B"]) == NothingToJoin
  {
    var h: seq<string> := ["COMID", "A", "B"];
    assert h[0] == IdField;
    assert DropId(h) == ["A", "B"];
    RemoveWhileIteratingSkips();
    assert NewAttributes(["A", "B"], ["A", "B"]) == [];
  }
}
