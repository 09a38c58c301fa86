/**
 * The pandas data frames the scripts manipulate, reduced to what the
 * selection logic observes: a header of column labels and a sequence of
 * rows of cells. A cell is an integer, a text value, or missing (NaN).
 * `DataFrame` is the mutable object the scripts change in place with
 * `drop(..., inplace=True)`, `insert`, column assignment, `.loc` updates
 * and `rename(..., inplace=True)`.
 */
module Frames {
  import opened Seqs

  /** The no-data value of the StreamCat tables. */
  const Sentinel: int := -9999

  datatype Cell = Num(n: int) | Text(s: string) | Missing

  type Row = seq<Cell>

  datatype Table = Table(header: seq<string>, rows: seq<Row>)

  predicate Rectangular(t: Table) {
    forall i :: 0 <= i < |t.rows| ==> |t.rows[i]| == |t.header|
  }

  /** Well-formed: every row has one cell per column and no label repeats. */
  predicate Wf(t: Table) {
    Rectangular(t) && Distinct(t.header)
  }

  /** `df[name]`: the column labelled `name`, top to bottom. */
  function Column(t: Table, name: string): (col: seq<Cell>)
    requires Rectangular(t) && name in t.header
    ensures |col| == |t.rows|
  {
    seq(|t.rows|, i requires 0 <= i < |t.rows| => t.rows[i][IndexOf(t.header, name)])
  }

  // ---------------------------------------------------------------------
  // Dropping columns
  // ---------------------------------------------------------------------

  /** What `drop(names, axis=1)` leaves: every column labelled in `names` is gone. */
  function DropNames(t: Table, names: set<string>): (r: Table)
    requires Rectangular(t)
    ensures Rectangular(r) && |r.rows| == |t.rows|
    ensures r.header == KeepWhere(t.header, t.header, names)
  {
    var h := KeepWhere(t.header, t.header, names);
    var rows := seq(|t.rows|, i requires 0 <= i < |t.rows| => KeepWhere(t.rows[i], t.header, names));
    assert forall i :: 0 <= i < |rows| ==> |rows[i]| == |h| by {
      forall i | 0 <= i < |rows| { KeepWhereLength(t.rows[i], t.header, names); }
    }
    Table(h, rows)
  }

  lemma DropNamesHeader(t: Table, names: set<string>, x: string)
    requires Rectangular(t)
    ensures x in DropNames(t, names).header <==> x in t.header && x !in names
  {
    KeepWhereMember(t.header, names, x);
  }

  lemma DropNamesWf(t: Table, names: set<string>)
    requires Wf(t)
    ensures Wf(DropNames(t, names))
  {
    KeepWhereDistinct(t.header, names);
  }

  /** Dropping `a` and then `b` is dropping both at once. */
  lemma DropNamesCompose(t: Table, a: set<string>, b: set<string>)
    requires Rectangular(t)
    ensures DropNames(DropNames(t, a), b) == DropNames(t, a + b)
  {
    var t1 := DropNames(t, a);
    var lhs := DropNames(t1, b);
    var rhs := DropNames(t, a + b);
    KeepWhereCompose(t.header, t.header, a, b);
    forall i | 0 <= i < |t.rows|
      ensures lhs.rows[i] == rhs.rows[i]
    {
      KeepWhereCompose(t.rows[i], t.header, a, b);
    }
  }

  /** A column that is not dropped keeps all its values. */
  lemma DropNamesColumn(t: Table, names: set<string>, x: string)
    requires Wf(t) && x in t.header && x !in names
    ensures x in DropNames(t, names).header
    ensures Column(DropNames(t, names), x) == Column(t, x)
  {
    DropNamesHeader(t, names, x);
    var r := DropNames(t, names);
    forall i | 0 <= i < |t.rows|
      ensures Column(r, x)[i] == Column(t, x)[i]
    {
      KeepWhereLookup(t.rows[i], t.header, names, x);
    }
  }

  /** Dropping labels the table does not have changes nothing. */
  lemma DropNamesAbsent(t: Table, names: set<string>)
    requires Rectangular(t)
    requires forall x :: x in names ==> x !in t.header
    ensures DropNames(t, names) == t
  {
    KeepWhereNothing(t.header, t.header, names);
    forall i | 0 <= i < |t.rows|
      ensures DropNames(t, names).rows[i] == t.rows[i]
    {
      KeepWhereNothing(t.rows[i], t.header, names);
    }
  }

  // ---------------------------------------------------------------------
  // Other column operations
  // ---------------------------------------------------------------------

  /** `df.insert(0, name, value)`: a new first column holding `value` in every row. */
  function WithFirstColumn(t: Table, name: string, value: Cell): (r: Table)
    requires Rectangular(t)
    ensures Rectangular(r)
  {
    Table([name] + t.header, seq(|t.rows|, i requires 0 <= i < |t.rows| => [value] + t.rows[i]))
  }

  /** Column `k` rewritten cell by cell with `f`. */
  function MapColumn(t: Table, k: nat, f: Cell -> Cell): (r: Table)
    requires Rectangular(t) && k < |t.header|
    ensures Rectangular(r) && r.header == t.header && |r.rows| == |t.rows|
    ensures forall i, j :: 0 <= i < |t.rows| && 0 <= j < |t.header| ==>
              r.rows[i][j] == if j == k then f(t.rows[i][j]) else t.rows[i][j]
  {
    Table(t.header, seq(|t.rows|, i requires 0 <= i < |t.rows| => t.rows[i][k := f(t.rows[i][k])]))
  }

  /** `fillna(0)` on one cell. */
  function FillZero(c: Cell): Cell {
    if c == Missing then Num(0) else c
  }

  /** `df.loc[df[cols[kt]] == v, cols[kw]] = w`: the rows whose cell `kt` is `v` get `w` in cell `kw`. */
  function AssignWhere(t: Table, kt: nat, v: Cell, kw: nat, w: Cell): (r: Table)
    requires Rectangular(t) && kt < |t.header| && kw < |t.header|
    ensures Rectangular(r) && r.header == t.header && |r.rows| == |t.rows|
    ensures forall i, j :: 0 <= i < |t.rows| && 0 <= j < |t.header| ==>
              r.rows[i][j] == if j == kw && t.rows[i][kt] == v then w else t.rows[i][j]
  {
    Table(t.header, seq(|t.rows|, i requires 0 <= i < |t.rows| =>
                          if t.rows[i][kt] == v then t.rows[i][kw := w] else t.rows[i]))
  }

  /** `rename(columns=m)`: each label found in `m` is replaced by its image. */
  function RenameLabels(h: seq<string>, m: map<string, string>): (r: seq<string>)
    ensures |r| == |h|
    ensures forall i :: 0 <= i < |h| ==> r[i] == if h[i] in m then m[h[i]] else h[i]
  {
    seq(|h|, i requires 0 <= i < |h| => if h[i] in m then m[h[i]] else h[i])
  }

  // ---------------------------------------------------------------------
  // The mutable frame
  // ---------------------------------------------------------------------

  class DataFrame {
    var header: seq<string>
    var rows: seq<Row>

    ghost predicate Valid()
      reads this
    {
      Rectangular(Table(header, rows))
    }

    function Value(): Table
      reads this
    {
      Table(header, rows)
    }

    constructor (t: Table)
      requires Rectangular(t)
      ensures Valid() && Value() == t
    {
      header := t.header;
      rows := t.rows;
    }

    /**
     * `drop(name, axis=1, inplace=True)`: removes every column labelled
     * `name`; `found` is false where pandas raises KeyError, and then
     * nothing changes.
     */
    method Drop(name: string) returns (found: bool)
      requires Valid()
      modifies this
      ensures Valid()
      ensures found <==> name in old(header)
      ensures Value() == if found then DropNames(old(Value()), {name}) else old(Value())
    {
      found := name in header;
      if found {
        var t := DropNames(Value(), {name});
        header := t.header;
        rows := t.rows;
      }
    }

    /**
     * `insert(0, name, value)`: a new first column holding `value` in every
     * row; `ok` is false where pandas raises ValueError because the label
     * exists, and then nothing changes.
     */
    method InsertFirst(name: string, value: Cell) returns (ok: bool)
      requires Valid()
      modifies this
      ensures Valid()
      ensures ok <==> name !in old(header)
      ensures Value() == if ok then WithFirstColumn(old(Value()), name, value) else old(Value())
    {
      ok := name !in header;
      if ok {
        var t := WithFirstColumn(Value(), name, value);
        header := t.header;
        rows := t.rows;
      }
    }

    /**
     * `df[name] = df[name].fillna(0)`; `found` is false where pandas
     * raises KeyError, and then nothing changes.
     */
    method FillNa(name: string) returns (found: bool)
      requires Valid() && Distinct(header)
      modifies this
      ensures Valid()
      ensures found <==> name in old(header)
      ensures Value() == if found then MapColumn(old(Value()), IndexOf(old(header), name), FillZero)
                         else old(Value())
    {
      found := name in header;
      if found {
        var t := MapColumn(Value(), IndexOf(header, name), FillZero);
        rows := t.rows;
      }
    }

    /**
     * `df.loc[df[test] == v, target] = w`; `found` is false where pandas
     * raises KeyError on `df[test]`, and then nothing changes.
     */
    method SetWhere(test: string, v: Cell, target: string, w: Cell) returns (found: bool)
      requires Valid() && Distinct(header) && target in header
      modifies this
      ensures Valid()
      ensures found <==> test in old(header)
      ensures Value() == if found
                         then AssignWhere(old(Value()), IndexOf(old(header), test), v, IndexOf(old(header), target), w)
                         else old(Value())
    {
      found := test in header;
      if found {
        var t := AssignWhere(Value(), IndexOf(header, test), v, IndexOf(header, target), w);
        rows := t.rows;
      }
    }

    /** `rename(columns=m, inplace=True)`. */
    method Rename(m: map<string, string>)
      requires Valid()
      modifies this
      ensures Valid()
      ensures Value() == Table(RenameLabels(old(header), m), old(rows))
    {
      header := RenameLabels(header, m);
    }
  }
}
