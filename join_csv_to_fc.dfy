/**
 * Joining a results table to the catchment feature class: the link-field
 * check, the distinct link values, the column list with the link field
 * moved to the front, and the field type chosen for every other column.
 */
module JoinCsvToFc {
  import opened Wrappers
  import opened Seqs
  import opened Frames

  /** What the run printed before it failed, and the exception that ended it. */
  datatype Failure = Failure(printed: seq<string>, error: string)

  /**
   * The link-field check and `pd.unique(df[linkFld])`. The check prints
   * `ERROR` but only names `sys.exit` without calling it, so the run goes
   * on and fails on `df[linkFld]`.
   */
  function LinkValues(df: Table, linkFld: string): Result<seq<Cell>, Failure>
    requires Rectangular(df)
  {
    if linkFld !in df.header then Err(Failure(["ERROR"], "KeyError"))
    else Ok(Unique(Column(df, linkFld)))
  }

  /**
   * A missing link field ends the run with a KeyError after the message;
   * otherwise the values are the distinct link values in order of first
   * appearance.
   */
  lemma LinkValuesSpec(df: Table, linkFld: string, x: Cell)
    requires Rectangular(df)
    ensures LinkValues(df, linkFld).Err? <==> linkFld !in df.header
    ensures linkFld !in df.header ==> LinkValues(df, linkFld).error == Failure(["ERROR"], "KeyError")
    ensures linkFld in df.header ==>
              var vals := LinkValues(df, linkFld).value;
              Distinct(vals) && (x in vals <==> x in Column(df, linkFld)) &&
              InFirstAppearanceOrder(vals, Column(df, linkFld))
  {
    if linkFld in df.header {
      UniqueSpec(Column(df, linkFld));
    }
  }

  /** `cols.remove(linkFld)` then `cols.insert(0, linkFld)`. */
  method LinkFirst(columns: seq<string>, linkFld: string) returns (cols: seq<string>)
    requires linkFld in columns
    ensures cols == [linkFld] + RemoveFirst(columns, linkFld)
  {
    cols := columns;
    cols := RemoveFirst(cols, linkFld);
    cols := [linkFld] + cols;
  }

  /**
   * The reordered list starts with the link field, has the same length and
   * the same labels, and keeps the other labels in their order.
   */
  lemma LinkFirstSpec(columns: seq<string>, linkFld: string)
    requires linkFld in columns
    ensures var cols := [linkFld] + RemoveFirst(columns, linkFld);
            cols[0] == linkFld && |cols| == |columns| && multiset(cols) == multiset(columns) &&
            IsSubseq(cols[1..], columns)
  {
    var rest := RemoveFirst(columns, linkFld);
    RemoveFirstMultiset(columns, linkFld);
    SubseqRemoveFirst(columns, linkFld);
    assert ([linkFld] + rest)[1..] == rest;
  }

  /** Only the first occurrence of the link field moves: a later one stays among the other labels. */
  lemma LinkFirstMovesFirstOnly(columns: seq<string>, linkFld: string, k: nat)
    requires linkFld in columns && IndexOf(columns, linkFld) < k < |columns| && columns[k] == linkFld
    ensures linkFld in RemoveFirst(columns, linkFld)
  {
    RemoveFirstAt(columns, linkFld, k - 1);
  }

  /**
   * With distinct labels the other labels are exactly the labels other than
   * the link field.
   */
  lemma OtherColumns(columns: seq<string>, linkFld: string, x: string)
    requires Distinct(columns) && linkFld in columns
    ensures x in RemoveFirst(columns, linkFld) <==> x in columns && x != linkFld
  {
    var rest := RemoveFirst(columns, linkFld);
    var i := IndexOf(columns, linkFld);
    if x in rest {
      var m :| 0 <= m < |rest| && rest[m] == x;
      RemoveFirstAt(columns, linkFld, m);
      var at := if m < i then m else m + 1;
      assert columns[at] == x && at != i;
      assert columns[at] != columns[i];
    }
    if x in columns && x != linkFld {
      var j :| 0 <= j < |columns| && columns[j] == x;
      assert j != i;
      if j < i {
        RemoveFirstAt(columns, linkFld, j);
        assert rest[j] == x;
      } else {
        RemoveFirstAt(columns, linkFld, j - 1);
        assert rest[j - 1] == x;
      }
    }
  }

  /** The pandas dtype of a column, as the script distinguishes them. */
  datatype DType = Float64 | Int64 | OtherDType

  /** An `AddField_management` field type with its positional size arguments. */
  datatype FieldType = FieldType(kind: string, sizes: seq<nat>)

  function TypeFor(d: DType): FieldType {
    match d
    case Float64 => FieldType("FLOAT", [8, 5])
    case Int64 => FieldType("LONG", [20])
    case OtherDType => FieldType("TEXT", [30])
  }

  datatype NewField = NewField(name: string, fieldType: FieldType)

  /** The fields the loop over `cols[1:]` adds, one per column in order. */
  function FieldsFor(cols: seq<string>, dtype: string -> DType): seq<NewField> {
    seq(|cols|, i requires 0 <= i < |cols| => NewField(cols[i], TypeFor(dtype(cols[i]))))
  }

  /** The loop over `cols[1:]`. */
  method AddFields(cols: seq<string>, dtype: string -> DType) returns (fields: seq<NewField>)
    requires |cols| > 0
    ensures fields == FieldsFor(cols[1..], dtype)
  {
    fields := [];
    for i := 1 to |cols|
      invariant fields == FieldsFor(cols[1..i], dtype)
    {
      var col := cols[i];
      var fieldType := TypeFor(dtype(col));
      assert cols[1..i + 1] == cols[1..i] + [col];
      fields := fields + [NewField(col, fieldType)];
    }
  }

  /**
   * The script up to the field additions: it fails exactly when the link
   * field is missing; otherwise it adds one field per column other than
   * the link field, in the table's order, typed FLOAT(8,5) for float64,
   * LONG(20) for int64 and TEXT(30) for every other dtype.
   */
  method JoinCsv(df: Table, linkFld: string, dtype: string -> DType)
    returns (r: Result<(seq<Cell>, seq<NewField>), Failure>)
    requires Rectangular(df)
    ensures r.Err? <==> linkFld !in df.header
    ensures r.Ok? ==> r.value.0 == Unique(Column(df, linkFld)) &&
                      r.value.1 == FieldsFor(RemoveFirst(df.header, linkFld), dtype)
  {
    var vals := LinkValues(df, linkFld);
    if vals.Err? {
      return Err(vals.error);
    }
    var cols := LinkFirst(df.header, linkFld);
    var fields := AddFields(cols, dtype);
    assert cols[1..] == RemoveFirst(df.header, linkFld);
    return Ok((vals.value, fields));
  }

  /**
   * With distinct labels, the added fields are exactly the columns other
   * than the link field, and each gets the type its dtype maps to.
   */
  lemma AddedFieldsSpec(header: seq<string>, linkFld: string, dtype: string -> DType, x: string)
    requires Distinct(header) && linkFld in header
    ensures var fields := FieldsFor(RemoveFirst(header, linkFld), dtype);
            (exists i :: 0 <= i < |fields| && fields[i].name == x) <==> x in header && x != linkFld
    ensures var fields := FieldsFor(RemoveFirst(header, linkFld), dtype);
            forall i :: 0 <= i < |fields| ==>
              fields[i].fieldType.kind == match dtype(fields[i].name)
                                         case Float64 => "FLOAT"
                                         case Int64 => "LONG"
                                         case OtherDType => "TEXT"
  {
    var rest := RemoveFirst(header, linkFld);
    var fields := FieldsFor(rest, dtype);
    OtherColumns(header, linkFld, x);
    if x in rest {
      var i :| 0 <= i < |rest| && rest[i] == x;
      assert fields[i].name == x;
    }
  }
}
