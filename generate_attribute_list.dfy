/**
 * The StreamCat attribute list: a CSV text with one `file, attribute` line
 * per header attribute of every CSV file in the data folder, leaving out
 * the id and location columns.
 */
module GenerateAttributeList {
  import opened Seqs
  import opened Strings

  /** The first line written, spelled as the script spells it. */
  const Heading: string := "File, Attirbute\n"

  /** The header items never reported. */
  const Excluded: seq<string> := ["OID", "GRIDCODE", "FEATUREID", "REACHCODE", "HUC_12"]

  /** `fObj.readline()[:-1].split(",")`: the first line loses its last character, then splits on commas. */
  function HeaderItems(firstLine: string): seq<string> {
    Split(DropLastN(firstLine, 1), ',')
  }

  /** A header line ending in a newline gives back its comma-separated fields. */
  lemma HeaderItemsOf(fields: seq<string>)
    requires |fields| > 0 && forall i :: 0 <= i < |fields| ==> ',' !in fields[i]
    ensures HeaderItems(Join(fields, ",") + "\n") == fields
  {
    var line := Join(fields, ",") + "\n";
    assert DropLastN(line, 1) == Join(fields, ",");
    SplitJoin(fields, ',');
  }

  /** A first line without its newline loses its last real character instead. */
  lemma HeaderWithoutNewline()
    ensures HeaderItems("A,B") == ["A", ""]
  {
    var s := DropLastN("A,B", 1);
    assert s == "A,";
    assert s[1..] == ",";
    assert ","[1..] == "";
    var rest := Split(",", ',');
    assert rest == ["", ""];
    assert Split(s, ',') == [[s[0]] + rest[0]] + rest[1..];
    assert [s[0]] + rest[0] == "A";
  }

  /** One reported attribute. */
  datatype Entry = Entry(file: string, item: string)

  /** `"{}, {}\n".format(fName, headerItem)`. */
  function EntryLine(e: Entry): string {
    e.file + ", " + e.item + "\n"
  }

  /** The entries one file contributes: its header items that are not excluded, in order. */
  function FileEntries(fName: string, items: seq<string>, excluded: seq<string>): seq<Entry>
    decreases |items|
  {
    if |items| == 0 then []
    else FileEntries(fName, items[..|items| - 1], excluded) +
         (if items[|items| - 1] !in excluded then [Entry(fName, items[|items| - 1])] else [])
  }

  /** The entries of all the CSV files, in folder order; `firstLine` is what `readline` returns for a file. */
  function Entries(files: seq<string>, firstLine: string -> string, excluded: seq<string>): seq<Entry>
    decreases |files|
  {
    if |files| == 0 then []
    else Entries(files[..|files| - 1], firstLine, excluded) + CsvEntries(files[|files| - 1], firstLine, excluded)
  }

  /** The entries of one file of the folder: none unless its name ends in `.csv`. */
  function CsvEntries(f: string, firstLine: string -> string, excluded: seq<string>): seq<Entry> {
    if IsCsvName(f) then FileEntries(f, HeaderItems(firstLine(f)), excluded) else []
  }

  /** The text of a sequence of entries. */
  function Text(entries: seq<Entry>): string
    decreases |entries|
  {
    if |entries| == 0 then "" else Text(entries[..|entries| - 1]) + EntryLine(entries[|entries| - 1])
  }

  lemma FileEntriesSnoc(fName: string, items: seq<string>, excluded: seq<string>, j: nat)
    requires j < |items|
    ensures FileEntries(fName, items[..j + 1], excluded)
            == FileEntries(fName, items[..j], excluded) + (if items[j] !in excluded then [Entry(fName, items[j])] else [])
  {
    assert items[..j + 1][..j] == items[..j];
  }

  lemma EntriesSnoc(files: seq<string>, firstLine: string -> string, excluded: seq<string>, i: nat)
    requires i < |files|
    ensures Entries(files[..i + 1], firstLine, excluded)
            == Entries(files[..i], firstLine, excluded) + CsvEntries(files[i], firstLine, excluded)
  {
    assert files[..i + 1][..i] == files[..i];
  }

  lemma TextSnoc(es: seq<Entry>, e: Entry)
    ensures Text(es + [e]) == Text(es) + EntryLine(e)
  {
    assert (es + [e])[..|es|] == es;
  }

  lemma {:induction false} TextConcat(a: seq<Entry>, b: seq<Entry>)
    ensures Text(a + b) == Text(a) + Text(b)
    decreases |b|
  {
    if |b| == 0 {
      assert a + b == a;
    } else {
      var n := |b| - 1;
      var ab := a + b;
      assert ab[..|a| + n] == a + b[..n];
      assert ab[|a| + n] == b[n];
      assert Text(ab) == Text(a + b[..n]) + EntryLine(b[n]);
      TextConcat(a, b[..n]);
      assert Text(b) == Text(b[..n]) + EntryLine(b[n]);
    }
  }

  lemma {:induction false} FileEntriesSpec(fName: string, items: seq<string>, excluded: seq<string>, e: Entry)
    ensures e in FileEntries(fName, items, excluded) <==> e.file == fName && e.item in items && e.item !in excluded
    decreases |items|
  {
    if |items| > 0 {
      var n := |items| - 1;
      FileEntriesSpec(fName, items[..n], excluded, e);
      assert items == items[..n] + [items[n]];
    }
  }

  /**
   * An entry is reported iff its file is a listed `.csv` file and its item
   * is one of that file's header items outside the excluded names.
   */
  lemma {:induction false} EntriesSpec(files: seq<string>, firstLine: string -> string, excluded: seq<string>, e: Entry)
    ensures e in Entries(files, firstLine, excluded) <==>
            e.file in files && IsCsvName(e.file) && e.item in HeaderItems(firstLine(e.file)) && e.item !in excluded
    decreases |files|
  {
    if |files| > 0 {
      var n := |files| - 1;
      var f := files[n];
      EntriesSpec(files[..n], firstLine, excluded, e);
      FileEntriesSpec(f, HeaderItems(firstLine(f)), excluded, e);
      assert files == files[..n] + [f];
    }
  }

  /** OID, GRIDCODE, FEATUREID, REACHCODE and HUC_12 are never reported. */
  lemma NeverReported(files: seq<string>, firstLine: string -> string, e: Entry)
    requires e in Entries(files, firstLine, Excluded)
    ensures e.item != "OID" && e.item != "GRIDCODE" && e.item != "FEATUREID" &&
            e.item != "REACHCODE" && e.item != "HUC_12"
  {
    EntriesSpec(files, firstLine, Excluded, e);
  }

  /** One step of the inner loop, as text appended to what is already written. */
  lemma WriteStep(out: string, fName: string, items: seq<string>, excluded: seq<string>, j: nat)
    requires j < |items|
    ensures out + Text(FileEntries(fName, items[..j + 1], excluded))
            == out + Text(FileEntries(fName, items[..j], excluded)) +
               (if items[j] !in excluded then EntryLine(Entry(fName, items[j])) else "")
  {
    var es := FileEntries(fName, items[..j], excluded);
    FileEntriesSnoc(fName, items, excluded, j);
    if items[j] !in excluded {
      var e := Entry(fName, items[j]);
      assert FileEntries(fName, items[..j + 1], excluded) == es + [e];
      TextSnoc(es, e);
      assert out + (Text(es) + EntryLine(e)) == out + Text(es) + EntryLine(e);
    } else {
      assert FileEntries(fName, items[..j + 1], excluded) == es;
    }
  }

  /** One step of the outer loop, as text appended to what is already written. */
  lemma GenerateStep(out: string, files: seq<string>, firstLine: string -> string, excluded: seq<string>, i: nat)
    requires i < |files|
    ensures out + Text(Entries(files[..i + 1], firstLine, excluded))
            == out + Text(Entries(files[..i], firstLine, excluded)) + Text(CsvEntries(files[i], firstLine, excluded))
  {
    EntriesSnoc(files, firstLine, excluded, i);
    TextAppend(out, Entries(files[..i], firstLine, excluded), CsvEntries(files[i], firstLine, excluded));
  }

  lemma TextAppend(out: string, before: seq<Entry>, added: seq<Entry>)
    ensures out + Text(before + added) == out + Text(before) + Text(added)
  {
    TextConcat(before, added);
    assert out + (Text(before) + Text(added)) == out + Text(before) + Text(added);
  }

  /** The inner loop: one line per item that is not excluded. */
  method WriteItems(out: string, fName: string, items: seq<string>, excluded: seq<string>) returns (res: string)
    ensures res == out + Text(FileEntries(fName, items, excluded))
  {
    res := out;
    for j := 0 to |items|
      invariant res == out + Text(FileEntries(fName, items[..j], excluded))
    {
      var headerItem := items[j];
      WriteStep(out, fName, items, excluded, j);
      if headerItem !in excluded {
        res := res + EntryLine(Entry(fName, headerItem));
      } else {
        assert res + "" == res;
      }
    }
    assert items[..|items|] == items;
  }

  /**
   * The script over the folder listing `files`: the heading line, then the
   * entries of every `.csv` file.
   */
  method Generate(files: seq<string>, firstLine: string -> string) returns (out: string)
    ensures out == Heading + Text(Entries(files, firstLine, Excluded))
  {
    var excluded := Excluded;
    out := Heading;
    for i := 0 to |files|
      invariant out == Heading + Text(Entries(files[..i], firstLine, excluded))
    {
      var fName := files[i];
      GenerateStep(Heading, files, firstLine, excluded, i);
      if IsCsvName(fName) {
        var items := HeaderItems(firstLine(fName));
        out := WriteItems(out, fName, items, excluded);
      } else {
        assert Text(CsvEntries(fName, firstLine, excluded)) == "";
        assert out + "" == out;
      }
    }
    assert files[..|files|] == files;
  }
}
