/** `$gdata.parseSpreadsheet`: a Google Sheets list feed becomes one row
    object per entry. Each entry's content text has the shape
    "k: v, k: v, ..."; a row starts as { title } and then receives one key
    per comma-separated column. */
module GData {
  import opened Js

  /** A row object: each key is bound to a string or to `undefined` (None). */
  type Row = map<string, Option<string>>

  /** The parts of a feed entry that the parser reads:
      `entry.title.type`, `entry.title.$t` and `entry.content.$t`. */
  datatype Entry = Entry(titleType: string, titleText: string, content: string)

  /** `json.feed`; `entry` may be missing. */
  datatype Feed = Feed(entry: Option<seq<Entry>>)

  /** `json.feed.entry || []` */
  function Entries(feed: Feed): seq<Entry> {
    if feed.entry.Some? then feed.entry.value else []
  }

  /** The row's initial title: the raw text for an "html" title, otherwise
      the text passed through `encodeURIComponent`. */
  function Title(entry: Entry, encode: string -> string): string {
    if entry.titleType == "html" then entry.titleText else encode(entry.titleText)
  }

  /** `entry.content.$t.split(", ")` */
  function Columns(entry: Entry): seq<string> {
    Split(entry.content, ", ")
  }

  /** `kv = column.split(": ")`, giving the assignment `row[kv[0]] = kv[1]`. */
  function ColumnPair(column: string): (string, Option<string>) {
    var kv := Split(column, ": ");
    (kv[0], if |kv| > 1 then Some(kv[1]) else None)
  }

  /** The assignments made to a fresh row, in order: the title first, then
      one per column. */
  function RowAssignments(entry: Entry, encode: string -> string): (r: seq<(string, Option<string>)>)
    ensures |r| == |Columns(entry)| + 1
    ensures r[0] == ("title", Some(Title(entry, encode)))
    ensures forall i :: 0 < i < |r| ==> r[i] == ColumnPair(Columns(entry)[i - 1])
  {
    var columns := Columns(entry);
    [("title", Some(Title(entry, encode)))] + seq(|columns|, i requires 0 <= i < |columns| => ColumnPair(columns[i]))
  }

  /** The row an entry becomes. */
  function RowOf(entry: Entry, encode: string -> string): Row {
    Assign(RowAssignments(entry, encode))
  }

  /** The inner `forEach` of `parseSpreadsheet`: builds one row by assigning
      its keys one at a time. */
  method BuildRow(entry: Entry, encode: string -> string) returns (row: Row)
    ensures row == RowOf(entry, encode)
  {
    ghost var assignments := RowAssignments(entry, encode);
    row := map["title" := Some(Title(entry, encode))];
    assert assignments[..1] == [("title", Some(Title(entry, encode)))];
    assert row == Assign(assignments[..1]) by {
      AssignSnoc([], "title", Some(Title(entry, encode)));
    }
    var content := Split(entry.content, ", ");
    for i := 0 to |content|
      invariant row == Assign(assignments[..i + 1])
    {
      var kv := Split(content[i], ": ");
      var value := if |kv| > 1 then Some(kv[1]) else None;
      AssignSnoc(assignments[..i + 1], kv[0], value);
      assert assignments[..i + 2] == assignments[..i + 1] + [(kv[0], value)];
      row := row[kv[0] := value];
    }
    assert assignments[..|content| + 1] == assignments;
  }

  /** The rows of a list of entries: `_.map(entries, entry => ...)`. */
  function RowsOf(entries: seq<Entry>, encode: string -> string): (rows: seq<Row>)
    ensures |rows| == |entries|
    ensures forall i :: 0 <= i < |rows| ==> rows[i] == RowOf(entries[i], encode)
  {
    if |entries| == 0 then [] else RowsOf(entries[..|entries| - 1], encode) + [RowOf(entries[|entries| - 1], encode)]
  }

  lemma RowsOfSnoc(entries: seq<Entry>, i: nat, encode: string -> string)
    requires i < |entries|
    ensures RowsOf(entries[..i + 1], encode) == RowsOf(entries[..i], encode) + [RowOf(entries[i], encode)]
  {
    assert entries[..i + 1][..i] == entries[..i];
  }

  /** `$gdata.parseSpreadsheet(json)`: one row per entry, in entry order. */
  method ParseSpreadsheet(feed: Feed, encode: string -> string) returns (rows: seq<Row>)
    ensures rows == RowsOf(Entries(feed), encode)
    ensures |rows| == |Entries(feed)|
    ensures forall i :: 0 <= i < |rows| ==> rows[i] == RowOf(Entries(feed)[i], encode)
  {
    var entries := Entries(feed);
    rows := [];
    for i := 0 to |entries|
      invariant rows == RowsOf(entries[..i], encode)
    {
      var row := BuildRow(entries[i], encode);
      RowsOfSnoc(entries, i, encode);
      rows := rows + [row];
    }
    assert entries[..|entries|] == entries;
  }

  // ---------------------------------------------------------------------
  // What a row holds

  /** A feed without entries yields no rows. */
  lemma NoEntryNoRows(feed: Feed)
    requires feed.entry.None?
    ensures Entries(feed) == []
  {
  }

  /** A row's keys are "title" and the key of every column. */
  lemma RowKeys(entry: Entry, encode: string -> string, k: string)
    ensures k in RowOf(entry, encode) <==>
              k == "title" || exists i :: 0 <= i < |Columns(entry)| && ColumnPair(Columns(entry)[i]).0 == k
  {
    var a := RowAssignments(entry, encode);
    var columns := Columns(entry);
    AssignHas(a, k);
    if exists i :: 0 < i < |a| && a[i].0 == k {
      var i :| 0 < i < |a| && a[i].0 == k;
      assert ColumnPair(columns[i - 1]).0 == k;
    }
    if exists i :: 0 <= i < |columns| && ColumnPair(columns[i]).0 == k {
      var i :| 0 <= i < |columns| && ColumnPair(columns[i]).0 == k;
      assert a[i + 1].0 == k;
    }
  }

  /** The last column with a given key decides that key's value: a later
      column overwrites an earlier one, and a "title" column overwrites the
      entry's title. */
  lemma LastColumnWins(entry: Entry, encode: string -> string, i: nat)
    requires i < |Columns(entry)|
    requires forall j :: i < j < |Columns(entry)| ==> ColumnPair(Columns(entry)[j]).0 != ColumnPair(Columns(entry)[i]).0
    ensures ColumnPair(Columns(entry)[i]).0 in RowOf(entry, encode)
    ensures RowOf(entry, encode)[ColumnPair(Columns(entry)[i]).0] == ColumnPair(Columns(entry)[i]).1
  {
    var a := RowAssignments(entry, encode);
    AssignLastWins(a);
    assert a[i + 1] == ColumnPair(Columns(entry)[i]);
    forall j | i + 1 < j < |a|
      ensures a[j].0 != a[i + 1].0
    {
      assert a[j] == ColumnPair(Columns(entry)[j - 1]);
    }
  }

  /** Without a "title" column, the row's title is the raw text of an html
      title and the URI-encoded text otherwise. */
  lemma RowTitle(entry: Entry, encode: string -> string)
    requires forall j :: 0 <= j < |Columns(entry)| ==> ColumnPair(Columns(entry)[j]).0 != "title"
    ensures "title" in RowOf(entry, encode)
    ensures RowOf(entry, encode)["title"] ==
              Some(if entry.titleType == "html" then entry.titleText else encode(entry.titleText))
  {
    var a := RowAssignments(entry, encode);
    AssignLastWins(a);
    forall j | 0 < j < |a|
      ensures a[j].0 != a[0].0
    {
      assert a[j] == ColumnPair(Columns(entry)[j - 1]);
    }
  }

  /** A column without ": " binds its whole text, as a key, to undefined. */
  lemma ColumnWithoutValue(column: string)
    requires !Contains(column, ": ")
    ensures ColumnPair(column) == (column, None)
  {
    SplitWhole(column, ": ");
  }

  /** "k: v" binds k to v. */
  lemma ColumnWithValue(k: string, v: string)
    requires !Contains(k, ": ") && !Contains(v, ": ")
    ensures ColumnPair(k + ": " + v) == (k, Some(v))
  {
    SeparatorsAreBorderFree();
    SplitPiece(k, ": ", v);
    SplitWhole(v, ": ");
  }

  /** Only the text between the first and the second ": " is kept as the
      value; whatever follows the second ": " is dropped. */
  lemma ColumnDropsRest(k: string, v: string, rest: string)
    requires !Contains(k, ": ") && !Contains(v, ": ")
    ensures ColumnPair(k + ": " + v + ": " + rest) == (k, Some(v))
  {
    SeparatorsAreBorderFree();
    assert k + ": " + v + ": " + rest == k + ": " + (v + ": " + rest);
    SplitPiece(k, ": ", v + ": " + rest);
    SplitPiece(v, ": ", rest);
  }

  /** Content written as columns joined with ", " is read back as exactly
      those columns, provided no column contains ", ". */
  lemma ColumnsOfJoinedContent(titleType: string, titleText: string, columns: seq<string>)
    requires |columns| >= 1
    requires forall i :: 0 <= i < |columns| ==> !Contains(columns[i], ", ")
    ensures Columns(Entry(titleType, titleText, Join(columns, ", "))) == columns
  {
    SeparatorsAreBorderFree();
    SplitJoin(columns, ", ");
  }
}
