/** The Markdown step summary: escaping, property tables, the changed-files sections
    and the Gerrit section. Sections are built as lists of lines and joined with
    newlines. */
module Markdown {
  import opened Wrappers
  import opened Text
  import opened Models

  // ---- escaping ---------------------------------------------------------------------------

  /** The characters that would end an inline code span or a table cell. */
  predicate IsSpecial(c: char) {
    c == '`' || c == '|'
  }

  /** `s.replace(c, by)` for a one-character pattern. */
  function ReplaceChar(s: string, c: char, rep: string): (r: string)
    ensures c !in rep ==> c !in r
  {
    if |s| == 0 then "" else (if s[0] == c then rep else [s[0]]) + ReplaceChar(s[1..], c, rep)
  }

  lemma {:induction false} ReplaceCharAppend(a: string, b: string, c: char, rep: string)
    ensures ReplaceChar(a + b, c, rep) == ReplaceChar(a, c, rep) + ReplaceChar(b, c, rep)
  {
    if |a| > 0 {
      assert (a + b)[1..] == a[1..] + b;
      ReplaceCharAppend(a[1..], b, c, rep);
    } else {
      assert a + b == b;
    }
  }

  /** One character, escaped. */
  function EscapeChar(c: char): (r: string) {
    if IsSpecial(c) then ['\\', c] else [c]
  }

  /** Escaping character by character. */
  function EscapeEach(s: string): (r: string) {
    if |s| == 0 then "" else EscapeChar(s[0]) + EscapeEach(s[1..])
  }

  /** Every backtick and pipe has a backslash just before it. */
  predicate NoBareSpecials(r: string) {
    forall i :: 0 <= i < |r| && IsSpecial(r[i]) ==> i > 0 && r[i - 1] == '\\'
  }

  /** Drops the backslash in front of each escaped backtick or pipe. */
  function Unescape(r: string): string
    decreases |r|
  {
    if |r| == 0 then ""
    else if |r| >= 2 && r[0] == '\\' && IsSpecial(r[1]) then [r[1]] + Unescape(r[2..])
    else [r[0]] + Unescape(r[1..])
  }

  /** The two chained replacements act as one per-character escape: the first adds
      backslashes, which the second leaves alone. */
  lemma {:induction false} EscapeIsPerChar(s: string)
    ensures ReplaceChar(ReplaceChar(s, '`', "\\`"), '|', "\\|") == EscapeEach(s)
  {
    if |s| > 0 {
      var head := if s[0] == '`' then "\\`" else [s[0]];
      var rest := ReplaceChar(s[1..], '`', "\\`");
      ReplaceCharAppend(head, rest, '|', "\\|");
      assert ReplaceChar(head, '|', "\\|") == EscapeChar(s[0]) by {
        if s[0] == '`' {
          assert ReplaceChar(head, '|', "\\|") == ['\\'] + ReplaceChar(head[1..], '|', "\\|");
        }
      }
      EscapeIsPerChar(s[1..]);
    }
  }

  lemma {:induction false} EscapeEachGuarded(s: string)
    ensures NoBareSpecials(EscapeEach(s))
  {
    if |s| > 0 {
      EscapeEachGuarded(s[1..]);
      var e := EscapeChar(s[0]);
      var rest := EscapeEach(s[1..]);
      var r := e + rest;
      forall i | 0 <= i < |r| && IsSpecial(r[i]) ensures i > 0 && r[i - 1] == '\\' {
        if i >= |e| {
          assert r[i] == rest[i - |e|];
        }
      }
    }
  }

  lemma {:induction false} EscapeEachRoundTrip(s: string)
    ensures Unescape(EscapeEach(s)) == s
  {
    if |s| > 0 {
      var rest := EscapeEach(s[1..]);
      EscapeEachRoundTrip(s[1..]);
      EscapeEachGuarded(s[1..]);
      var r := EscapeChar(s[0]) + rest;
      if IsSpecial(s[0]) {
        assert r[2..] == rest;
      } else {
        assert r[1..] == rest;
        assert |rest| > 0 ==> !IsSpecial(rest[0]);
      }
    }
  }

  /** `_escape_markdown`: each backtick becomes `` \` `` and each pipe `\|`. Every
      backtick and pipe in the result has a backslash just before it, and the text comes
      back by dropping those backslashes. */
  function EscapeMarkdown(s: string): (r: string)
    ensures NoBareSpecials(r)
    ensures Unescape(r) == s
    ensures (forall i :: 0 <= i < |s| ==> !IsSpecial(s[i])) ==> r == s
  {
    EscapeIsPerChar(s);
    EscapeEachGuarded(s);
    EscapeEachRoundTrip(s);
    EscapePlain(s);
    ReplaceChar(ReplaceChar(s, '`', "\\`"), '|', "\\|")
  }

  lemma {:induction false} EscapePlain(s: string)
    ensures (forall i :: 0 <= i < |s| ==> !IsSpecial(s[i])) ==> EscapeEach(s) == s
  {
    if |s| > 0 {
      EscapePlain(s[1..]);
      assert s == [s[0]] + s[1..];
    }
  }

  // ---- tables -----------------------------------------------------------------------------

  /** The entries of an ordered dictionary whose value is non-empty, in order. */
  function Populated(data: seq<(string, string)>): (r: seq<(string, string)>)
    ensures forall p :: p in r <==> p in data && p.1 != ""
    ensures forall i :: 0 <= i < |r| ==> r[i].1 != ""
    ensures |r| <= |data|
  {
    if |data| == 0 then []
    else
      var rest := Populated(data[1..]);
      assert forall p :: p in data <==> p == data[0] || p in data[1..];
      if data[0].1 != "" then [data[0]] + rest else rest
  }

  /** The kept entries keep their order: filtering a concatenation is concatenating the
      filtered parts. */
  lemma {:induction false} PopulatedConcat(a: seq<(string, string)>, b: seq<(string, string)>)
    ensures Populated(a + b) == Populated(a) + Populated(b)
  {
    if |a| > 0 {
      assert (a + b)[0] == a[0];
      assert (a + b)[1..] == a[1..] + b;
      PopulatedConcat(a[1..], b);
    } else {
      assert a + b == b;
    }
  }

  /** One entry is kept exactly when its value is non-empty. */
  lemma PopulatedOne(p: (string, string))
    ensures Populated([p]) == if p.1 != "" then [p] else []
  {
    assert [p][1..] == [];
  }

  const TableHeader := "| Property | Value |"
  const TableRule := "| -------- | ----- |"

  function RowPrefix(key: string): string {
    "| " + key + " | `"
  }

  const RowSuffix := "` |"

  /** One table row, the value escaped inside a code span. */
  function Row(key: string, value: string): (r: string)
    ensures |r| > 0 && r[0] == '|'
  {
    RowPrefix(key) + EscapeMarkdown(value) + RowSuffix
  }

  /** The cell of a row holds no bare backtick or pipe, and unescapes to the value. */
  lemma RowCellRoundTrip(key: string, value: string)
    ensures var r := Row(key, value);
            && StartsWith(r, RowPrefix(key))
            && |r| >= |RowPrefix(key)| + |RowSuffix| && r[|r| - |RowSuffix|..] == RowSuffix
            && var cell := r[|RowPrefix(key)|..|r| - |RowSuffix|];
               NoBareSpecials(cell) && Unescape(cell) == value
  {
    var cell := EscapeMarkdown(value);
    var r := Row(key, value);
    assert r[..|RowPrefix(key)|] == RowPrefix(key);
    assert r[|RowPrefix(key)|..|r| - |RowSuffix|] == cell;
    assert r[|r| - |RowSuffix|..] == RowSuffix;
  }

  /** The header, one row per entry in order, and a closing blank line. */
  function TableBody(rows: seq<(string, string)>): (r: seq<string>)
    ensures |r| == |rows| + 3 && r[..2] == [TableHeader, TableRule] && r[|r| - 1] == ""
    ensures forall i :: 0 <= i < |rows| ==> r[2 + i] == Row(rows[i].0, rows[i].1)
  {
    [TableHeader, TableRule] + RowLines(rows) + [""]
  }

  /** `_format_table`: nothing when every value is empty; otherwise the title, a blank
      line, and the table of the non-empty entries in order. */
  function FormatTable(title: string, data: seq<(string, string)>): (r: seq<string>)
    ensures r == [] <==> forall p :: p in data ==> p.1 == ""
    ensures r != [] ==> r == ["### " + title, ""] + TableBody(Populated(data))
  {
    var rows := Populated(data);
    if |rows| == 0 then []
    else
      assert rows[0] in rows;
      ["### " + title, ""] + TableBody(rows)
  }

  function RowLines(rows: seq<(string, string)>): (r: seq<string>)
    ensures |r| == |rows|
    ensures forall i :: 0 <= i < |rows| ==> r[i] == Row(rows[i].0, rows[i].1)
  {
    if |rows| == 0 then [] else [Row(rows[0].0, rows[0].1)] + RowLines(rows[1..])
  }

  /** Every entry with a non-empty value has its row in the table body. */
  lemma TableShowsPopulated(title: string, data: seq<(string, string)>, key: string, value: string)
    requires (key, value) in data && value != ""
    ensures var r := FormatTable(title, data);
            exists i :: 4 <= i < |r| - 1 && r[i] == Row(key, value)
  {
    var rows := Populated(data);
    assert (key, value) in rows;
    var j :| 0 <= j < |rows| && rows[j] == (key, value);
    assert FormatTable(title, data) == ["### " + title, ""] + TableBody(rows);
    RowAt(title, rows, j);
    assert 4 <= 4 + j < |FormatTable(title, data)| - 1;
  }

  /** Entry `j` of the rows is line `4 + j` of the titled table. */
  lemma RowAt(title: string, rows: seq<(string, string)>, j: nat)
    requires j < |rows|
    ensures var r := ["### " + title, ""] + TableBody(rows);
            4 + j < |r| - 1 && r[4 + j] == Row(rows[j].0, rows[j].1)
  {
    var head := ["### " + title, ""];
    var body := TableBody(rows);
    assert |body| == |rows| + 3 && body[2 + j] == Row(rows[j].0, rows[j].1);
    IndexAfter(head, body, 2 + j);
  }

  lemma IndexAfter<T>(p: seq<T>, s: seq<T>, k: nat)
    requires k < |s|
    ensures |p| + k < |p + s| && (p + s)[|p| + k] == s[k]
  {
  }

  // ---- changed files ----------------------------------------------------------------------

  const MaxFilesToShow: nat := 50

  function Min(a: int, b: int): int {
    if a <= b then a else b
  }

  /** One listed file. */
  function FileItem(file: string): (r: string)
    ensures StartsWith(r, "- `")
  {
    "- `" + EscapeMarkdown(file) + "`"
  }

  function FileItems(files: seq<string>): (r: seq<string>)
    ensures |r| == |files|
    ensures forall i :: 0 <= i < |files| ==> r[i] == FileItem(files[i])
  {
    if |files| == 0 then [] else [FileItem(files[0])] + FileItems(files[1..])
  }

  /** The line that stands for the files not shown. */
  function MoreLine(hidden: int): string {
    "- ... and " + IntToString(hidden) + " more"
  }

  /** A category's list: nothing for an empty list; otherwise a heading, at most the
      first fifty files escaped, and a line counting the rest. */
  function FileList(title: string, files: seq<string>): (r: seq<string>)
    ensures |files| == 0 <==> r == []
    ensures |files| > 0 ==>
              && |r| == 3 + Min(|files|, MaxFilesToShow) + (if |files| > MaxFilesToShow then 1 else 0)
              && r[..2] == ["### " + title, ""] && r[|r| - 1] == ""
    ensures |files| > 0 ==> forall i :: 0 <= i < Min(|files|, MaxFilesToShow) ==> r[2 + i] == FileItem(files[i])
    ensures |files| > MaxFilesToShow ==> r[|r| - 2] == MoreLine(|files| - MaxFilesToShow)
  {
    if |files| == 0 then []
    else
      var shown := Take(files, MaxFilesToShow);
      ["### " + title, ""] + FileItems(shown)
      + (if |files| > MaxFilesToShow then [MoreLine(|files| - MaxFilesToShow)] else [])
      + [""]
  }

  /** The lines that list a file. */
  function ItemCount(lines: seq<string>): (n: nat)
    ensures n <= |lines|
  {
    if |lines| == 0 then 0 else (if StartsWith(lines[0], "- `") then 1 else 0) + ItemCount(lines[1..])
  }

  lemma {:induction false} ItemCountAppend(a: seq<string>, b: seq<string>)
    ensures ItemCount(a + b) == ItemCount(a) + ItemCount(b)
  {
    if |a| > 0 {
      assert (a + b)[1..] == a[1..] + b;
      ItemCountAppend(a[1..], b);
    } else {
      assert a + b == b;
    }
  }

  lemma {:induction false} ItemCountOfItems(files: seq<string>)
    ensures ItemCount(FileItems(files)) == |files|
  {
    if |files| > 0 {
      ItemCountOfItems(files[1..]);
      assert FileItems(files)[1..] == FileItems(files[1..]);
    }
  }

  /** A category never lists more than fifty files: the rest are only counted. */
  lemma FileListItems(title: string, files: seq<string>)
    ensures ItemCount(FileList(title, files)) == Min(|files|, MaxFilesToShow)
  {
    if |files| > 0 {
      var shown := Take(files, MaxFilesToShow);
      var more := if |files| > MaxFilesToShow then [MoreLine(|files| - MaxFilesToShow)] else [];
      var head := ["### " + title, ""];
      ItemCountAppend(head, FileItems(shown));
      ItemCountAppend(head + FileItems(shown), more);
      ItemCountAppend(head + FileItems(shown) + more, [""]);
      ItemCountOfItems(shown);
      assert ItemCount(head) == 0 by {
        assert !StartsWith(head[0], "- `") by { assert head[0][0] == '#'; }
        assert head[1..] == [""];
      }
      if |files| > MaxFilesToShow {
        var m := MoreLine(|files| - MaxFilesToShow);
        assert m[2] == '.';
        assert ItemCount(more) == 0 by { assert more[1..] == []; }
      }
      assert ItemCount([""]) == 0 by { assert [""][1..] == []; }
    }
  }

  const AddedRow := "| \U{2705} Added | "
  const ModifiedRow := "| \U{270F}\U{FE0F} Modified | "
  const RemovedRow := "| \U{274C} Removed | "

  /** The category counts table: only when some count is positive, with a row for each
      positive count. */
  function CountTable(m: ChangedFilesMetadata): (r: seq<string>)
    ensures r == [] <==> m.addedCount <= 0 && m.modifiedCount <= 0 && m.removedCount <= 0
    ensures r != [] ==>
              |r| == 3 + (if m.addedCount > 0 then 1 else 0) + (if m.modifiedCount > 0 then 1 else 0)
                       + (if m.removedCount > 0 then 1 else 0)
  {
    if m.addedCount > 0 || m.modifiedCount > 0 || m.removedCount > 0 then
      ["| Category | Count |", "| -------- | ----- |"]
      + (if m.addedCount > 0 then [AddedRow + IntToString(m.addedCount) + " |"] else [])
      + (if m.modifiedCount > 0 then [ModifiedRow + IntToString(m.modifiedCount) + " |"] else [])
      + (if m.removedCount > 0 then [RemovedRow + IntToString(m.removedCount) + " |"] else [])
      + [""]
    else []
  }

  /** Each category's row, carrying its count, is in the table exactly when that count
      is positive. */
  lemma CountTableRows(m: ChangedFilesMetadata)
    ensures (AddedRow + IntToString(m.addedCount) + " |") in CountTable(m) <==> m.addedCount > 0
    ensures (ModifiedRow + IntToString(m.modifiedCount) + " |") in CountTable(m) <==> m.modifiedCount > 0
    ensures (RemovedRow + IntToString(m.removedCount) + " |") in CountTable(m) <==> m.removedCount > 0
  {
    if m.addedCount > 0 || m.modifiedCount > 0 || m.removedCount > 0 {
      var a := AddedRow + IntToString(m.addedCount) + " |";
      var b := ModifiedRow + IntToString(m.modifiedCount) + " |";
      var c := RemovedRow + IntToString(m.removedCount) + " |";
      RowMark(AddedRow, IntToString(m.addedCount));
      RowMark(ModifiedRow, IntToString(m.modifiedCount));
      RowMark(RemovedRow, IntToString(m.removedCount));
      assert AddedRow[2] == '\U{2705}' && ModifiedRow[2] == '\U{270F}' && RemovedRow[2] == '\U{274C}';
      MarkedRowsIff("| Category | Count |", "| -------- | ----- |", a, b, c,
                    m.addedCount > 0, m.modifiedCount > 0, m.removedCount > 0);
    }
  }

  /** The third character of a row is that of its label. */
  lemma RowMark(name: string, count: string)
    requires |name| > 2
    ensures |name + count + " |"| > 2 && (name + count + " |")[2] == name[2]
  {
  }

  /** In a table whose lines are told apart by their third character, an optional row is
      present exactly when it was put in. */
  lemma MarkedRowsIff(h1: string, h2: string, a: string, b: string, c: string, pa: bool, pb: bool, pc: bool)
    requires |h1| > 2 && |h2| > 2 && |a| > 2 && |b| > 2 && |c| > 2
    requires a[2] !in {h1[2], h2[2], b[2], c[2]} && b[2] !in {h1[2], h2[2], c[2]} && c[2] !in {h1[2], h2[2]}
    ensures var r := [h1, h2] + (if pa then [a] else []) + (if pb then [b] else []) + (if pc then [c] else []) + [""];
            && (a in r <==> pa) && (b in r <==> pb) && (c in r <==> pc)
  {
  }

  const AddedTitle := "\U{2705} Added Files"
  const ModifiedTitle := "\U{270F}\U{FE0F} Modified Files"
  const RemovedTitle := "\U{274C} Removed Files"

  /** The three category lists in order. */
  function FileLists(m: ChangedFilesMetadata): seq<string> {
    FileList(AddedTitle, m.added) + FileList(ModifiedTitle, m.modified) + FileList(RemovedTitle, m.removed)
  }

  /** The shared shape of both changed-files sections. */
  function FilesSection(heading: string, warning: string, m: ChangedFilesMetadata): (r: seq<string>)
    ensures m.count == 0 ==> r == [heading, "", warning, ""]
    ensures m.count != 0 ==>
              r == [heading, "", "**Total Changed Files:** " + IntToString(m.count), ""]
                   + CountTable(m) + FileLists(m)
  {
    if m.count == 0 then [heading, "", warning, ""]
    else
      [heading, "", "**Total Changed Files:** " + IntToString(m.count), ""]
      + CountTable(m) + FileLists(m)
  }

  const FilesHeading := "## \U{1F4C1} Changed Files"
  /** The warning sign that opens each warning line. */
  const WarningSign := "\U{26A0}\U{FE0F}"
  const NoFilesWarning := WarningSign + " No changed files detected"
  const LastCommitHeading := "## \U{1F4C1} Changed Files (Last Commit)"
  const NoLastCommitFilesWarning := WarningSign + " No changed files detected in last commit"

  /** No metadata and a zero count both give the warning alone. */
  function FilesSectionOf(heading: string, warning: string, m: Option<ChangedFilesMetadata>): (r: seq<string>)
    ensures m.None? || m.value.count == 0 ==> r == [heading, "", warning, ""]
    ensures m.Some? ==> r == FilesSection(heading, warning, m.value)
  {
    if m.None? then [heading, "", warning, ""] else FilesSection(heading, warning, m.value)
  }

  /** `_format_files_section`. */
  function FormatFilesSection(m: Option<ChangedFilesMetadata>): (r: string)
    ensures m.None? || m.value.count == 0 ==> r == Join("\n", [FilesHeading, "", NoFilesWarning, ""])
    ensures m.Some? && m.value.count != 0 ==> r == Join("\n", FilesSection(FilesHeading, NoFilesWarning, m.value))
  {
    Join("\n", FilesSectionOf(FilesHeading, NoFilesWarning, m))
  }

  /** `_format_last_commit_files_section`: the same layout under its own heading and
      warning. */
  function FormatLastCommitFilesSection(m: Option<ChangedFilesMetadata>): (r: string)
    ensures m.None? || m.value.count == 0 ==> r == Join("\n", [LastCommitHeading, "", NoLastCommitFilesWarning, ""])
    ensures m.Some? && m.value.count != 0 ==>
              r == Join("\n", FilesSection(LastCommitHeading, NoLastCommitFilesWarning, m.value))
  {
    Join("\n", FilesSectionOf(LastCommitHeading, NoLastCommitFilesWarning, m))
  }

  /** However many files changed, a section lists at most fifty per category, one line
      for each of the first fifty. */
  lemma SectionItems(heading: string, warning: string, m: ChangedFilesMetadata)
    requires !StartsWith(heading, "- `") && !StartsWith(warning, "- `")
    ensures ItemCount(FilesSection(heading, warning, m)) ==
              if m.count == 0 then 0
              else Min(|m.added|, MaxFilesToShow) + Min(|m.modified|, MaxFilesToShow) + Min(|m.removed|, MaxFilesToShow)
  {
    var r := FilesSection(heading, warning, m);
    NotItem("");
    if m.count == 0 {
      NoItemsInFour(heading, "", warning, "");
    } else {
      var total := "**Total Changed Files:** " + IntToString(m.count);
      var head := [heading, "", total, ""];
      ItemCountAppend(head, CountTable(m));
      ItemCountAppend(head + CountTable(m), FileLists(m));
      ListsItems(m);
      NotItem(total);
      NoItemsInFour(heading, "", total, "");
      CountTableHasNoItems(m);
    }
  }

  lemma NoItemsInFour(a: string, b: string, c: string, d: string)
    requires !StartsWith(a, "- `") && !StartsWith(b, "- `") && !StartsWith(c, "- `") && !StartsWith(d, "- `")
    ensures ItemCount([a, b, c, d]) == 0
  {
    NoItemsWhenNoneStart([a, b, c, d]);
  }

  lemma ListsItems(m: ChangedFilesMetadata)
    ensures ItemCount(FileLists(m))
            == Min(|m.added|, MaxFilesToShow) + Min(|m.modified|, MaxFilesToShow) + Min(|m.removed|, MaxFilesToShow)
  {
    var a := FileList(AddedTitle, m.added);
    var b := FileList(ModifiedTitle, m.modified);
    var c := FileList(RemovedTitle, m.removed);
    ItemCountAppend(a, b);
    ItemCountAppend(a + b, c);
    FileListItems(AddedTitle, m.added);
    FileListItems(ModifiedTitle, m.modified);
    FileListItems(RemovedTitle, m.removed);
  }

  /** A line whose first character is not a dash is not a list item. */
  lemma NotItem(line: string)
    requires |line| == 0 || line[0] != '-'
    ensures !StartsWith(line, "- `")
  {
    if |line| >= 3 {
      assert line[..3][0] == line[0];
    }
  }

  lemma CountTableHasNoItems(m: ChangedFilesMetadata)
    ensures ItemCount(CountTable(m)) == 0
  {
    var r := CountTable(m);
    forall i | 0 <= i < |r| ensures !StartsWith(r[i], "- `") {
      NotItem(r[i]);
    }
    NoItemsWhenNoneStart(r);
  }

  lemma {:induction false} NoItemsWhenNoneStart(lines: seq<string>)
    requires forall i :: 0 <= i < |lines| ==> !StartsWith(lines[i], "- `")
    ensures ItemCount(lines) == 0
  {
    if |lines| > 0 {
      NoItemsWhenNoneStart(lines[1..]);
    }
  }

  // ---- Gerrit -----------------------------------------------------------------------------

  const CommentLimit: nat := 200

  /** The comment as shown: cut to two hundred characters and marked when longer. */
  function ShownComment(c: string): (r: string)
    ensures |c| <= CommentLimit ==> r == c
    ensures |c| > CommentLimit ==> |r| == CommentLimit + 3 && r[..CommentLimit] == c[..CommentLimit]
                                   && r[CommentLimit..] == "..."
  {
    if |c| > CommentLimit then c[..CommentLimit] + "..." else c
  }

  /** The rows the section offers, before empty ones are dropped: the nine change
      fields, and the comment only when requested and non-empty. */
  function GerritFields(g: GerritMetadata, includeComment: bool): (r: seq<(string, string)>)
    ensures |r| == if includeComment && g.comment != "" then 10 else 9
    ensures forall i :: 0 <= i < 9 ==> r[i].0 != "comment"
    ensures |r| == 10 ==> r[9] == ("comment", ShownComment(g.comment))
  {
    [("branch", g.branch), ("change_id", g.changeId), ("change_number", g.changeNumber),
     ("change_url", g.changeUrl), ("event_type", g.eventType), ("patchset_number", g.patchsetNumber),
     ("patchset_revision", g.patchsetRevision), ("project", g.project), ("refspec", g.refspec)]
    + (if includeComment && g.comment != "" then [("comment", ShownComment(g.comment))] else [])
  }

  const GerritHeading := "## \U{2139}\U{FE0F} Gerrit Parameters"
  const NoGerritWarning := WarningSign + " No Gerrit metadata found in workflow/execution environment"

  /** The lines of `_format_gerrit_section` for the given populated rows and source. */
  function GerritLayout(rows: seq<(string, string)>, source: string): (r: seq<string>)
    ensures |r| >= 2 && r[..2] == [GerritHeading, ""]
    ensures |rows| == 0 && source == "none" ==> r == [GerritHeading, "", NoGerritWarning, ""]
  {
    if |rows| == 0 && source == "none" then [GerritHeading, "", NoGerritWarning, ""]
    else [GerritHeading, ""] + SourceLines(source) + (if |rows| > 0 then TableBody(rows) else [])
  }

  function SourceLines(source: string): (r: seq<string>)
    ensures r == [] <==> source == "" || source == "none"
  {
    if source != "" && source != "none" then ["Source: " + source, ""] else []
  }

  /** The heading; then either the warning alone, or the source line when a source is
      named followed by the table of the populated rows. */
  function GerritLines(g: GerritMetadata, includeComment: bool): (r: seq<string>)
    ensures |r| >= 2 && r[..2] == [GerritHeading, ""]
    ensures Populated(GerritFields(g, includeComment)) == [] && g.source == "none" ==>
              r == [GerritHeading, "", NoGerritWarning, ""]
  {
    GerritLayout(Populated(GerritFields(g, includeComment)), g.source)
  }

  /** Every table line is blank or starts a row with a pipe. */
  lemma TableBodyLines(rows: seq<(string, string)>)
    ensures forall line :: line in TableBody(rows) ==> line == "" || line[0] == '|'
  {
    var t := TableBody(rows);
    forall i | 0 <= i < |t| ensures t[i] == "" || t[i][0] == '|' {
      if 2 <= i < |t| - 1 {
        assert t[i] == Row(rows[i - 2].0, rows[i - 2].1);
      }
    }
  }

  /** The first characters that tell the warning apart from every other line. */
  lemma WarningShape()
    ensures |NoGerritWarning| > 0 && NoGerritWarning[0] == '\U{26A0}'
    ensures |GerritHeading| > 0 && GerritHeading[0] == '#'
  {
  }

  /** The warning is shown exactly when nothing is populated and the source is none. */
  lemma {:induction false} LayoutWarningIff(rows: seq<(string, string)>, source: string)
    ensures NoGerritWarning in GerritLayout(rows, source) <==> |rows| == 0 && source == "none"
  {
    if !(|rows| == 0 && source == "none") {
      WarningShape();
      var src := SourceLines(source);
      var table := if |rows| > 0 then TableBody(rows) else [];
      TableBodyLines(rows);
      NotAmongPipeLines(NoGerritWarning, table);
      assert NoGerritWarning !in src by {
        if src != [] {
          assert src[0][0] == 'S';
        }
      }
      assert GerritLayout(rows, source) == [GerritHeading, ""] + src + table;
    }
  }

  /** A non-empty line that does not start with a pipe is none of those lines. */
  lemma NotAmongPipeLines(w: string, lines: seq<string>)
    requires |w| > 0 && w[0] != '|'
    requires forall line :: line in lines ==> line == "" || line[0] == '|'
    ensures w !in lines
  {
  }

  /** Each populated field has its row in the section, and the row's cell gives the
      value back. */
  lemma PopulatedFieldShown(g: GerritMetadata, includeComment: bool, key: string, value: string)
    requires (key, value) in GerritFields(g, includeComment) && value != ""
    ensures Row(key, value) in GerritLines(g, includeComment)
  {
    var rows := Populated(GerritFields(g, includeComment));
    assert (key, value) in rows;
    var j :| 0 <= j < |rows| && rows[j] == (key, value);
    var t := TableBody(rows);
    assert t[2 + j] == Row(key, value);
    assert GerritLayout(rows, g.source) == [GerritHeading, ""] + SourceLines(g.source) + t;
  }

  /** The warning is shown exactly when no field is populated and no source was
      recorded. */
  lemma WarningIffNothingFound(g: GerritMetadata, includeComment: bool)
    ensures NoGerritWarning in GerritLines(g, includeComment) <==>
              Populated(GerritFields(g, includeComment)) == [] && g.source == "none"
  {
    LayoutWarningIff(Populated(GerritFields(g, includeComment)), g.source);
  }

  /** `_format_gerrit_section`. */
  function FormatGerritSection(g: GerritMetadata, includeComment: bool): (r: string)
    ensures Populated(GerritFields(g, includeComment)) == [] && g.source == "none" ==>
              r == Join("\n", [GerritHeading, "", NoGerritWarning, ""])
  {
    Join("\n", GerritLines(g, includeComment))
  }

  /** The comment is offered only when requested, and then as at most 203 characters
      that begin the comment. */
  lemma CommentOnlyWhenRequested(g: GerritMetadata, includeComment: bool)
    ensures forall p :: p in Populated(GerritFields(g, includeComment)) && p.0 == "comment" ==>
              includeComment && |p.1| <= CommentLimit + 3 && p.1[..Min(|p.1|, CommentLimit)] == g.comment[..Min(|p.1|, CommentLimit)]
  {
    var f := GerritFields(g, includeComment);
    forall p | p in Populated(f) && p.0 == "comment"
      ensures includeComment && |p.1| <= CommentLimit + 3
              && p.1[..Min(|p.1|, CommentLimit)] == g.comment[..Min(|p.1|, CommentLimit)]
    {
      var i :| 0 <= i < |f| && f[i] == p;
      assert i == 9;
    }
  }
}
