/** The credentials file printer and the line splitter that reads it back (the quoting of
  * RFC 4180, section 2, items 5 to 7). */
module Csv {
  // ---- String.prototype.trim ----

  predicate IsSpace(c: char) {
    || '\t' <= c <= '\r' || c == ' ' || c == '\U{00A0}' || c == '\U{1680}' || '\U{2000}' <= c <= '\U{200A}'
    || c == '\U{2028}' || c == '\U{2029}' || c == '\U{202F}' || c == '\U{205F}' || c == '\U{3000}' || c == '\U{FEFF}'
  }

  function TrimStart(s: string): string {
    if s != "" && IsSpace(s[0]) then TrimStart(s[1..]) else s
  }

  function TrimEnd(s: string): string {
    if s != "" && IsSpace(s[|s| - 1]) then TrimEnd(s[..|s| - 1]) else s
  }

  function Trim(s: string): string { TrimEnd(TrimStart(s)) }

  predicate Trimmed(s: string) { s == "" || (!IsSpace(s[0]) && !IsSpace(s[|s| - 1])) }

  lemma {:induction false} TrimEndKeepsStart(s: string)
    requires s != "" && !IsSpace(s[0])
    ensures TrimEnd(s) != "" && TrimEnd(s)[0] == s[0]
    decreases |s|
  {
    if IsSpace(s[|s| - 1]) {
      TrimEndKeepsStart(s[..|s| - 1]);
    }
  }

  lemma {:induction false} TrimStartShape(s: string)
    ensures TrimStart(s) == "" || !IsSpace(TrimStart(s)[0])
    ensures |TrimStart(s)| <= |s|
  {
    if s != "" && IsSpace(s[0]) {
      TrimStartShape(s[1..]);
    }
  }

  lemma {:induction false} TrimEndShape(s: string)
    ensures TrimEnd(s) == "" || !IsSpace(TrimEnd(s)[|TrimEnd(s)| - 1])
    ensures |TrimEnd(s)| <= |s|
    decreases |s|
  {
    if s != "" && IsSpace(s[|s| - 1]) {
      TrimEndShape(s[..|s| - 1]);
    }
  }

  lemma TrimIsTrimmed(s: string)
    ensures Trimmed(Trim(s)) && |Trim(s)| <= |s|
    ensures Trimmed(s) <==> Trim(s) == s
  {
    TrimStartShape(s);
    TrimEndShape(TrimStart(s));
    if TrimStart(s) != "" {
      TrimEndKeepsStart(TrimStart(s));
    }
  }

  lemma {:induction false} TrimEndKeeps(a: string, x: string)
    requires a != "" && !IsSpace(a[|a| - 1])
    ensures |TrimEnd(a + x)| >= |a|
    decreases |x|
  {
    if x == "" {
      assert a + x == a;
    } else if IsSpace(x[|x| - 1]) {
      assert (a + x)[..|a + x| - 1] == a + x[..|x| - 1];
      TrimEndKeeps(a, x[..|x| - 1]);
    }
  }

  predicate AllSpace(s: string) { forall k | 0 <= k < |s| :: IsSpace(s[k]) }

  lemma {:induction false} TrimStartDrops(s: string) returns (n: nat)
    ensures n <= |s| && TrimStart(s) == s[n..] && AllSpace(s[..n])
  {
    if s != "" && IsSpace(s[0]) {
      n := TrimStartDrops(s[1..]);
      assert s[..n + 1] == [s[0]] + s[1..][..n];
      n := n + 1;
    } else {
      n := 0;
    }
  }

  lemma {:induction false} TrimEndDrops(s: string) returns (n: nat)
    ensures n <= |s| && TrimEnd(s) == s[..n] && AllSpace(s[n..])
    decreases |s|
  {
    n := |s|;
    if s != "" && IsSpace(s[|s| - 1]) {
      n := TrimEndDrops(s[..|s| - 1]);
      assert s[n..] == s[..|s| - 1][n..] + [s[|s| - 1]];
    }
  }

  /** Trimming drops white space at both ends, all of it and nothing else. */
  lemma TrimExactly(s: string) returns (before: string, after: string)
    ensures s == before + Trim(s) + after && AllSpace(before) && AllSpace(after) && Trimmed(Trim(s))
  {
    var i := TrimStartDrops(s);
    var j := TrimEndDrops(s[i..]);
    before, after := s[..i], s[i..][j..];
    TrimIsTrimmed(s);
  }

  // ---- Printing ----

  predicate NeedsQuotes(value: string) { '"' in value || ',' in value || '\n' in value }

  /** value.replace(/"/g, '""') */
  function Escape(value: string): string {
    if value == "" then "" else (if value[0] == '"' then "\"\"" else [value[0]]) + Escape(value[1..])
  }

  function Cell(value: string): string {
    if NeedsQuotes(value) then "\"" + (Escape(value) + "\"") else value
  }

  /** row.map(csvCell).join(",") */
  function PrintRow(row: seq<string>): string {
    if row == [] then "" else if |row| == 1 then Cell(row[0]) else Cell(row[0]) + "," + PrintRow(row[1..])
  }

  // ---- Parsing ----

  function Delimiter(line: string): char { if '\t' in line then '\t' else ',' }

  /** The fields still to come, given the field and the quote state so far. */
  function Scan(line: string, delimiter: char, field: string, inside: bool): (fields: seq<string>)
    ensures fields != []
    decreases |line|
  {
    if line == "" then [Trim(field)]
    else if line[0] == '"' then
      if inside && |line| > 1 && line[1] == '"' then Scan(line[2..], delimiter, field + "\"", inside)
      else Scan(line[1..], delimiter, field, !inside)
    else if line[0] == delimiter && !inside then [Trim(field)] + Scan(line[1..], delimiter, "", false)
    else Scan(line[1..], delimiter, field + [line[0]], inside)
  }

  function Parse(line: string): seq<string> { Scan(line, Delimiter(line), "", false) }

  method SplitDelimitedLine(line: string) returns (result: seq<string>)
    ensures result == Parse(line)
  {
    var delimiter := if '\t' in line then '\t' else ',';
    result := [];
    var currentField := "";
    var insideQuotes := false;
    var i := 0;
    while i < |line|
      invariant 0 <= i <= |line|
      invariant result + Scan(line[i..], delimiter, currentField, insideQuotes) == Parse(line)
    {
      var c := line[i];
      ghost var left := line[i..];
      assert left[1..] == line[i + 1..] && (i + 1 < |line| ==> left[2..] == line[i + 2..]);
      if c == '"' {
        if insideQuotes && i + 1 < |line| && line[i + 1] == '"' {
          currentField := currentField + "\"";
          i := i + 1;
        } else {
          insideQuotes := !insideQuotes;
        }
      } else if c == delimiter && !insideQuotes {
        result := result + [Trim(currentField)];
        currentField := "";
      } else {
        currentField := currentField + [c];
      }
      i := i + 1;
    }
    result := result + [Trim(currentField)];
  }

  // ---- Round trip ----

  lemma {:induction false} ScanPlain(f: string, rest: string, delimiter: char, field: string)
    requires '"' !in f && delimiter !in f
    ensures Scan(f + rest, delimiter, field, false) == Scan(rest, delimiter, field + f, false)
    decreases |f|
  {
    if f == "" {
      assert f + rest == rest && field + f == field;
    } else {
      assert (f + rest)[1..] == f[1..] + rest && f[0] in f;
      ScanPlain(f[1..], rest, delimiter, field + [f[0]]);
      assert (field + [f[0]]) + f[1..] == field + f;
    }
  }

  lemma {:induction false} ScanQuoted(f: string, rest: string, delimiter: char, field: string)
    requires rest == "" || rest[0] != '"'
    ensures Scan(Escape(f) + "\"" + rest, delimiter, field, true) == Scan(rest, delimiter, field + f, false)
    decreases |f|
  {
    var line := Escape(f) + "\"" + rest;
    if f == "" {
      assert line[1..] == rest && field + f == field;
    } else {
      assert (field + [f[0]]) + f[1..] == field + f;
      ScanQuoted(f[1..], rest, delimiter, field + [f[0]]);
      var left := Escape(f[1..]) + "\"" + rest;
      if f[0] == '"' {
        assert line == "\"\"" + left && line[2..] == left;
      } else {
        assert line == [f[0]] + left && line[1..] == left;
      }
    }
  }

  lemma OpenQuote(quoted: string, rest: string, delimiter: char)
    requires delimiter != '"'
    ensures Scan("\"" + quoted + rest, delimiter, "", false) == Scan(quoted + rest, delimiter, "", true)
  {
    assert ("\"" + quoted + rest)[1..] == quoted + rest;
  }

  /** A printed cell scans back to its value, whatever delimiter is in force, provided an unquoted
    * cell does not contain it. */
  lemma ScanCell(f: string, rest: string, delimiter: char)
    requires delimiter in {',', '\t'} && (rest == "" || rest[0] != '"')
    requires NeedsQuotes(f) || delimiter !in f
    ensures Scan(Cell(f) + rest, delimiter, "", false) == Scan(rest, delimiter, f, false)
  {
    if NeedsQuotes(f) {
      OpenQuote(Escape(f) + "\"", rest, delimiter);
      ScanQuoted(f, rest, delimiter, "");
      assert "" + f == f;
    } else {
      ScanPlain(f, rest, delimiter, "");
      assert "" + f == f;
    }
  }

  /** A cell up to the comma that ends it. */
  lemma ScanFirstCell(f: string, rest: string)
    requires Trimmed(f)
    ensures Scan(Cell(f) + ("," + rest), ',', "", false) == [f] + Scan(rest, ',', "", false)
  {
    TrimIsTrimmed(f);
    ScanCell(f, "," + rest, ',');
    assert ("," + rest)[1..] == rest;
  }

  lemma {:induction false} CommaRoundTrip(row: seq<string>)
    requires row != [] && forall f | f in row :: Trimmed(f)
    ensures Scan(PrintRow(row), ',', "", false) == row
    decreases |row|
  {
    assert row[0] in row;
    TrimIsTrimmed(row[0]);
    if |row| == 1 {
      ScanCell(row[0], "", ',');
      assert Cell(row[0]) + "" == Cell(row[0]);
    } else {
      assert forall f | f in row[1..] :: f in row;
      CommaRoundTrip(row[1..]);
      PrintSplits(row);
      ScanFirstCell(row[0], PrintRow(row[1..]));
    }
  }

  lemma {:induction false} EscapeKeepsTabs(f: string)
    ensures '\t' in Escape(f) <==> '\t' in f
  {
    if f != "" {
      EscapeKeepsTabs(f[1..]);
      assert f == [f[0]] + f[1..];
    }
  }

  predicate HasTab(row: seq<string>) { exists k | 0 <= k < |row| :: '\t' in row[k] }

  lemma {:induction false} PrintKeepsTabs(row: seq<string>)
    ensures '\t' in PrintRow(row) <==> HasTab(row)
    decreases |row|
  {
    if row != [] {
      EscapeKeepsTabs(row[0]);
      if |row| > 1 {
        PrintKeepsTabs(row[1..]);
        if HasTab(row[1..]) {
          var k :| 0 <= k < |row| - 1 && '\t' in row[1..][k];
          assert '\t' in row[k + 1];
        }
        if HasTab(row) && '\t' !in row[0] {
          var k :| 0 <= k < |row| && '\t' in row[k];
          assert '\t' in row[1..][k - 1];
        }
      }
    }
  }

  // ---- Exactly which rows survive ----

  lemma {:induction false} ScanFieldsTrimmed(line: string, delimiter: char, field: string, inside: bool)
    ensures forall f | f in Scan(line, delimiter, field, inside) :: Trimmed(f)
    decreases |line|
  {
    TrimIsTrimmed(field);
    if line != "" {
      if line[0] == '"' {
        if inside && |line| > 1 && line[1] == '"' {
          ScanFieldsTrimmed(line[2..], delimiter, field + "\"", inside);
        } else {
          ScanFieldsTrimmed(line[1..], delimiter, field, !inside);
        }
      } else if line[0] == delimiter && !inside {
        ScanFieldsTrimmed(line[1..], delimiter, "", false);
      } else {
        ScanFieldsTrimmed(line[1..], delimiter, field + [line[0]], inside);
      }
    }
  }

  /** The field being scanned only grows until it is trimmed and emitted. */
  lemma {:induction false} ScanFirstExtends(line: string, delimiter: char, field: string, inside: bool)
      returns (x: string)
    ensures Scan(line, delimiter, field, inside)[0] == Trim(field + x)
    decreases |line|
  {
    x := "";
    assert field + "" == field;
    if line != "" {
      if line[0] == '"' {
        if inside && |line| > 1 && line[1] == '"' {
          x := ScanFirstExtends(line[2..], delimiter, field + "\"", inside);
          assert (field + "\"") + x == field + ("\"" + x);
          x := "\"" + x;
        } else {
          x := ScanFirstExtends(line[1..], delimiter, field, !inside);
        }
      } else if line[0] != delimiter || inside {
        x := ScanFirstExtends(line[1..], delimiter, field + [line[0]], inside);
        assert (field + [line[0]]) + x == field + ([line[0]] + x);
        x := [line[0]] + x;
      }
    }
  }

  lemma CommaMakesLonger(f: string, x: string)
    requires Trimmed(f)
    ensures |Trim(f + "," + x)| > |f|
  {
    var s := f + "," + x;
    assert !IsSpace(s[0]) && TrimStart(s) == s;
    TrimEndKeeps(f + ",", x);
  }

  lemma {:induction false} FirstTab(f: string) returns (k: nat)
    requires '\t' in f
    ensures k < |f| && f[k] == '\t' && '\t' !in f[..k]
  {
    if f[0] == '\t' {
      k := 0;
    } else {
      assert f == [f[0]] + f[1..];
      k := FirstTab(f[1..]);
      assert f[..k + 1] == [f[0]] + f[1..][..k];
      k := k + 1;
    }
  }

  /** A field with a bare tab is cut at it. */
  lemma BareTabCuts(f: string, rest: string)
    requires '"' !in f && '\t' in f
    ensures Scan(f + rest, '\t', "", false)[0] != f
  {
    var k := FirstTab(f);
    var head, left := f[..k], f[k..] + rest;
    assert forall c | c in head :: c in f;
    ScanPlain(head, left, '\t', "");
    assert head + left == f + rest && "" + head == head;
    assert Scan(left, '\t', head, false)[0] == Trim(head) by { assert left[0] == '\t'; }
    TrimIsTrimmed(head);
  }

  /** With a tab as delimiter, a field runs on through the comma that should have ended it. */
  lemma CommaSwallowed(f: string, rest: string)
    requires Trimmed(f) && (NeedsQuotes(f) || '\t' !in f)
    ensures Scan(Cell(f) + ("," + rest), '\t', "", false)[0] != f
  {
    var line := "," + rest;
    ScanCell(f, line, '\t');
    assert line[1..] == rest;
    var x := ScanFirstExtends(rest, '\t', f + ",", false);
    CommaMakesLonger(f, x);
  }

  /** Once any field brings a tab into the line, the first field read is not the first one written,
    * unless the row is a single quoted field. */
  lemma TabsBreakRows(row: seq<string>)
    requires row != [] && Trimmed(row[0]) && HasTab(row) && !(|row| == 1 && NeedsQuotes(row[0]))
    ensures Scan(PrintRow(row), '\t', "", false)[0] != row[0]
  {
    var f := row[0];
    if |row| == 1 {
      assert '\t' in f;
      BareTabCuts(f, "");
      assert f + "" == PrintRow(row);
    } else {
      var rest := PrintRow(row[1..]);
      PrintSplits(row);
      if NeedsQuotes(f) || '\t' !in f {
        CommaSwallowed(f, rest);
      } else {
        BareTabCuts(f, "," + rest);
      }
    }
  }

  lemma PrintSplits(row: seq<string>)
    requires |row| > 1
    ensures PrintRow(row) == Cell(row[0]) + ("," + PrintRow(row[1..]))
  {
  }

  /** Parsing undoes printing for exactly these rows: not empty, every field trimmed, and no tab
    * anywhere unless the row is one quoted field.  Quotes, commas and newlines are all safe. */
  lemma RoundTripExactly(row: seq<string>)
    ensures Parse(PrintRow(row)) == row <==>
      && row != []
      && (forall f | f in row :: Trimmed(f))
      && (!HasTab(row) || (|row| == 1 && NeedsQuotes(row[0])))
  {
    PrintKeepsTabs(row);
    var line := PrintRow(row);
    ScanFieldsTrimmed(line, Delimiter(line), "", false);
    if row != [] && forall f | f in row :: Trimmed(f) {
      assert row[0] in row;
      if !HasTab(row) {
        CommaRoundTrip(row);
      } else if |row| == 1 && NeedsQuotes(row[0]) {
        ScanCell(row[0], "", '\t');
        assert Cell(row[0]) + "" == Cell(row[0]);
        TrimIsTrimmed(row[0]);
      } else {
        TabsBreakRows(row);
      }
    }
  }

  // ---- Lines pasted with tabs ----

  /** The fields of one clipboard line. */
  function TabRow(row: seq<string>): string {
    if row == [] then "" else if |row| == 1 then row[0] else row[0] + "\t" + TabRow(row[1..])
  }

  function Count(c: char, s: string): nat {
    if s == "" then 0 else (if s[0] == c then 1 else 0) + Count(c, s[1..])
  }

  function CountAll(c: char, row: seq<string>): nat {
    if row == [] then 0 else Count(c, row[0]) + CountAll(c, row[1..])
  }

  lemma {:induction false} CountAppend(c: char, a: string, b: string)
    ensures Count(c, a + b) == Count(c, a) + Count(c, b)
  {
    if a == "" {
      assert a + b == b;
    } else {
      CountAppend(c, a[1..], b);
      assert (a + b)[1..] == a[1..] + b;
    }
  }

  lemma {:induction false} CountIn(c: char, s: string)
    ensures Count(c, s) > 0 <==> c in s
  {
    if s != "" {
      CountIn(c, s[1..]);
      assert s == [s[0]] + s[1..];
    }
  }

  lemma {:induction false} CountAllIn(c: char, row: seq<string>)
    ensures CountAll(c, row) > 0 <==> exists f | f in row :: c in f
  {
    if row != [] {
      CountIn(c, row[0]);
      CountAllIn(c, row[1..]);
      assert row == [row[0]] + row[1..];
    }
  }

  lemma {:induction false} TabRowCounts(row: seq<string>, c: char)
    ensures Count(c, TabRow(row)) == CountAll(c, row) + if c == '\t' && row != [] then |row| - 1 else 0
  {
    if |row| > 1 {
      TabRowCounts(row[1..], c);
      CountAppend(c, row[0], "\t");
      CountAppend(c, row[0] + "\t", TabRow(row[1..]));
    }
  }

  lemma TrimCounts(c: char, s: string)
    ensures Count(c, Trim(s)) <= Count(c, s)
  {
    var before, after := TrimExactly(s);
    CountAppend(c, before, Trim(s));
    CountAppend(c, before + Trim(s), after);
  }

  /** Every quote that comes out of the scan took two to write. */
  lemma {:induction false} QuotesHalved(line: string, delimiter: char, field: string, inside: bool)
    ensures 2 * CountAll('"', Scan(line, delimiter, field, inside)) <= 2 * Count('"', field) + Count('"', line)
    decreases |line|
  {
    TrimCounts('"', field);
    if line != "" {
      if line[0] == '"' {
        if inside && |line| > 1 && line[1] == '"' {
          CountAppend('"', field, "\"");
          assert line[1..][1..] == line[2..];
          QuotesHalved(line[2..], delimiter, field + "\"", inside);
        } else {
          QuotesHalved(line[1..], delimiter, field, !inside);
        }
      } else if line[0] == delimiter && !inside {
        var rest := Scan(line[1..], delimiter, "", false);
        QuotesHalved(line[1..], delimiter, "", false);
        assert ([Trim(field)] + rest)[1..] == rest;
      } else {
        CountAppend('"', field, [line[0]]);
        QuotesHalved(line[1..], delimiter, field + [line[0]], inside);
      }
    }
  }

  /** Without quotes there is a field for every tab and one more. */
  lemma {:induction false} TabsSplit(line: string, field: string)
    requires '"' !in line
    ensures |Scan(line, '\t', field, false)| == Count('\t', line) + 1
    decreases |line|
  {
    if line != "" {
      assert line[0] in line && forall c | c in line[1..] :: c in line;
      if line[0] == '\t' {
        TabsSplit(line[1..], "");
      } else {
        TabsSplit(line[1..], field + [line[0]]);
      }
    }
  }

  lemma {:induction false} TabRowScans(row: seq<string>)
    requires row != [] && forall f | f in row :: Trimmed(f) && '"' !in f && '\t' !in f
    ensures Scan(TabRow(row), '\t', "", false) == row
  {
    assert row[0] in row && "" + row[0] == row[0];
    TrimIsTrimmed(row[0]);
    if |row| == 1 {
      ScanPlain(row[0], "", '\t', "");
      assert row[0] + "" == row[0];
    } else {
      var rest := "\t" + TabRow(row[1..]);
      ScanPlain(row[0], rest, '\t', "");
      assert TabRow(row) == row[0] + rest && rest[1..] == TabRow(row[1..]);
      assert forall f | f in row[1..] :: f in row;
      TabRowScans(row[1..]);
    }
  }

  /** A line of two or more fields pasted with tabs reads back exactly if every field is trimmed and none
    * holds a tab or a quote. */
  lemma TabRoundTripExactly(row: seq<string>)
    requires |row| >= 2
    ensures Parse(TabRow(row)) == row <==> forall f | f in row :: Trimmed(f) && '"' !in f && '\t' !in f
  {
    var line := TabRow(row);
    TabRowCounts(row, '\t');
    TabRowCounts(row, '"');
    CountIn('\t', line);
    CountIn('"', line);
    CountAllIn('\t', row);
    CountAllIn('"', row);
    assert Delimiter(line) == '\t';
    if forall f | f in row :: Trimmed(f) && '"' !in f && '\t' !in f {
      TabRowScans(row);
    }
    if Parse(line) == row {
      ScanFieldsTrimmed(line, '\t', "", false);
      QuotesHalved(line, '\t', "", false);
      TabsSplit(line, "");
    }
  }
}
