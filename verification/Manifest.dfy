/** Writing the import manifest as tab-separated lines and reading it back
    (tools/cmd/paperless-import/main.go). */
module Manifest {
  import opened ImportRow

  // ----- numbers --------------------------------------------------------

  function Digit(n: nat): char
    requires n < 10
  {
    (n + '0' as int) as char
  }

  function Decimal(n: nat): (s: string)
    ensures s != [] && forall i :: 0 <= i < |s| ==> '0' <= s[i] <= '9'
  {
    if n < 10 then [Digit(n)] else Decimal(n / 10) + [Digit(n % 10)]
  }

  predicate AllDigits(s: string) {
    forall i :: 0 <= i < |s| ==> '0' <= s[i] <= '9'
  }

  function ValueOf(s: string): nat
    requires AllDigits(s)
  {
    if s == [] then 0 else ValueOf(s[..|s| - 1]) * 10 + (s[|s| - 1] as int - '0' as int)
  }

  function ReadSize(s: string): nat {
    if AllDigits(s) then ValueOf(s) else 0
  }

  lemma {:induction false} ReadDecimal(n: nat)
    ensures ReadSize(Decimal(n)) == n
  {
    if n >= 10 {
      ReadDecimal(n / 10);
      assert Decimal(n)[..|Decimal(n)| - 1] == Decimal(n / 10);
    } else {
      assert ValueOf(Decimal(n)[..0]) == 0;
    }
  }

  // ----- lines ----------------------------------------------------------

  function DropCR(line: string): string {
    if line != [] && line[|line| - 1] == '\r' then line[..|line| - 1] else line
  }

  /** The longest line, in bytes and with its line break, that the scanner has room for. */
  const LIMIT := 0x100000

  /** What the line scanner yields, and whether it reaches the end; a line that does not
      fit stops it. The last line may lack its line break. */
  function Lines(text: string): (seq<string>, bool)
    decreases |text|
  {
    if text == [] then ([], true)
    else
      var i := Find(text, '\n');
      if i >= LIMIT then ([], false)
      else if i == |text| then ([DropCR(text)], true)
      else
        var rest := Lines(text[i + 1..]);
        ([DropCR(text[..i])] + rest.0, rest.1)
  }

  // ----- rows -----------------------------------------------------------

  function Fields(r: Row): seq<string> {
    [r.cls, r.rel, r.dest, Decimal(r.size), r.sha]
  }

  function LineOf(r: Row): string {
    JoinedBy(Fields(r), '\t')
  }

  function TextOf(rows: seq<Row>): string {
    if rows == [] then "" else LineOf(rows[0]) + "\n" + TextOf(rows[1..])
  }

  /** The row of a line; lines without exactly five fields are passed over. */
  function RowsOfLine(line: string): seq<Row> {
    var p := Split(line, '\t');
    if |p| != 5 then [] else [Row(p[0], p[1], p[2], ReadSize(p[3]), p[4])]
  }

  function RowsOf(lines: seq<string>): seq<Row> {
    if lines == [] then [] else RowsOf(lines[..|lines| - 1]) + RowsOfLine(lines[|lines| - 1])
  }

  /** No field holds a tab or a line break, and the hash no carriage return. */
  predicate Clean(r: Row) {
    && Free(r.cls, '\t') && Free(r.rel, '\t') && Free(r.dest, '\t') && Free(r.sha, '\t')
    && Free(r.cls, '\n') && Free(r.rel, '\n') && Free(r.dest, '\n') && Free(r.sha, '\n')
    && Free(r.sha, '\r')
  }

  lemma {:induction false} SplitJoined(fields: seq<string>)
    requires fields != [] && forall i :: 0 <= i < |fields| ==> Free(fields[i], '\t')
    ensures Split(JoinedBy(fields, '\t'), '\t') == fields
  {
    if |fields| > 1 {
      SplitJoined(fields[1..]);
      SplitOff(fields[0], '\t', JoinedBy(fields[1..], '\t'));
      assert fields == [fields[0]] + fields[1..];
    }
  }

  lemma FieldsReadBack(r: Row)
    requires Clean(r)
    ensures RowsOfLine(LineOf(r)) == [r]
  {
    SplitJoined(Fields(r));
    ReadDecimal(r.size);
  }

  /** The columns of a line: class, path, destination, size and hash, with tabs between. */
  lemma ColumnsTold(r: Row)
    ensures LineOf(r) == r.cls + "\t" + (r.rel + "\t" + (r.dest + "\t" + (Decimal(r.size) + "\t" + r.sha)))
  {
    var size := Decimal(r.size);
    JoinedMore(size, [r.sha]);
    JoinedMore(r.dest, [size, r.sha]);
    JoinedMore(r.rel, [r.dest, size, r.sha]);
    JoinedMore(r.cls, [r.rel, r.dest, size, r.sha]);
    assert [size] + [r.sha] == [size, r.sha] && [r.dest] + [size, r.sha] == [r.dest, size, r.sha];
    assert [r.rel] + [r.dest, size, r.sha] == [r.rel, r.dest, size, r.sha];
    assert [r.cls] + [r.rel, r.dest, size, r.sha] == Fields(r);
  }

  lemma JoinedMore(a: string, rest: seq<string>)
    requires rest != []
    ensures JoinedBy([a] + rest, '\t') == a + "\t" + JoinedBy(rest, '\t')
  {
    assert ([a] + rest)[1..] == rest;
  }

  /** Sizes are written in decimal, without leading zeros: each digit counts ten times the
      next. */
  lemma {:induction false} DecimalTold(n: nat)
    ensures n < 10 ==> |Decimal(n)| == 1 && Decimal(n)[0] as int == 48 + n
    ensures n >= 10 ==> Decimal(n) == Decimal(n / 10) + Decimal(n % 10) && Decimal(n)[0] != '0'
  {
    if n >= 100 { DecimalTold(n / 10); }
  }

  /** A line is a row iff it has five columns, whatever they hold; they are read in the order
      in which they are written. */
  lemma LineRead(fields: seq<string>)
    requires fields != [] && forall i :: 0 <= i < |fields| ==> Free(fields[i], '\t')
    ensures var rows := RowsOfLine(JoinedBy(fields, '\t'));
      if |fields| != 5 then rows == []
      else |rows| == 1 && rows[0].cls == fields[0] && rows[0].rel == fields[1] && rows[0].dest == fields[2]
           && rows[0].size == ReadSize(fields[3]) && rows[0].sha == fields[4]
  {
    SplitJoined(fields);
  }

  lemma {:induction false} JoinedIsOneLine(fields: seq<string>)
    requires fields != [] && forall i :: 0 <= i < |fields| ==> Free(fields[i], '\n')
    requires Free(fields[|fields| - 1], '\r')
    ensures Free(JoinedBy(fields, '\t'), '\n') && DropCR(JoinedBy(fields, '\t')) == JoinedBy(fields, '\t')
  {
    if |fields| > 1 {
      var rest := JoinedBy(fields[1..], '\t');
      JoinedIsOneLine(fields[1..]);
      assert JoinedBy(fields, '\t') == fields[0] + "\t" + rest;
      assert rest != "" ==> JoinedBy(fields, '\t')[|JoinedBy(fields, '\t')| - 1] == rest[|rest| - 1];
    }
  }

  /** The line is one line, and a line scanner takes nothing off its end. */
  lemma LineIsOneLine(r: Row)
    requires Clean(r)
    ensures Free(LineOf(r), '\n') && DropCR(LineOf(r)) == LineOf(r)
  {
    JoinedIsOneLine(Fields(r));
  }

  function LinesFor(rows: seq<Row>): seq<string> {
    if rows == [] then [] else [LineOf(rows[0])] + LinesFor(rows[1..])
  }

  /** How many rows come before the first whose line does not fit. */
  function Fitting(rows: seq<Row>): (n: nat)
    ensures n <= |rows| && forall i :: 0 <= i < n ==> |LineOf(rows[i])| < LIMIT
    ensures n < |rows| ==> |LineOf(rows[n])| >= LIMIT
  {
    if rows == [] || |LineOf(rows[0])| >= LIMIT then 0 else 1 + Fitting(rows[1..])
  }

  lemma {:induction false} LinesOfText(rows: seq<Row>)
    requires forall i :: 0 <= i < |rows| ==> Clean(rows[i])
    ensures Lines(TextOf(rows)) == (LinesFor(rows[..Fitting(rows)]), Fitting(rows) == |rows|)
  {
    if rows != [] {
      LineIsOneLine(rows[0]);
      LineOff(LineOf(rows[0]), TextOf(rows[1..]));
      if |LineOf(rows[0])| < LIMIT {
        var n := Fitting(rows[1..]);
        LinesOfText(rows[1..]);
        assert rows[..n + 1][0] == rows[0] && rows[..n + 1][1..] == rows[1..][..n];
      }
    }
  }

  lemma LineOff(line: string, rest: string)
    requires Free(line, '\n')
    ensures Lines(line + "\n" + rest)
         == if |line| >= LIMIT then ([], false) else ([DropCR(line)] + Lines(rest).0, Lines(rest).1)
  {
    FindIn(line, '\n', rest);
    assert (line + "\n" + rest)[..|line|] == line && (line + "\n" + rest)[|line| + 1..] == rest;
  }

  /** A line of a mebibyte or more stops the reading; of a shorter one a carriage return at
      its end is dropped. */
  lemma LinesTold(line: string, rest: string)
    requires Free(line, '\n')
    ensures |line| >= 1048576 ==> Lines(line + "\n" + rest) == ([], false)
    ensures |line| < 1048576 && (line == "" || line[|line| - 1] != '\r') ==>
      Lines(line + "\n" + rest) == ([line] + Lines(rest).0, Lines(rest).1)
    ensures |line| < 1048575 ==>
      Lines(line + "\r" + "\n" + rest) == ([line] + Lines(rest).0, Lines(rest).1)
    ensures Lines("") == ([], true)
  {
    LineOff(line, rest);
    var returned := line + "\r";
    assert Free(returned, '\n');
    LineOff(returned, rest);
    assert returned[..|returned| - 1] == line;
  }

  lemma {:induction false} RowsOfCons(line: string, rest: seq<string>)
    ensures RowsOf([line] + rest) == RowsOfLine(line) + RowsOf(rest)
  {
    var all := [line] + rest;
    if rest == [] {
      assert all[..0] == [];
    } else {
      assert all[..|all| - 1] == [line] + rest[..|rest| - 1];
      RowsOfCons(line, rest[..|rest| - 1]);
    }
  }

  lemma {:induction false} RowsOfLines(rows: seq<Row>)
    requires forall i :: 0 <= i < |rows| ==> Clean(rows[i])
    ensures RowsOf(LinesFor(rows)) == rows
  {
    if rows != [] {
      FieldsReadBack(rows[0]);
      RowsOfLines(rows[1..]);
      RowsOfCons(LineOf(rows[0]), LinesFor(rows[1..]));
    }
  }

  /** Reading a written manifest gives back the same rows, sizes and empty hashes
      included, up to the first row whose line is too long; without such a row, all of
      them and no error. */
  lemma ManifestRoundTrip(rows: seq<Row>)
    requires forall i :: 0 <= i < |rows| ==> Clean(rows[i])
    ensures var read := Lines(TextOf(rows));
      && RowsOf(read.0) == rows[..Fitting(rows)]
      && (read.1 <==> forall i :: 0 <= i < |rows| ==> |LineOf(rows[i])| < LIMIT)
      && (read.1 ==> RowsOf(read.0) == rows)
  {
    LinesOfText(rows);
    RowsOfLines(rows[..Fitting(rows)]);
    assert rows[..|rows|] == rows;
  }

  lemma {:induction false} TextAppend(a: seq<Row>, b: seq<Row>)
    ensures TextOf(a + b) == TextOf(a) + TextOf(b)
  {
    if a == [] {
      assert a + b == b;
    } else {
      assert (a + b)[1..] == a[1..] + b;
      TextAppend(a[1..], b);
    }
  }

  method WriteManifest(rows: seq<Row>) returns (text: string)
    ensures text == TextOf(rows)
  {
    text := "";
    for i := 0 to |rows|
      invariant text == TextOf(rows[..i])
    {
      var r := rows[i];
      assert rows[..i + 1] == rows[..i] + [r];
      TextAppend(rows[..i], [r]);
      assert TextOf([r]) == LineOf(r) + "\n";
      text := text + (LineOf(r) + "\n");
    }
    assert rows[..|rows|] == rows;
  }

  /** The rows read, and whether the scanner reached the end. */
  method ReadManifest(text: string) returns (rows: seq<Row>, ok: bool)
    ensures rows == RowsOf(Lines(text).0) && ok == Lines(text).1
  {
    rows := [];
    var scanned := Lines(text);
    var lines := scanned.0;
    for i := 0 to |lines|
      invariant rows == RowsOf(lines[..i])
    {
      assert lines[..i + 1][..i] == lines[..i];
      var p := Split(lines[i], '\t');
      if |p| != 5 {
        continue;
      }
      var size := ReadSize(p[3]);
      rows := rows + [Row(p[0], p[1], p[2], size, p[4])];
    }
    assert lines[..|lines|] == lines;
    ok := scanned.1;
  }
}
