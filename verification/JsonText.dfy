/** How JSON tokens are spelled, as Go's encoder spells them, and how text is cut into
    tokens again, as its decoder accepts them. */
module JsonText {
  import opened Ordering
  import opened Json

  // ----- strings --------------------------------------------------------

  const HEX := "0123456789abcdef"

  /** The four hexadecimal digits of a code unit. */
  function Hex4(n: nat): string
    requires n < 0x10000
  {
    [HEX[n / 0x1000], HEX[n / 0x100 % 0x10], HEX[n / 0x10 % 0x10], HEX[n % 0x10]]
  }

  function HexDigit(c: char): Option<nat> {
    if '0' <= c <= '9' then Some(c as int - '0' as int)
    else if 'a' <= c <= 'f' then Some(c as int - 'a' as int + 10)
    else if 'A' <= c <= 'F' then Some(c as int - 'A' as int + 10)
    else None
  }

  function ReadHex4(s: string): (r: Option<nat>)
    ensures r.Some? ==> r.value < 0x10000 && |s| >= 4
  {
    if |s| < 4 then None
    else
      var a, b, c, d := HexDigit(s[0]), HexDigit(s[1]), HexDigit(s[2]), HexDigit(s[3]);
      if a.None? || b.None? || c.None? || d.None? then None
      else Some(a.value * 0x1000 + b.value * 0x100 + c.value * 0x10 + d.value)
  }

  predicate EscapedByNumber(c: char) {
    c < ' ' || c == '<' || c == '>' || c == '&' || c == '\U{2028}' || c == '\U{2029}'
  }

  /** One character of a string; angle brackets and ampersands are escaped for HTML. */
  function Escape(c: char): string {
    if c == '"' then "\\\""
    else if c == '\\' then "\\\\"
    else if c == '\n' then "\\n"
    else if c == '\r' then "\\r"
    else if c == '\t' then "\\t"
    else if c == '\U{8}' then "\\b"
    else if c == '\U{C}' then "\\f"
    else if EscapedByNumber(c) then "\\u" + Hex4(c as int)
    else [c]
  }

  function EscapeAll(s: string): string {
    if s == "" then "" else Escape(s[0]) + EscapeAll(s[1..])
  }

  function SimpleEscape(c: char): Option<char> {
    match c
    case '"' => Some('"')
    case '\\' => Some('\\')
    case '/' => Some('/')
    case 'b' => Some('\U{8}')
    case 'f' => Some('\U{C}')
    case 'n' => Some('\n')
    case 'r' => Some('\r')
    case 't' => Some('\t')
    case _ => None
  }

  const REPLACEMENT := '\U{FFFD}'

  /** The character of a \u escape and how much of the text behind `\u` it takes; two
      surrogates make one character, a lone one is replaced. */
  function Unit(s: string): (r: Option<(char, nat)>)
    ensures r.Some? ==> 0 < r.value.1 <= |s|
  {
    var first := ReadHex4(s);
    if first.None? then None
    else if first.value < 0xD800 || first.value >= 0xE000 then Some((first.value as char, 4))
    else
      var second := if |s| >= 6 && s[4] == '\\' && s[5] == 'u' then ReadHex4(s[6..]) else None;
      if first.value < 0xDC00 && second.Some? && 0xDC00 <= second.value < 0xE000 then
        Some((((first.value - 0xD800) * 0x400 + (second.value - 0xDC00) + 0x10000) as char, 10))
      else Some((REPLACEMENT, 4))
  }

  /** The first character of a string body, and the rest. */
  function Unescape(s: string): (r: Option<(char, string)>)
    ensures r.Some? ==> |r.value.1| < |s|
  {
    if s == "" || s[0] < ' ' || s[0] == '"' then None
    else if s[0] != '\\' then Some((s[0], s[1..]))
    else if |s| < 2 then None
    else if s[1] == 'u' then
      var unit := Unit(s[2..]);
      if unit.None? then None else Some((unit.value.0, s[2 + unit.value.1..]))
    else
      var c := SimpleEscape(s[1]);
      if c.None? then None else Some((c.value, s[2..]))
  }

  /** A string body up to its closing quote, and what follows. */
  function Unquote(s: string): (r: Option<(string, string)>)
    ensures r.Some? ==> |r.value.1| < |s|
    decreases |s|
  {
    if s == "" then None
    else if s[0] == '"' then Some(("", s[1..]))
    else
      var c := Unescape(s);
      if c.None? then None
      else
        var rest := Unquote(c.value.1);
        if rest.None? then None else Some(([c.value.0] + rest.value.0, rest.value.1))
  }

  lemma HexDigitBack(n: nat)
    requires n < 0x10
    ensures HexDigit(HEX[n]) == Some(n)
  {
  }

  lemma Hex4Back(n: nat, tail: string)
    requires n < 0x10000
    ensures ReadHex4(Hex4(n) + tail) == Some(n)
  {
    HexDigitBack(n / 0x1000);
    HexDigitBack(n / 0x100 % 0x10);
    HexDigitBack(n / 0x10 % 0x10);
    HexDigitBack(n % 0x10);
    Digits(n);
  }

  lemma Digits(n: nat)
    ensures n == n / 0x1000 * 0x1000 + n / 0x100 % 0x10 * 0x100 + n / 0x10 % 0x10 * 0x10 + n % 0x10
  {
    assert n / 0x100 == n / 0x1000 * 0x10 + n / 0x100 % 0x10;
    assert n / 0x10 == n / 0x100 * 0x10 + n / 0x10 % 0x10;
  }

  lemma NumberedBack(c: char, tail: string)
    requires EscapedByNumber(c)
    ensures Unescape("\\u" + Hex4(c as int) + tail) == Some((c, tail))
  {
    var digits := Hex4(c as int);
    Hex4Back(c as int, tail);
    UnitBack(c, digits + tail);
    UnescapeUnit(c, digits + tail);
    assert (digits + tail)[4..] == tail;
    assert "\\u" + digits + tail == "\\u" + (digits + tail);
  }

  lemma UnescapeUnit(c: char, s: string)
    requires Unit(s) == Some((c, 4))
    ensures Unescape("\\u" + s) == Some((c, s[4..]))
  {
    assert ("\\u" + s)[2..] == s && ("\\u" + s)[2 + 4..] == s[4..];
  }

  lemma UnitBack(c: char, s: string)
    requires EscapedByNumber(c) && ReadHex4(s) == Some(c as int)
    ensures Unit(s) == Some((c, 4))
  {
  }

  lemma SimpleBack(e: char, c: char, tail: string)
    requires SimpleEscape(e) == Some(c)
    ensures Unescape(['\\', e] + tail) == Some((c, tail))
  {
    assert (['\\', e] + tail)[2..] == tail;
  }

  lemma EscapeBack(c: char, tail: string)
    ensures Unescape(Escape(c) + tail) == Some((c, tail))
    ensures Escape(c) != "" && Escape(c)[0] != '"'
  {
    if |Escape(c)| == 1 {
      assert Escape(c) == [c] && ([c] + tail)[1..] == tail;
    } else if |Escape(c)| == 2 {
      SimpleBack(Escape(c)[1], c, tail);
      assert Escape(c) == ['\\', Escape(c)[1]];
    } else {
      NumberedBack(c, tail);
    }
  }

  /** Reading a written string gives it back, whatever characters it holds. */
  lemma {:induction false} UnquoteEscaped(s: string, tail: string)
    ensures Unquote(EscapeAll(s) + "\"" + tail) == Some((s, tail))
  {
    if s == "" {
      assert EscapeAll(s) + "\"" + tail == "\"" + tail && ("\"" + tail)[1..] == tail;
    } else {
      EscapedHead(s, tail);
      UnquoteEscaped(s[1..], tail);
      UnquoteNext(EscapeAll(s) + "\"" + tail, s[0], EscapeAll(s[1..]) + "\"" + tail, s[1..], tail);
      assert s == [s[0]] + s[1..];
    }
  }

  lemma EscapedHead(s: string, tail: string)
    requires s != ""
    ensures var text := EscapeAll(s) + "\"" + tail;
      text != "" && text[0] != '"' && Unescape(text) == Some((s[0], EscapeAll(s[1..]) + "\"" + tail))
  {
    var rest := EscapeAll(s[1..]) + "\"" + tail;
    EscapeBack(s[0], rest);
    assert EscapeAll(s) + "\"" + tail == Escape(s[0]) + rest;
  }

  lemma UnquoteNext(text: string, c: char, rest: string, body: string, tail: string)
    requires text != "" && text[0] != '"' && Unescape(text) == Some((c, rest))
    requires Unquote(rest) == Some((body, tail))
    ensures Unquote(text) == Some(([c] + body, tail))
  {
  }

  // ----- tokens ---------------------------------------------------------

  predicate IsBlank(c: char) {
    c == ' ' || c == '\t' || c == '\n' || c == '\r'
  }

  function Spell(t: Token): string {
    match t
    case LBrace => "{"
    case RBrace => "}"
    case LBracket => "["
    case RBracket => "]"
    case Comma => ","
    case Colon => ":"
    case Quoted(text) => "\"" + EscapeAll(text) + "\""
    case Number(digits) => digits
    case Null => "null"
    case True => "true"
    case False => "false"
    case Space(blanks) => blanks
  }

  function Text(ts: seq<Token>): string {
    if ts == [] then "" else Spell(ts[0]) + Text(ts[1..])
  }

  function Mark(c: char): Option<Token> {
    match c
    case '{' => Some(LBrace)
    case '}' => Some(RBrace)
    case '[' => Some(LBracket)
    case ']' => Some(RBracket)
    case ',' => Some(Comma)
    case ':' => Some(Colon)
    case _ => None
  }

  /** The token at the front of text that does not begin with a blank, and the rest. */
  function Next(s: string): (r: Option<(Token, string)>)
    ensures r.Some? ==> |r.value.1| < |s|
  {
    if s == "" then None
    else if Mark(s[0]).Some? then Some((Mark(s[0]).value, s[1..]))
    else if s[0] == '"' then
      var body := Unquote(s[1..]);
      if body.None? then None else Some((Quoted(body.value.0), body.value.1))
    else if "null" <= s then Some((Null, s[4..]))
    else if "true" <= s then Some((True, s[4..]))
    else if "false" <= s then Some((False, s[5..]))
    else
      var n := Run(s, IsNumberChar);
      if ValidNumber(s[..n]) then Some((Number(s[..n]), s[n..])) else None
  }

  /** The significant tokens of a text, if it can be cut into tokens. */
  function Lex(s: string): Option<seq<Token>>
    decreases |s|
  {
    if s == "" then Some([])
    else if IsBlank(s[0]) then Lex(s[1..])
    else
      var t := Next(s);
      if t.None? then None
      else
        var rest := Lex(t.value.1);
        if rest.None? then None else Some([t.value.0] + rest.value)
  }

  /** Tokens that can be told apart once they are written one after another. */
  predicate Writable(ts: seq<Token>) {
    forall i :: 0 <= i < |ts| ==> WritableAt(ts, i)
  }

  predicate WritableAt(ts: seq<Token>, i: nat)
    requires i < |ts|
  {
    match ts[i]
    case Space(blanks) => blanks != "" && forall j :: 0 <= j < |blanks| ==> IsBlank(blanks[j])
    case Number(digits) => ValidNumber(digits) && (i + 1 < |ts| ==> !ts[i + 1].Number?)
    case _ => true
  }

  lemma {:induction false} LexBlanks(blanks: string, rest: string)
    requires forall j :: 0 <= j < |blanks| ==> IsBlank(blanks[j])
    ensures Lex(blanks + rest) == Lex(rest)
  {
    if blanks == "" {
      assert blanks + rest == rest;
    } else {
      assert (blanks + rest)[1..] == blanks[1..] + rest;
      LexBlanks(blanks[1..], rest);
    }
  }

  lemma {:induction false} RunAll(s: string, p: char -> bool, rest: string)
    requires forall i :: 0 <= i < |s| ==> p(s[i])
    requires rest == "" || !p(rest[0])
    ensures Run(s + rest, p) == |s|
  {
    if s == "" {
      assert s + rest == rest;
    } else {
      assert (s + rest)[1..] == s[1..] + rest;
      RunAll(s[1..], p, rest);
    }
  }

  /** A written token is read back, if no number follows a number. */
  lemma NextSpelled(t: Token, rest: string)
    requires !t.Space? && (t.Number? ==> ValidNumber(t.digits) && (rest == "" || !IsNumberChar(rest[0])))
    ensures Next(Spell(t) + rest) == Some((t, rest))
    ensures Spell(t) != "" && !IsBlank(Spell(t)[0])
  {
    if t.Quoted? {
      QuotedBack(t.text, rest);
    } else if t.Number? {
      NumberBack(t.digits, rest);
    } else if t.Null? || t.True? || t.False? {
      WordBack(t, rest);
    } else {
      MarkBack(t, rest);
    }
  }

  lemma QuotedBack(text: string, rest: string)
    ensures Next(Spell(Quoted(text)) + rest) == Some((Quoted(text), rest))
  {
    var body := EscapeAll(text) + "\"" + rest;
    UnquoteEscaped(text, rest);
    NextQuoted(body);
    SpelledQuote(text, rest);
  }

  lemma SpelledQuote(text: string, rest: string)
    ensures Spell(Quoted(text)) + rest == "\"" + (EscapeAll(text) + "\"" + rest)
  {
    var body := EscapeAll(text);
    assert "\"" + body + "\"" + rest == "\"" + (body + "\"" + rest);
  }

  lemma NextQuoted(body: string)
    requires Unquote(body).Some?
    ensures Next("\"" + body) == Some((Quoted(Unquote(body).value.0), Unquote(body).value.1))
  {
    assert ("\"" + body)[1..] == body;
  }

  lemma WordBack(t: Token, rest: string)
    requires t.Null? || t.True? || t.False?
    ensures Next(Spell(t) + rest) == Some((t, rest))
  {
    var s := Spell(t) + rest;
    assert s[|Spell(t)|..] == rest && s[0] == Spell(t)[0];
    assert "null"[0] == 'n' && "true"[0] == 't' && "false"[0] == 'f';
  }

  lemma MarkBack(t: Token, rest: string)
    requires !t.Quoted? && !t.Number? && !t.Null? && !t.True? && !t.False? && !t.Space?
    ensures Next(Spell(t) + rest) == Some((t, rest))
    ensures |Spell(t)| == 1 && !IsBlank(Spell(t)[0])
  {
    assert (Spell(t) + rest)[1..] == rest;
  }

  lemma NumberBack(digits: string, rest: string)
    requires ValidNumber(digits) && (rest == "" || !IsNumberChar(rest[0]))
    ensures Next(digits + rest) == Some((Number(digits), rest))
    ensures !IsBlank(digits[0])
  {
    var s := digits + rest;
    RunAll(digits, IsNumberChar, rest);
    assert s[..|digits|] == digits && s[|digits|..] == rest;
    assert digits[0] == '-' || IsDigit(digits[0]);
    NoKeyword(s);
    NextNumber(s);
  }

  lemma NoKeyword(s: string)
    requires s != "" && (s[0] == '-' || IsDigit(s[0]))
    ensures !("null" <= s) && !("true" <= s) && !("false" <= s)
  {
    assert "null"[0] == 'n' && "true"[0] == 't' && "false"[0] == 'f';
  }

  /** Text that begins like a number is cut after its number characters. */
  lemma NextNumber(s: string)
    requires s != "" && Mark(s[0]).None? && s[0] != '"' && !("null" <= s) && !("true" <= s) && !("false" <= s)
    ensures var n := Run(s, IsNumberChar);
      Next(s) == if ValidNumber(s[..n]) then Some((Number(s[..n]), s[n..])) else None
  {
  }

  lemma TextStart(ts: seq<Token>)
    requires ts != [] && Writable(ts) && !ts[0].Number?
    ensures Text(ts) != "" && !IsNumberChar(Text(ts)[0])
  {
    assert WritableAt(ts, 0);
  }

  lemma WritableTail(ts: seq<Token>)
    requires ts != [] && Writable(ts)
    ensures Writable(ts[1..])
  {
    forall i | 0 <= i < |ts| - 1 ensures WritableAt(ts[1..], i) { assert WritableAt(ts, i + 1); }
  }

  /** Cutting written text gives back its significant tokens. */
  lemma {:induction false} LexText(ts: seq<Token>)
    requires Writable(ts)
    ensures Lex(Text(ts)) == Some(Significant(ts))
  {
    if ts != [] {
      WritableTail(ts);
      LexText(ts[1..]);
      assert WritableAt(ts, 0);
      if ts[0].Space? {
        LexBlanks(ts[0].blanks, Text(ts[1..]));
      } else {
        if ts[0].Number? && |ts| > 1 { TextStart(ts[1..]); }
        NextSpelled(ts[0], Text(ts[1..]));
      }
    }
  }

  lemma {:induction false} TextAppend(a: seq<Token>, b: seq<Token>)
    ensures Text(a + b) == Text(a) + Text(b)
  {
    if a == [] {
      assert a + b == b;
    } else {
      assert (a + b)[1..] == a[1..] + b;
      TextAppend(a[1..], b);
    }
  }

  /** Only white space is left without tokens. */
  predicate AllBlank(s: string) {
    forall i :: 0 <= i < |s| ==> IsBlank(s[i])
  }
}
