/** The printed form is what indenting the compact form gives: Go's `json.Indent`, which
    walks over the tokens and knows nothing of the tree, and how tokens are spelled
    (tools/internal/schedulemerge/schedulemerge.go). */
module JsonIndent {
  import opened Ordering
  import opened Json
  import opened JsonText

  predicate Opens(t: Token) {
    t.LBrace? || t.LBracket?
  }

  predicate Closes(t: Token) {
    t.RBrace? || t.RBracket?
  }

  /** A line break, and four blanks for every level. */
  function Break(depth: nat): Token {
    Space("\n" + seq(4 * depth, _ => ' '))
  }

  /** One pass over the compact tokens. `freshly`: the last token opened a level, and whether
      it has a line of its own depends on what comes next. */
  function Indent(ts: seq<Token>, freshly: bool, depth: nat): seq<Token> {
    if ts == [] then []
    else
      var t, rest := ts[0], ts[1..];
      if Closes(t) then
        if freshly || depth == 0 then [t] + Indent(rest, false, depth)
        else [Break(depth - 1), t] + Indent(rest, false, depth - 1)
      else
        var level := if freshly then depth + 1 else depth;
        (if freshly then [Break(level)] else []) +
        if Opens(t) then [t] + Indent(rest, true, level)
        else if t == Comma then [t, Break(level)] + Indent(rest, false, level)
        else if t == Colon then [t, Space(" ")] + Indent(rest, false, level)
        else [t] + Indent(rest, false, level)
  }

  lemma {:induction false} BlanksTold(n: nat)
    ensures Blanks(n) == seq(4 * n, _ => ' ')
    ensures NewLine(n) == Break(n)
  {
    if n > 0 { BlanksTold(n - 1); }
  }

  predicate Starts(t: Token) {
    !Closes(t) && t != Comma && t != Colon
  }

  lemma EmitStarts(v: Value, rest: seq<Token>)
    ensures Emit(v, rest) != [] && Starts(Emit(v, rest)[0])
  {
  }

  lemma OpenedLine(ts: seq<Token>, depth: nat)
    requires ts != [] && !Closes(ts[0])
    ensures Indent(ts, true, depth) == [Break(depth + 1)] + Indent(ts, false, depth + 1)
  {
    assert [] + Indent(ts, false, depth + 1) == Indent(ts, false, depth + 1);
  }

  lemma OnOpen(t: Token, rest: seq<Token>, depth: nat)
    requires Opens(t)
    ensures Indent([t] + rest, false, depth) == [t] + Indent(rest, true, depth)
  {
    assert ([t] + rest)[1..] == rest;
    assert [] + ([t] + Indent(rest, true, depth)) == [t] + Indent(rest, true, depth);
  }

  lemma OnComma(rest: seq<Token>, depth: nat)
    ensures Indent([Comma] + rest, false, depth) == [Comma] + ([Break(depth)] + Indent(rest, false, depth))
  {
    assert ([Comma] + rest)[1..] == rest;
    var after := Indent(rest, false, depth);
    assert [] + ([Comma, Break(depth)] + after) == [Comma] + ([Break(depth)] + after);
  }

  lemma OnColon(rest: seq<Token>, depth: nat)
    ensures Indent([Colon] + rest, false, depth) == [Colon] + ([Space(" ")] + Indent(rest, false, depth))
  {
    assert ([Colon] + rest)[1..] == rest;
    var after := Indent(rest, false, depth);
    assert [] + ([Colon, Space(" ")] + after) == [Colon] + ([Space(" ")] + after);
  }

  lemma OnAtom(t: Token, rest: seq<Token>, depth: nat)
    requires Starts(t) && !Opens(t)
    ensures Indent([t] + rest, false, depth) == [t] + Indent(rest, false, depth)
  {
    assert ([t] + rest)[1..] == rest;
    assert [] + ([t] + Indent(rest, false, depth)) == [t] + Indent(rest, false, depth);
  }

  lemma OnClose(t: Token, rest: seq<Token>, depth: nat)
    requires Closes(t)
    ensures Indent([t] + rest, true, depth) == [t] + Indent(rest, false, depth)
    ensures Indent([t] + rest, false, depth + 1) == [Break(depth)] + ([t] + Indent(rest, false, depth))
  {
    assert ([t] + rest)[1..] == rest;
    assert [Break(depth), t] + Indent(rest, false, depth) == [Break(depth)] + ([t] + Indent(rest, false, depth));
  }

  /** Indenting a compact value, whatever follows it. */
  lemma {:induction false} IndentValue(v: Value, depth: nat, rest: seq<Token>)
    ensures Indent(Emit(v, rest), false, depth) == Print(v, depth) + Indent(rest, false, depth)
    decreases v
  {
    match v
    case VArray(items) =>
      if items == [] { IndentNothing(LBracket, RBracket, depth, rest); } else { IndentArray(items, depth, rest); }
    case VObject(fields) =>
      if fields == [] { IndentNothing(LBrace, RBrace, depth, rest); } else { IndentObject(fields, depth, rest); }
    case _ =>
      OnAtom(Atom(v), rest, depth);
  }

  lemma IndentNothing(a: Token, b: Token, depth: nat, rest: seq<Token>)
    requires Opens(a) && Closes(b)
    ensures Indent([a] + ([b] + rest), false, depth) == [a, b] + Indent(rest, false, depth)
  {
    OnOpen(a, [b] + rest, depth);
    OnClose(b, rest, depth);
    Pair(a, b, Indent(rest, false, depth));
  }

  lemma {:induction false} IndentArray(items: seq<Value>, depth: nat, rest: seq<Token>)
    requires items != []
    ensures Indent(Emit(VArray(items), rest), false, depth) == Print(VArray(items), depth) + Indent(rest, false, depth)
    decreases items, 2
  {
    var body, after := EmitItems(items, true, [RBracket] + rest), Indent(rest, false, depth);
    EmitStarts(items[0], EmitItems(items[1..], false, [RBracket] + rest));
    OpenedBody(LBracket, body, depth);
    IndentItems(items, depth + 1, [RBracket] + rest);
    OnClose(RBracket, rest, depth);
    ArrayLines(items, depth, after);
  }

  lemma OpenedBody(t: Token, body: seq<Token>, depth: nat)
    requires Opens(t) && body != [] && !Closes(body[0])
    ensures Indent([t] + body, false, depth) == [t] + ([Break(depth + 1)] + Indent(body, false, depth + 1))
  {
    OnOpen(t, body, depth);
    OpenedLine(body, depth);
  }

  lemma ArrayLines(items: seq<Value>, depth: nat, ts: seq<Token>)
    requires items != []
    ensures Print(VArray(items), depth) + ts
         == [LBracket] + ([Break(depth + 1)] + (Print(items[0], depth + 1)
              + (PrintItems(items[1..], depth + 1, false) + ([Break(depth)] + ([RBracket] + ts)))))
  {
    BlanksTold(depth);
    FirstItem(items, depth + 1, [NewLine(depth)] + ([RBracket] + ts));
    PrintArrayShape(items, depth, ts);
  }

  lemma ObjectLines(fields: seq<Field>, depth: nat, ts: seq<Token>)
    requires fields != []
    ensures Print(VObject(fields), depth) + ts
         == [LBrace] + ([Break(depth + 1)] + ([Quoted(fields[0].key)] + ([Colon] + ([Space(" ")]
              + (Print(fields[0].value, depth + 1)
              + (PrintFields(fields[1..], depth + 1, false) + ([Break(depth)] + ([RBrace] + ts))))))))
  {
    BlanksTold(depth);
    FirstField(fields, depth + 1, [NewLine(depth)] + ([RBrace] + ts));
    PrintObjectShape(fields, depth, ts);
  }

  lemma {:induction false} IndentObject(fields: seq<Field>, depth: nat, rest: seq<Token>)
    requires fields != []
    ensures Indent(Emit(VObject(fields), rest), false, depth)
         == Print(VObject(fields), depth) + Indent(rest, false, depth)
    decreases fields, 2
  {
    var body, after := EmitFields(fields, true, [RBrace] + rest), Indent(rest, false, depth);
    OpenedBody(LBrace, body, depth);
    IndentFields(fields, depth + 1, [RBrace] + rest);
    OnClose(RBrace, rest, depth);
    ObjectLines(fields, depth, after);
  }

  lemma Pair(a: Token, b: Token, ts: seq<Token>)
    ensures [a] + ([b] + ts) == [a, b] + ts
  {
  }

  /** All items but for the line break before the first. */
  lemma FirstItem(items: seq<Value>, depth: nat, ts: seq<Token>)
    requires items != []
    ensures PrintItems(items, depth, true) + ts
         == [Break(depth)] + (Print(items[0], depth) + (PrintItems(items[1..], depth, false) + ts))
  {
    BlanksTold(depth);
    PrintItemsShape(items, depth, true, ts);
  }

  lemma FirstField(fields: seq<Field>, depth: nat, ts: seq<Token>)
    requires fields != []
    ensures PrintFields(fields, depth, true) + ts
         == [Break(depth)] + ([Quoted(fields[0].key)] + ([Colon] + ([Space(" ")]
              + (Print(fields[0].value, depth) + (PrintFields(fields[1..], depth, false) + ts)))))
  {
    BlanksTold(depth);
    PrintFieldsShape(fields, depth, true, ts);
  }

  lemma {:induction false} IndentItems(items: seq<Value>, depth: nat, rest: seq<Token>)
    requires items != []
    ensures Indent(EmitItems(items, true, rest), false, depth)
         == Print(items[0], depth) + (PrintItems(items[1..], depth, false) + Indent(rest, false, depth))
    decreases items, 0
  {
    var tail := items[1..];
    IndentValue(items[0], depth, EmitItems(tail, false, rest));
    MoreItems(tail, depth, rest);
  }

  lemma {:induction false} MoreItems(items: seq<Value>, depth: nat, rest: seq<Token>)
    ensures Indent(EmitItems(items, false, rest), false, depth)
         == PrintItems(items, depth, false) + Indent(rest, false, depth)
    decreases items, 1
  {
    var after := Indent(rest, false, depth);
    if items == [] {
      assert PrintItems(items, depth, false) + after == after;
    } else {
      OnComma(EmitItems(items, true, rest), depth);
      IndentItems(items, depth, rest);
      PrintItemsShape(items, depth, false, after);
      BlanksTold(depth);
    }
  }

  lemma {:induction false} IndentFields(fields: seq<Field>, depth: nat, rest: seq<Token>)
    requires fields != []
    ensures Indent(EmitFields(fields, true, rest), false, depth)
         == [Quoted(fields[0].key)] + ([Colon] + ([Space(" ")]
              + (Print(fields[0].value, depth)
                 + (PrintFields(fields[1..], depth, false) + Indent(rest, false, depth)))))
    decreases fields, 0
  {
    var tail := EmitFields(fields[1..], false, rest);
    OnAtom(Quoted(fields[0].key), [Colon] + Emit(fields[0].value, tail), depth);
    OnColon(Emit(fields[0].value, tail), depth);
    IndentValue(fields[0].value, depth, tail);
    MoreFields(fields[1..], depth, rest);
  }

  lemma {:induction false} MoreFields(fields: seq<Field>, depth: nat, rest: seq<Token>)
    ensures Indent(EmitFields(fields, false, rest), false, depth)
         == PrintFields(fields, depth, false) + Indent(rest, false, depth)
    decreases fields, 1
  {
    var after := Indent(rest, false, depth);
    if fields == [] {
      assert PrintFields(fields, depth, false) + after == after;
    } else {
      OnComma(EmitFields(fields, true, rest), depth);
      IndentFields(fields, depth, rest);
      PrintFieldsShape(fields, depth, false, after);
      BlanksTold(depth);
    }
  }

  /** The printed form of any value is its compact form, indented in one pass. */
  lemma PrintIsIndented(v: Value)
    ensures Print(v, 0) == Indent(Emit(v, []), false, 0)
  {
    IndentValue(v, 0, []);
    assert Print(v, 0) + [] == Print(v, 0);
  }

  // ----- spelling -------------------------------------------------------

  lemma TokensSpelled()
    ensures Spell(LBrace) == "{" && Spell(RBrace) == "}" && Spell(LBracket) == "[" && Spell(RBracket) == "]"
    ensures Spell(Comma) == "," && Spell(Colon) == ":"
    ensures Spell(Null) == "null" && Spell(True) == "true" && Spell(False) == "false"
    ensures forall s :: Spell(Quoted(s)) == "\"" + EscapeAll(s) + "\"" && Spell(Number(s)) == s
  {
  }

  predicate LowerHex(c: char) {
    '0' <= c <= '9' || 'a' <= c <= 'f'
  }

  /** Characters that are written as they are: none that end or garble a string, and none
      that mean something in HTML or end a line in JavaScript. */
  predicate WrittenPlain(c: char) {
    ' ' <= c && c != '"' && c != '\\' && c != '<' && c != '>' && c != '&' && c != '\U{2028}' && c != '\U{2029}'
  }

  lemma EscapesTold(c: char)
    ensures WrittenPlain(c) <==> Escape(c) == [c]
    ensures c == '"' ==> Escape(c) == "\\\""
    ensures c == '\\' ==> Escape(c) == "\\\\"
    ensures c == '\n' ==> Escape(c) == "\\n"
    ensures c == '\r' ==> Escape(c) == "\\r"
    ensures c == '\t' ==> Escape(c) == "\\t"
    ensures c == '\U{8}' ==> Escape(c) == "\\b"
    ensures c == '\U{C}' ==> Escape(c) == "\\f"
    ensures !WrittenPlain(c) && c != '"' && c != '\\' && c != '\n' && c != '\r' && c != '\t'
            && c != '\U{8}' && c != '\U{C}' ==>
      && |Escape(c)| == 6 && Escape(c)[..2] == "\\u" && ReadHex4(Escape(c)[2..]) == Some(c as int)
      && forall k :: 2 <= k < 6 ==> LowerHex(Escape(c)[k])
  {
    if EscapedByNumber(c) && |Escape(c)| == 6 {
      Hex4Back(c as int, "");
      assert Escape(c)[2..] == Hex4(c as int) && Hex4(c as int) + "" == Hex4(c as int);
      DigitsAreHex(c as int);
    }
  }

  lemma DigitsAreHex(n: nat)
    requires n < 0x10000
    ensures forall k :: 0 <= k < 4 ==> LowerHex(Hex4(n)[k])
  {
    HexIsHex(n / 0x1000);
    HexIsHex(n / 0x100 % 0x10);
    HexIsHex(n / 0x10 % 0x10);
    HexIsHex(n % 0x10);
  }

  lemma HexIsHex(n: nat)
    requires n < 0x10
    ensures LowerHex(HEX[n])
  {
  }

  lemma {:induction false} EscapedInOrder(a: string, b: string)
    ensures EscapeAll(a + b) == EscapeAll(a) + EscapeAll(b)
  {
    if a == "" {
      assert a + b == b;
    } else {
      assert (a + b)[1..] == a[1..] + b;
      EscapedInOrder(a[1..], b);
    }
  }
}
