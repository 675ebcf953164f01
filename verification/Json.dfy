/** The part of JSON that the schedule merge depends on: decoding into trees with
    sorted object keys, and Go's indented printing (`json.Marshal` followed by
    `json.Indent`), both over tokens. */
module Json {
  import opened Ordering

  datatype Token =
    | LBrace | RBrace | LBracket | RBracket | Comma | Colon
    | Quoted(text: string)
    | Number(digits: string)
    | Null | True | False
    | Space(blanks: string)

  /** A decoded value. An object is the list of its fields in key order, which is
      how Go prints a map. */
  datatype Value =
    | VNull
    | VBool(on: bool)
    | VNumber(digits: string)
    | VString(text: string)
    | VArray(items: seq<Value>)
    | VObject(fields: seq<Field>)

  datatype Field = Field(key: string, value: Value)

  function Keys(fields: seq<Field>): seq<string> {
    seq(|fields|, i requires 0 <= i < |fields| => fields[i].key)
  }

  // ----- numbers --------------------------------------------------------

  predicate IsDigit(c: char) {
    '0' <= c <= '9'
  }

  predicate IsNumberChar(c: char) {
    IsDigit(c) || c == '-' || c == '+' || c == '.' || c == 'e' || c == 'E'
  }

  /** The number of leading characters for which p holds. */
  function Run(s: string, p: char -> bool): (n: nat)
    ensures n <= |s| && (forall i :: 0 <= i < n ==> p(s[i])) && (n < |s| ==> !p(s[n]))
  {
    if s == "" || !p(s[0]) then 0 else 1 + Run(s[1..], p)
  }

  predicate Digits1(s: string) {
    s != "" && forall i :: 0 <= i < |s| ==> IsDigit(s[i])
  }

  predicate ValidExponent(s: string) {
    s == "" || ((s[0] == 'e' || s[0] == 'E')
                && Digits1(if |s| > 1 && (s[1] == '+' || s[1] == '-') then s[2..] else s[1..]))
  }

  predicate ValidFraction(s: string) {
    if s != "" && s[0] == '.' then
      var n := Run(s[1..], IsDigit);
      n > 0 && ValidExponent(s[1 + n..])
    else ValidExponent(s)
  }

  predicate ValidUnsigned(s: string) {
    var n := Run(s, IsDigit);
    n > 0 && (s[0] == '0' ==> n == 1) && ValidFraction(s[n..])
  }

  /** A number as JSON writes it. */
  predicate ValidNumber(s: string) {
    && (forall i :: 0 <= i < |s| ==> IsNumberChar(s[i]))
    && s != "" && if s[0] == '-' then ValidUnsigned(s[1..]) else ValidUnsigned(s)
  }

  // ----- trees ----------------------------------------------------------

  /** Every object in the tree has its keys in strictly ascending order, and every
      number is one. */
  ghost predicate Canonical(v: Value) {
    match v
    case VArray(items) => forall i :: 0 <= i < |items| ==> Canonical(items[i])
    case VObject(fields) =>
      StrictlySorted(Keys(fields)) && forall i :: 0 <= i < |fields| ==> Canonical(fields[i].value)
    case VNumber(digits) => ValidNumber(digits)
    case _ => true
  }

  // ----- printing -------------------------------------------------------

  function Blanks(n: nat): string {
    if n == 0 then "" else Blanks(n - 1) + "    "
  }

  function NewLine(depth: nat): Token {
    Space("\n" + Blanks(depth))
  }

  function Atom(v: Value): Token {
    match v
    case VBool(on) => if on then True else False
    case VNumber(digits) => Number(digits)
    case VString(text) => Quoted(text)
    case _ => Null
  }

  function Print(v: Value, depth: nat): seq<Token> {
    match v
    case VArray(items) =>
      if items == [] then [LBracket, RBracket]
      else [LBracket] + PrintItems(items, depth + 1, true) + [NewLine(depth), RBracket]
    case VObject(fields) =>
      if fields == [] then [LBrace, RBrace]
      else [LBrace] + PrintFields(fields, depth + 1, true) + [NewLine(depth), RBrace]
    case _ => [Atom(v)]
  }

  function PrintItems(items: seq<Value>, depth: nat, first: bool): seq<Token> {
    if items == [] then []
    else
      (if first then [] else [Comma]) + [NewLine(depth)] + Print(items[0], depth)
      + PrintItems(items[1..], depth, false)
  }

  function PrintField(f: Field, depth: nat, first: bool): seq<Token> {
    (if first then [] else [Comma]) + [NewLine(depth), Quoted(f.key), Colon, Space(" ")] + Print(f.value, depth)
  }

  function PrintFields(fields: seq<Field>, depth: nat, first: bool): seq<Token> {
    if fields == [] then []
    else PrintField(fields[0], depth, first) + PrintFields(fields[1..], depth, false)
  }

  // ----- the tokens that matter -----------------------------------------

  function Significant(ts: seq<Token>): seq<Token> {
    if ts == [] then []
    else if ts[0].Space? then Significant(ts[1..])
    else [ts[0]] + Significant(ts[1..])
  }

  lemma SignificantCons(t: Token, ts: seq<Token>)
    ensures Significant([t] + ts) == if t.Space? then Significant(ts) else [t] + Significant(ts)
  {
    assert ([t] + ts)[1..] == ts;
  }

  /** The significant tokens of a value, in front of what follows it. */
  function Emit(v: Value, rest: seq<Token>): seq<Token> {
    match v
    case VArray(items) => [LBracket] + EmitItems(items, true, [RBracket] + rest)
    case VObject(fields) => [LBrace] + EmitFields(fields, true, [RBrace] + rest)
    case _ => [Atom(v)] + rest
  }

  function Comma1(first: bool, ts: seq<Token>): seq<Token> {
    if first then ts else [Comma] + ts
  }

  function EmitItems(items: seq<Value>, first: bool, rest: seq<Token>): seq<Token> {
    if items == [] then rest
    else Comma1(first, Emit(items[0], EmitItems(items[1..], false, rest)))
  }

  function EmitFields(fields: seq<Field>, first: bool, rest: seq<Token>): seq<Token> {
    if fields == [] then rest
    else
      Comma1(first, [Quoted(fields[0].key)] + ([Colon] + Emit(fields[0].value, EmitFields(fields[1..], false, rest))))
  }

  lemma PrintArrayShape(items: seq<Value>, depth: nat, ts: seq<Token>)
    requires items != []
    ensures Print(VArray(items), depth) + ts
         == [LBracket] + (PrintItems(items, depth + 1, true) + ([NewLine(depth)] + ([RBracket] + ts)))
  {
  }

  lemma PrintObjectShape(fields: seq<Field>, depth: nat, ts: seq<Token>)
    requires fields != []
    ensures Print(VObject(fields), depth) + ts
         == [LBrace] + (PrintFields(fields, depth + 1, true) + ([NewLine(depth)] + ([RBrace] + ts)))
  {
  }

  lemma Regroup<T>(a: seq<T>, b: seq<T>, c: seq<T>)
    ensures (a + b) + c == a + (b + c)
  {
  }

  lemma PrintItemsShape(items: seq<Value>, depth: nat, first: bool, ts: seq<Token>)
    requires items != []
    ensures PrintItems(items, depth, first) + ts
         == Comma1(first, [NewLine(depth)] + (Print(items[0], depth) + (PrintItems(items[1..], depth, false) + ts)))
  {
    var lead, line := if first then [] else [Comma], [NewLine(depth)];
    var value, tail := Print(items[0], depth), PrintItems(items[1..], depth, false);
    Regroup(lead + line + value, tail, ts);
    Regroup(lead + line, value, tail + ts);
    Regroup(lead, line, value + (tail + ts));
    assert [] + (line + (value + (tail + ts))) == line + (value + (tail + ts));
  }

  lemma PrintFieldsShape(fields: seq<Field>, depth: nat, first: bool, ts: seq<Token>)
    requires fields != []
    ensures PrintFields(fields, depth, first) + ts
         == Comma1(first, [NewLine(depth)] + ([Quoted(fields[0].key)] + ([Colon] + ([Space(" ")]
              + (Print(fields[0].value, depth) + (PrintFields(fields[1..], depth, false) + ts))))))
  {
    var lead, head := if first then [] else [Comma], [NewLine(depth), Quoted(fields[0].key), Colon, Space(" ")];
    var value, tail := Print(fields[0].value, depth), PrintFields(fields[1..], depth, false);
    Regroup(lead + head + value, tail, ts);
    Regroup(lead + head, value, tail + ts);
    Regroup(lead, head, value + (tail + ts));
    FieldHead(fields[0].key, depth, value + (tail + ts));
    assert [] + (head + (value + (tail + ts))) == head + (value + (tail + ts));
  }

  lemma FieldHead(key: string, depth: nat, ts: seq<Token>)
    ensures [NewLine(depth), Quoted(key), Colon, Space(" ")] + ts
         == [NewLine(depth)] + ([Quoted(key)] + ([Colon] + ([Space(" ")] + ts)))
  {
  }

  lemma EmptyEmits(open: Token, close: Token, ts: seq<Token>)
    requires !open.Space? && !close.Space?
    ensures Significant([open, close] + ts) == [open] + ([close] + Significant(ts))
  {
    assert [open, close] + ts == [open] + ([close] + ts);
    SignificantCons(close, ts);
    SignificantCons(open, [close] + ts);
  }

  /** Indentation only adds white space. */
  lemma {:induction false} PrintEmits(v: Value, depth: nat, ts: seq<Token>)
    ensures Significant(Print(v, depth) + ts) == Emit(v, Significant(ts))
    decreases v
  {
    match v
    case VArray(items) =>
      SignificantCons(RBracket, ts);
      if items == [] {
        EmptyEmits(LBracket, RBracket, ts);
      } else {
        var close := [NewLine(depth)] + ([RBracket] + ts);
        PrintArrayShape(items, depth, ts);
        SignificantCons(NewLine(depth), [RBracket] + ts);
        SignificantCons(LBracket, PrintItems(items, depth + 1, true) + close);
        PrintItemsEmit(items, depth + 1, true, close);
      }
    case VObject(fields) =>
      SignificantCons(RBrace, ts);
      if fields == [] {
        EmptyEmits(LBrace, RBrace, ts);
      } else {
        var close := [NewLine(depth)] + ([RBrace] + ts);
        PrintObjectShape(fields, depth, ts);
        SignificantCons(NewLine(depth), [RBrace] + ts);
        SignificantCons(LBrace, PrintFields(fields, depth + 1, true) + close);
        PrintFieldsEmit(fields, depth + 1, true, close);
      }
    case _ =>
      SignificantCons(Atom(v), ts);
  }

  lemma {:induction false} PrintItemsEmit(items: seq<Value>, depth: nat, first: bool, ts: seq<Token>)
    ensures Significant(PrintItems(items, depth, first) + ts) == EmitItems(items, first, Significant(ts))
    decreases items
  {
    if items == [] {
      assert PrintItems(items, depth, first) + ts == ts;
    } else {
      var tail := PrintItems(items[1..], depth, false) + ts;
      var value := Print(items[0], depth) + tail;
      PrintItemsShape(items, depth, first, ts);
      SignificantCons(Comma, [NewLine(depth)] + value);
      SignificantCons(NewLine(depth), value);
      PrintEmits(items[0], depth, tail);
      PrintItemsEmit(items[1..], depth, false, ts);
    }
  }

  lemma {:induction false} PrintFieldsEmit(fields: seq<Field>, depth: nat, first: bool, ts: seq<Token>)
    ensures Significant(PrintFields(fields, depth, first) + ts) == EmitFields(fields, first, Significant(ts))
    decreases fields
  {
    if fields == [] {
      assert PrintFields(fields, depth, first) + ts == ts;
    } else {
      var f := fields[0];
      var tail := PrintFields(fields[1..], depth, false) + ts;
      var value := Print(f.value, depth) + tail;
      var colon := [Colon] + ([Space(" ")] + value);
      var named := [NewLine(depth)] + ([Quoted(f.key)] + colon);
      PrintFieldsShape(fields, depth, first, ts);
      SignificantCons(Comma, named);
      SignificantCons(NewLine(depth), [Quoted(f.key)] + colon);
      SignificantCons(Quoted(f.key), colon);
      SignificantCons(Colon, [Space(" ")] + value);
      SignificantCons(Space(" "), value);
      PrintEmits(f.value, depth, tail);
      PrintFieldsEmit(fields[1..], depth, false, ts);
    }
  }

  // ----- parsing --------------------------------------------------------

  /** Sets one key of an object; a repeated key overwrites. */
  function Put(fields: seq<Field>, f: Field): seq<Field> {
    if fields == [] then [f]
    else
      var n := |fields| - 1;
      if fields[n].key == f.key then fields[..n] + [f]
      else if Less(fields[n].key, f.key) then fields + [f]
      else Put(fields[..n], f) + [fields[n]]
  }

  function Collect(fields: seq<Field>): seq<Field> {
    if fields == [] then [] else Put(Collect(fields[..|fields| - 1]), fields[|fields| - 1])
  }

  /** A value at the front of the tokens, and what follows it. */
  function ParseValue(ts: seq<Token>): (r: Option<(Value, seq<Token>)>)
    ensures r.Some? ==> |r.value.1| < |ts|
    decreases |ts|, 0
  {
    if ts == [] then None
    else match ts[0]
      case Null => Some((VNull, ts[1..]))
      case True => Some((VBool(true), ts[1..]))
      case False => Some((VBool(false), ts[1..]))
      case Number(digits) => if ValidNumber(digits) then Some((VNumber(digits), ts[1..])) else None
      case Quoted(text) => Some((VString(text), ts[1..]))
      case LBracket =>
        if |ts| > 1 && ts[1].RBracket? then Some((VArray([]), ts[2..]))
        else
          var items := ParseItems(ts[1..]);
          if items.None? then None else Some((VArray(items.value.0), items.value.1))
      case LBrace =>
        if |ts| > 1 && ts[1].RBrace? then Some((VObject([]), ts[2..]))
        else
          var fields := ParseFields(ts[1..]);
          if fields.None? then None else Some((VObject(Collect(fields.value.0)), fields.value.1))
      case _ => None
  }

  function ParseItems(ts: seq<Token>): (r: Option<(seq<Value>, seq<Token>)>)
    ensures r.Some? ==> |r.value.1| < |ts|
    decreases |ts|, 1
  {
    var v := ParseValue(ts);
    if v.None? || v.value.1 == [] then None
    else match v.value.1[0]
      case RBracket => Some(([v.value.0], v.value.1[1..]))
      case Comma =>
        var rest := ParseItems(v.value.1[1..]);
        if rest.None? then None else Some(([v.value.0] + rest.value.0, rest.value.1))
      case _ => None
  }

  function ParseFields(ts: seq<Token>): (r: Option<(seq<Field>, seq<Token>)>)
    ensures r.Some? ==> |r.value.1| < |ts|
    decreases |ts|, 1
  {
    if |ts| < 2 || !ts[0].Quoted? || !ts[1].Colon? then None
    else
      var v := ParseValue(ts[2..]);
      if v.None? || v.value.1 == [] then None
      else
        var f := Field(ts[0].text, v.value.0);
        match v.value.1[0]
        case RBrace => Some(([f], v.value.1[1..]))
        case Comma =>
          var rest := ParseFields(v.value.1[1..]);
          if rest.None? then None else Some(([f] + rest.value.0, rest.value.1))
        case _ => None
  }

  lemma ElementsSnoc(s: seq<string>, x: string)
    ensures Elements(s + [x]) == Elements(s) + {x}
  {
  }

  lemma AppendSorted(keys: seq<string>, x: string)
    requires StrictlySorted(keys) && forall k :: k in keys ==> Less(k, x)
    ensures StrictlySorted(keys + [x])
  {
  }

  lemma KeysSnoc(fields: seq<Field>, f: Field)
    ensures Keys(fields + [f]) == Keys(fields) + [f.key]
    ensures Elements(Keys(fields + [f])) == Elements(Keys(fields)) + {f.key}
  {
    assert Keys(fields + [f]) == Keys(fields) + [f.key];
    ElementsSnoc(Keys(fields), f.key);
  }

  lemma {:induction false} PutSorted(fields: seq<Field>, f: Field)
    requires StrictlySorted(Keys(fields))
    ensures StrictlySorted(Keys(Put(fields, f)))
    ensures Elements(Keys(Put(fields, f))) == Elements(Keys(fields)) + {f.key}
    ensures forall x :: x in Put(fields, f) ==> x in fields || x == f
  {
    if fields == [] {
      assert fields + [f] == [f];
      KeysSnoc(fields, f);
    } else {
      var n := |fields| - 1;
      var front, last := fields[..n], fields[n];
      assert fields == front + [last];
      KeysSnoc(front, last);
      assert StrictlySorted(Keys(front)) && forall k :: k in Keys(front) ==> Less(k, last.key) by {
        assert Keys(front) == Keys(fields)[..n] && Keys(fields)[n] == last.key;
      }
      if last.key == f.key {
        KeysSnoc(front, f);
        AppendSorted(Keys(front), f.key);
      } else if Less(last.key, f.key) {
        KeysSnoc(fields, f);
        forall k | k in Keys(fields) ensures Less(k, f.key) {
          if k != last.key { LessTransitive(k, last.key, f.key); }
        }
        AppendSorted(Keys(fields), f.key);
      } else {
        LessTotal(last.key, f.key);
        PutSorted(front, f);
        KeysSnoc(Put(front, f), last);
        forall k | k in Keys(Put(front, f)) ensures Less(k, last.key) {
          assert k in Elements(Keys(Put(front, f)));
          assert k != f.key ==> k in Elements(Keys(front));
        }
        AppendSorted(Keys(Put(front, f)), last.key);
      }
    }
  }

  lemma {:induction false} CollectCanonical(fields: seq<Field>)
    requires forall i :: 0 <= i < |fields| ==> Canonical(fields[i].value)
    ensures Canonical(VObject(Collect(fields)))
  {
    if fields != [] {
      var n := |fields| - 1;
      CollectCanonical(fields[..n]);
      PutSorted(Collect(fields[..n]), fields[n]);
      forall i | 0 <= i < |Collect(fields)| ensures Canonical(Collect(fields)[i].value) {
        assert Collect(fields)[i] in Put(Collect(fields[..n]), fields[n]);
      }
    }
  }

  /** What is parsed is canonical. */
  lemma {:induction false} ParsedCanonical(ts: seq<Token>)
    ensures ParseValue(ts).Some? ==> Canonical(ParseValue(ts).value.0)
    decreases |ts|, 0
  {
    if ts != [] {
      if ts[0].LBracket? { ParsedItemsCanonical(ts[1..]); }
      if ts[0].LBrace? {
        ParsedFieldsCanonical(ts[1..]);
        var fields := ParseFields(ts[1..]);
        if fields.Some? { CollectCanonical(fields.value.0); }
        assert Canonical(VObject([]));
      }
    }
  }

  lemma {:induction false} ParsedItemsCanonical(ts: seq<Token>)
    ensures ParseItems(ts).Some? ==>
      forall i :: 0 <= i < |ParseItems(ts).value.0| ==> Canonical(ParseItems(ts).value.0[i])
    decreases |ts|, 1
  {
    ParsedCanonical(ts);
    var v := ParseValue(ts);
    if v.Some? && v.value.1 != [] { ParsedItemsCanonical(v.value.1[1..]); }
  }

  lemma {:induction false} ParsedFieldsCanonical(ts: seq<Token>)
    ensures ParseFields(ts).Some? ==>
      forall i :: 0 <= i < |ParseFields(ts).value.0| ==> Canonical(ParseFields(ts).value.0[i].value)
    decreases |ts|, 1
  {
    if |ts| >= 2 {
      ParsedCanonical(ts[2..]);
      var v := ParseValue(ts[2..]);
      if v.Some? && v.value.1 != [] { ParsedFieldsCanonical(v.value.1[1..]); }
    }
  }

  lemma {:induction false} CollectSorted(fields: seq<Field>)
    requires StrictlySorted(Keys(fields))
    ensures Collect(fields) == fields
  {
    if fields != [] {
      var n := |fields| - 1;
      assert Keys(fields[..n]) == Keys(fields)[..n];
      CollectSorted(fields[..n]);
      if n > 0 {
        assert Less(Keys(fields)[n - 1], Keys(fields)[n]);
        LessIrreflexive(fields[n].key);
      }
      assert fields == fields[..n] + [fields[n]];
    }
  }

  /** Parsing gives back what was printed, whatever follows. */
  lemma {:induction false} ParseEmitted(v: Value, rest: seq<Token>)
    requires Canonical(v)
    ensures ParseValue(Emit(v, rest)) == Some((v, rest))
    decreases v
  {
    match v
    case VArray(items) =>
      if items == [] {
        assert Emit(v, rest)[2..] == rest;
      } else {
        ParseEmittedItems(items, rest);
        EmitStarts(items[0], EmitItems(items[1..], false, [RBracket] + rest));
      }
    case VObject(fields) =>
      if fields == [] {
        assert Emit(v, rest)[2..] == rest;
      } else {
        ParseEmittedFields(fields, rest);
        CollectSorted(fields);
      }
    case _ =>
  }

  lemma EmitStarts(v: Value, rest: seq<Token>)
    ensures Emit(v, rest) != [] && !Emit(v, rest)[0].RBracket?
  {
  }

  lemma {:induction false} ParseEmittedItems(items: seq<Value>, rest: seq<Token>)
    requires items != [] && forall i :: 0 <= i < |items| ==> Canonical(items[i])
    ensures ParseItems(EmitItems(items, true, [RBracket] + rest)) == Some((items, rest))
    decreases items
  {
    var tail := EmitItems(items[1..], false, [RBracket] + rest);
    ParseEmitted(items[0], tail);
    assert items == [items[0]] + items[1..];
    if |items| > 1 {
      ParseEmittedItems(items[1..], rest);
      assert tail[1..] == EmitItems(items[1..], true, [RBracket] + rest);
    } else {
      assert tail[1..] == rest && items == [items[0]];
    }
  }

  lemma {:induction false} ParseEmittedFields(fields: seq<Field>, rest: seq<Token>)
    requires fields != [] && forall i :: 0 <= i < |fields| ==> Canonical(fields[i].value)
    ensures ParseFields(EmitFields(fields, true, [RBrace] + rest)) == Some((fields, rest))
    decreases fields
  {
    var tail := EmitFields(fields[1..], false, [RBrace] + rest);
    ParseEmitted(fields[0].value, tail);
    assert EmitFields(fields, true, [RBrace] + rest)[2..] == Emit(fields[0].value, tail);
    assert fields == [fields[0]] + fields[1..];
    if |fields| > 1 {
      ParseEmittedFields(fields[1..], rest);
      assert tail[1..] == EmitFields(fields[1..], true, [RBrace] + rest);
    } else {
      assert tail[1..] == rest && fields == [fields[0]];
    }
  }
}
