/** A JSON object in a file, as a map: reading it, and writing it under sorted keys
    (tools/internal/schedulemerge/schedulemerge.go). */
module JsonDocument {
  import opened Ordering
  import opened Json
  import opened JsonText

  // ----- documents ------------------------------------------------------

  type Document = map<string, Value>

  function MapOf(fields: seq<Field>): Document {
    if fields == [] then map[]
    else MapOf(fields[..|fields| - 1])[fields[|fields| - 1].key := fields[|fields| - 1].value]
  }

  function FieldsOf(keys: seq<string>, m: Document): seq<Field>
    requires forall k :: k in keys ==> k in m
  {
    seq(|keys|, i requires 0 <= i < |keys| => Field(keys[i], m[keys[i]]))
  }

  /** Decoding a file into a map: an object, or null for the empty map. */
  function Unmarshal(text: string): Option<Document> {
    var tokens := Lex(text);
    if tokens.None? then None
    else
      var parsed := ParseValue(tokens.value);
      if parsed.None? || parsed.value.1 != [] then None
      else match parsed.value.0
        case VObject(fields) => Some(MapOf(fields))
        case VNull => Some(map[])
        case _ => None
  }

  ghost predicate CanonicalDocument(m: Document) {
    forall k :: k in m ==> Canonical(m[k])
  }

  lemma SortedKeysIn(m: Document)
    ensures forall k :: k in SortedOf(m.Keys) <==> k in m
  {
    forall k ensures k in SortedOf(m.Keys) <==> k in m {
      assert k in SortedOf(m.Keys) <==> k in Elements(SortedOf(m.Keys));
    }
  }

  ghost function Tree(m: Document): Value {
    SortedKeysIn(m);
    VObject(FieldsOf(SortedOf(m.Keys), m))
  }

  /** The canonical text of a document. */
  ghost function Marshal(m: Document): string {
    Text(Print(Tree(m), 0) + [Space("\n")])
  }

  lemma {:induction false} MapOfFields(keys: seq<string>, m: Document)
    requires forall k :: k in keys ==> k in m
    ensures forall k :: Get(MapOf(FieldsOf(keys, m)), k) == if k in keys then Get(m, k) else None
  {
    if keys != [] {
      var n := |keys| - 1;
      assert FieldsOf(keys, m)[..n] == FieldsOf(keys[..n], m);
      MapOfFields(keys[..n], m);
      assert forall k :: k in keys <==> k in keys[..n] || k == keys[n];
    }
  }

  lemma TreeCanonical(m: Document)
    requires CanonicalDocument(m)
    ensures Canonical(Tree(m))
  {
    SortedKeysIn(m);
    assert Keys(FieldsOf(SortedOf(m.Keys), m)) == SortedOf(m.Keys);
  }

  lemma MarshalLexes(m: Document)
    requires CanonicalDocument(m)
    ensures Lex(Marshal(m)) == Some(Emit(Tree(m), []))
  {
    var end := [Space("\n")];
    TreeCanonical(m);
    SignificantCons(Space("\n"), []);
    assert end + [] == end;
    PrintEmits(Tree(m), 0, end);
    WritableCons(Space("\n"), []);
    PrintWritable(Tree(m), 0, end);
    LexText(Print(Tree(m), 0) + end);
  }

  /** Reading back what was written gives the same map. */
  lemma UnmarshalMarshal(m: Document)
    requires CanonicalDocument(m)
    ensures Unmarshal(Marshal(m)) == Some(m)
    ensures !AllBlank(Marshal(m))
  {
    MarshalLexes(m);
    TreeCanonical(m);
    ParseEmitted(Tree(m), []);
    SortedKeysIn(m);
    MapOfFields(SortedOf(m.Keys), m);
    SameLookups(MapOf(FieldsOf(SortedOf(m.Keys), m)), m);
    BlankLexesEmpty(Marshal(m));
  }

  lemma BlankLexesEmpty(s: string)
    ensures AllBlank(s) ==> Lex(s) == Some([])
  {
    if AllBlank(s) {
      LexBlanks(s, "");
      assert s + "" == s;
    }
  }

  /** The text is canonical: it determines the map and is determined by it. */
  lemma MarshalInjective(a: Document, b: Document)
    requires CanonicalDocument(a) && CanonicalDocument(b)
    ensures Marshal(a) == Marshal(b) <==> a == b
  {
    UnmarshalMarshal(a);
    UnmarshalMarshal(b);
  }

  lemma {:induction false} MapOfCanonical(fields: seq<Field>)
    requires forall i :: 0 <= i < |fields| ==> Canonical(fields[i].value)
    ensures CanonicalDocument(MapOf(fields))
  {
    if fields != [] { MapOfCanonical(fields[..|fields| - 1]); }
  }

  lemma UnmarshalCanonical(text: string)
    ensures Unmarshal(text).Some? ==> CanonicalDocument(Unmarshal(text).value)
  {
    if Lex(text).Some? {
      ParsedCanonical(Lex(text).value);
      var parsed := ParseValue(Lex(text).value);
      if parsed.Some? && parsed.value.0.VObject? { MapOfCanonical(parsed.value.0.fields); }
    }
  }

  // ----- printed text can be cut into its tokens ------------------------

  lemma WritableCons(t: Token, ts: seq<Token>)
    requires Writable(ts) && Alone(t) && (t.Number? && ts != [] ==> !ts[0].Number?)
    ensures Writable([t] + ts)
  {
    forall i | 0 <= i < |ts| + 1 ensures WritableAt([t] + ts, i) {
      if i > 0 { assert WritableAt(ts, i - 1); }
    }
  }

  predicate Alone(t: Token) {
    match t
    case Space(blanks) => blanks != "" && AllBlank(blanks)
    case Number(digits) => ValidNumber(digits)
    case _ => true
  }

  lemma {:induction false} BlanksBlank(n: nat)
    ensures AllBlank(Blanks(n))
  {
    if n > 0 { BlanksBlank(n - 1); }
  }

  lemma NewLineAlone(depth: nat)
    ensures Alone(NewLine(depth))
  {
    BlanksBlank(depth);
  }

  /** A list of tokens that may stand behind a value. */
  ghost predicate Behind(ts: seq<Token>) {
    Writable(ts) && (ts != [] ==> !ts[0].Number?)
  }

  lemma BehindCons(t: Token, ts: seq<Token>)
    requires Writable(ts) && Alone(t) && !t.Number?
    ensures Behind([t] + ts)
  {
    WritableCons(t, ts);
  }

  lemma {:induction false} PrintWritable(v: Value, depth: nat, ts: seq<Token>)
    requires Canonical(v) && Behind(ts)
    ensures Writable(Print(v, depth) + ts)
    decreases v
  {
    match v
    case VArray(items) =>
      BehindCons(RBracket, ts);
      if items == [] {
        BehindCons(LBracket, [RBracket] + ts);
        assert Print(v, depth) + ts == [LBracket] + ([RBracket] + ts);
      } else {
        var close := [NewLine(depth)] + ([RBracket] + ts);
        NewLineAlone(depth);
        BehindCons(NewLine(depth), [RBracket] + ts);
        ItemsWritable(items, depth + 1, true, close);
        BehindCons(LBracket, PrintItems(items, depth + 1, true) + close);
        PrintArrayShape(items, depth, ts);
      }
    case VObject(fields) =>
      BehindCons(RBrace, ts);
      if fields == [] {
        BehindCons(LBrace, [RBrace] + ts);
        assert Print(v, depth) + ts == [LBrace] + ([RBrace] + ts);
      } else {
        var close := [NewLine(depth)] + ([RBrace] + ts);
        NewLineAlone(depth);
        BehindCons(NewLine(depth), [RBrace] + ts);
        FieldsWritable(fields, depth + 1, true, close);
        BehindCons(LBrace, PrintFields(fields, depth + 1, true) + close);
        PrintObjectShape(fields, depth, ts);
      }
    case _ =>
      WritableCons(Atom(v), ts);
  }

  lemma {:induction false} ItemsWritable(items: seq<Value>, depth: nat, first: bool, ts: seq<Token>)
    requires Behind(ts) && forall i :: 0 <= i < |items| ==> Canonical(items[i])
    ensures Behind(PrintItems(items, depth, first) + ts)
    decreases items
  {
    if items == [] {
      assert PrintItems(items, depth, first) + ts == ts;
    } else {
      var tail := PrintItems(items[1..], depth, false) + ts;
      ItemsWritable(items[1..], depth, false, ts);
      PrintWritable(items[0], depth, tail);
      LineWritable(depth, first, Print(items[0], depth) + tail);
      PrintItemsShape(items, depth, first, ts);
    }
  }

  lemma LineWritable(depth: nat, first: bool, ts: seq<Token>)
    requires Writable(ts)
    ensures Behind(Comma1(first, [NewLine(depth)] + ts))
  {
    NewLineAlone(depth);
    BehindCons(NewLine(depth), ts);
    BehindCons(Comma, [NewLine(depth)] + ts);
  }

  lemma {:induction false} FieldsWritable(fields: seq<Field>, depth: nat, first: bool, ts: seq<Token>)
    requires Behind(ts) && forall i :: 0 <= i < |fields| ==> Canonical(fields[i].value)
    ensures Behind(PrintFields(fields, depth, first) + ts)
    decreases fields
  {
    if fields == [] {
      assert PrintFields(fields, depth, first) + ts == ts;
    } else {
      var tail := PrintFields(fields[1..], depth, false) + ts;
      var value := Print(fields[0].value, depth) + tail;
      FieldsWritable(fields[1..], depth, false, ts);
      PrintWritable(fields[0].value, depth, tail);
      BehindCons(Space(" "), value);
      BehindCons(Colon, [Space(" ")] + value);
      BehindCons(Quoted(fields[0].key), [Colon] + ([Space(" ")] + value));
      LineWritable(depth, first, [Quoted(fields[0].key)] + ([Colon] + ([Space(" ")] + value)));
      PrintFieldsShape(fields, depth, first, ts);
    }
  }

  // ----- writing --------------------------------------------------------

  /** What is written for one entry, in the pieces in which it is written. */
  function FieldText(f: Field, first: bool): string {
    (if first then "" else ",") + "\n    " + Spell(Quoted(f.key)) + ": " + Text(Print(f.value, 1))
  }

  lemma {:induction false} TextOfOne(t: Token, ts: seq<Token>)
    ensures Text([t] + ts) == Spell(t) + Text(ts)
  {
    assert ([t] + ts)[1..] == ts;
  }

  /** A field's text with its pieces grouped the other way. */
  lemma FieldTextParts(f: Field, first: bool)
    ensures var lead, key, value := if first then "" else ",", Spell(Quoted(f.key)), Text(Print(f.value, 1));
      FieldText(f, first) == lead + ("\n    " + (key + (":" + (" " + value))))
  {
    var lead, key, value := if first then "" else ",", Spell(Quoted(f.key)), Text(Print(f.value, 1));
    assert ": " == ":" + " ";
    Regroup(":", " ", value);
    Regroup(lead + "\n    " + key, ": ", value);
    Regroup(lead + "\n    ", key, ": " + value);
    Regroup(lead, "\n    ", key + (": " + value));
  }

  lemma FieldTextIs(f: Field, first: bool)
    ensures FieldText(f, first) == Text(PrintField(f, 1, first))
  {
    var value := Print(f.value, 1);
    FieldTextParts(f, first);
    FieldTokens(f, first);
    FieldHead(f.key, 1, value);
    NamedText(f.key, value);
    var named := [NewLine(1)] + ([Quoted(f.key)] + ([Colon] + ([Space(" ")] + value)));
    TextOfOne(Comma, named);
    if first { assert "" + Text(named) == Text(named); }
  }

  lemma NamedText(key: string, value: seq<Token>)
    ensures Text([NewLine(1)] + ([Quoted(key)] + ([Colon] + ([Space(" ")] + value))))
         == "\n    " + (Spell(Quoted(key)) + (":" + (" " + Text(value))))
  {
    assert Blanks(1) == Blanks(0) + "    " == "    " && Spell(NewLine(1)) == "\n" + "    " == "\n    ";
    TextOfOne(Space(" "), value);
    TextOfOne(Colon, [Space(" ")] + value);
    TextOfOne(Quoted(key), [Colon] + ([Space(" ")] + value));
    TextOfOne(NewLine(1), [Quoted(key)] + ([Colon] + ([Space(" ")] + value)));
  }

  lemma FieldTokens(f: Field, first: bool)
    ensures PrintField(f, 1, first)
         == Comma1(first, [NewLine(1), Quoted(f.key), Colon, Space(" ")] + Print(f.value, 1))
  {
    var head := [NewLine(1), Quoted(f.key), Colon, Space(" ")];
    Regroup(if first then [] else [Comma], head, Print(f.value, 1));
    assert [] + (head + Print(f.value, 1)) == head + Print(f.value, 1);
  }

  lemma {:induction false} PrintFieldsSnoc(fields: seq<Field>, f: Field, first: bool)
    ensures PrintFields(fields + [f], 1, first)
         == PrintFields(fields, 1, first) + PrintField(f, 1, first && fields == [])
  {
    if fields == [] {
      assert [] + [f] == [f] && [f][1..] == [];
    } else {
      assert (fields + [f])[1..] == fields[1..] + [f];
      PrintFieldsSnoc(fields[1..], f, false);
      Regroup(PrintField(fields[0], 1, first), PrintFields(fields[1..], 1, false), PrintField(f, 1, false));
    }
  }

  function Pieces(fields: seq<Field>): seq<seq<Token>> {
    seq(|fields|, i requires 0 <= i < |fields| => PrintField(fields[i], 1, i == 0))
  }

  function Joined(pieces: seq<seq<Token>>): seq<Token> {
    if pieces == [] then [] else Joined(pieces[..|pieces| - 1]) + pieces[|pieces| - 1]
  }

  lemma {:induction false} PiecesJoined(fields: seq<Field>)
    ensures Joined(Pieces(fields)) == PrintFields(fields, 1, true)
  {
    if fields != [] {
      var front, last := fields[..|fields| - 1], fields[|fields| - 1];
      assert fields == front + [last] && Pieces(fields)[..|front|] == Pieces(front);
      PiecesJoined(front);
      PrintFieldsSnoc(front, last, true);
    }
  }

  /** The text of the first n entries. */
  function FrontText(fields: seq<Field>, n: nat): string
    requires n <= |fields|
  {
    Text(Joined(Pieces(fields)[..n]))
  }

  lemma FrontTextNext(fields: seq<Field>, n: nat)
    requires n < |fields|
    ensures FrontText(fields, n + 1) == FrontText(fields, n) + FieldText(fields[n], n == 0)
  {
    var pieces := Pieces(fields);
    assert pieces[..n + 1][..n] == pieces[..n];
    EntryAppended(Joined(pieces[..n]), fields[n], n == 0);
  }

  lemma FrontTextAll(fields: seq<Field>)
    ensures FrontText(fields, |fields|) == Text(PrintFields(fields, 1, true))
  {
    assert Pieces(fields)[..|fields|] == Pieces(fields);
    PiecesJoined(fields);
  }

  lemma EntryAppended(before: seq<Token>, f: Field, first: bool)
    ensures Text(before + PrintField(f, 1, first)) == Text(before) + FieldText(f, first)
  {
    FieldTextIs(f, first);
    TextAppend(before, PrintField(f, 1, first));
  }

  lemma WrittenEmpty()
    ensures "{" + "}" + "\n" == Text(Print(VObject([]), 0) + [Space("\n")])
  {
    var end := [RBrace] + [Space("\n")];
    EndText();
    TextOfOne(LBrace, end);
    assert Print(VObject([]), 0) + [Space("\n")] == [LBrace] + end;
    Regroup("{", "}", "\n");
  }

  lemma EndText()
    ensures Text([RBrace] + [Space("\n")]) == "}" + "\n"
  {
    TextOfOne(Space("\n"), []);
    TextOfOne(RBrace, [Space("\n")]);
    assert [Space("\n")] + [] == [Space("\n")] && "\n" + "" == "\n";
  }

  /** What surrounds the entries of a document. */
  function Frame(entries: seq<Token>): seq<Token> {
    [LBrace] + (entries + ([NewLine(0)] + ([RBrace] + [Space("\n")])))
  }

  lemma BracedText(body: seq<Token>, end: seq<Token>)
    ensures Text([LBrace] + (body + end)) == "{" + (Text(body) + Text(end))
  {
    TextOfOne(LBrace, body + end);
    TextAppend(body, end);
  }

  lemma LastLineText()
    ensures Text([NewLine(0)] + ([RBrace] + [Space("\n")])) == "\n" + ("}" + "\n")
  {
    EndText();
    TextOfOne(NewLine(0), [RBrace] + [Space("\n")]);
    assert Blanks(0) == "" && Spell(NewLine(0)) == "\n" + "" == "\n";
  }

  lemma FrameText(entries: seq<Token>)
    ensures Text(Frame(entries)) == "{" + Text(entries) + "\n" + "}" + "\n"
  {
    var body := Text(entries);
    BracedText(entries, [NewLine(0)] + ([RBrace] + [Space("\n")]));
    LastLineText();
    Regroup("{" + body + "\n", "}", "\n");
    Regroup("{" + body, "\n", "}" + "\n");
    Regroup("{", body, "\n" + ("}" + "\n"));
  }

  lemma ObjectFrame(fields: seq<Field>)
    requires fields != []
    ensures Print(VObject(fields), 0) + [Space("\n")] == Frame(PrintFields(fields, 1, true))
  {
    PrintObjectShape(fields, 0, [Space("\n")]);
  }

  /** Prints the entries of a map under their sorted keys, one after another. */
  method MarshalSorted(m: Document) returns (text: string)
    ensures text == Marshal(m)
  {
    var keys := SortKeys(m.Keys);
    SortedKeysIn(m);
    var entries := WriteEntries(keys, m);
    text := "{" + entries;
    if |keys| > 0 {
      ObjectFrame(FieldsOf(keys, m));
      FrameText(PrintFields(FieldsOf(keys, m), 1, true));
      text := text + "\n";
    } else {
      WrittenEmpty();
      assert FieldsOf(keys, m) == [] && text == "{";
    }
    text := text + "}";
    text := text + "\n";
  }

  method WriteEntries(keys: seq<string>, m: Document) returns (text: string)
    requires forall k :: k in keys ==> k in m
    ensures text == Text(PrintFields(FieldsOf(keys, m), 1, true))
  {
    ghost var fields := FieldsOf(keys, m);
    text := "";
    for i := 0 to |keys|
      invariant text == FrontText(fields, i)
    {
      FrontTextNext(fields, i);
      text := text + FieldText(Field(keys[i], m[keys[i]]), i == 0);
    }
    FrontTextAll(fields);
  }
}
