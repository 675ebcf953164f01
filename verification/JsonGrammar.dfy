/** Exactly which sequences of tokens are read as a value, and as which: those that spell a
    tree, whatever the order of its keys and however often one is repeated. */
module JsonGrammar {
  import opened Ordering
  import opened Json
  import opened JsonDocument

  // ----- trees as they are spelled --------------------------------------

  /** Every number of the tree is one. */
  ghost predicate Spellable(v: Value) {
    match v
    case VArray(items) => forall i :: 0 <= i < |items| ==> Spellable(items[i])
    case VObject(fields) => forall i :: 0 <= i < |fields| ==> Spellable(fields[i].value)
    case VNumber(digits) => ValidNumber(digits)
    case _ => true
  }

  /** The tree with the keys of every object sorted, the last of equal ones kept. */
  function Settled(v: Value): Value {
    match v
    case VArray(items) => VArray(SettledItems(items))
    case VObject(fields) => VObject(Collect(SettledFields(fields)))
    case _ => v
  }

  function SettledItems(items: seq<Value>): seq<Value> {
    if items == [] then [] else [Settled(items[0])] + SettledItems(items[1..])
  }

  function SettledFields(fields: seq<Field>): seq<Field> {
    if fields == [] then [] else [Field(fields[0].key, Settled(fields[0].value))] + SettledFields(fields[1..])
  }

  // ----- everything spelled is read -------------------------------------

  lemma NothingSpelled(rest: seq<Token>)
    ensures ParseValue([LBracket] + ([RBracket] + rest)) == Some((VArray([]), rest))
    ensures ParseValue([LBrace] + ([RBrace] + rest)) == Some((VObject([]), rest))
  {
    assert ([LBracket] + ([RBracket] + rest))[2..] == rest && ([LBrace] + ([RBrace] + rest))[2..] == rest;
  }

  lemma {:induction false} SpelledIsRead(v: Value, rest: seq<Token>)
    requires Spellable(v)
    ensures ParseValue(Emit(v, rest)) == Some((Settled(v), rest))
    decreases v
  {
    NothingSpelled(rest);
    match v
    case VArray(items) =>
      if items != [] {
        SpelledItems(items, rest);
        EmitStarts(items[0], EmitItems(items[1..], false, [RBracket] + rest));
      }
    case VObject(fields) =>
      if fields != [] { SpelledFields(fields, rest); }
    case _ =>
  }

  lemma {:induction false} SpelledItems(items: seq<Value>, rest: seq<Token>)
    requires items != [] && forall i :: 0 <= i < |items| ==> Spellable(items[i])
    ensures ParseItems(EmitItems(items, true, [RBracket] + rest)) == Some((SettledItems(items), rest))
    decreases items
  {
    var tail := EmitItems(items[1..], false, [RBracket] + rest);
    SpelledIsRead(items[0], tail);
    if |items| > 1 {
      SpelledItems(items[1..], rest);
      assert tail[1..] == EmitItems(items[1..], true, [RBracket] + rest);
    } else {
      assert tail[1..] == rest && SettledItems(items) == [Settled(items[0])] + SettledItems([]);
      assert SettledItems(items) == [Settled(items[0])];
    }
  }

  lemma {:induction false} SpelledFields(fields: seq<Field>, rest: seq<Token>)
    requires fields != [] && forall i :: 0 <= i < |fields| ==> Spellable(fields[i].value)
    ensures ParseFields(EmitFields(fields, true, [RBrace] + rest)) == Some((SettledFields(fields), rest))
    decreases fields
  {
    var tail := EmitFields(fields[1..], false, [RBrace] + rest);
    SpelledIsRead(fields[0].value, tail);
    assert EmitFields(fields, true, [RBrace] + rest)[2..] == Emit(fields[0].value, tail);
    if |fields| > 1 {
      SpelledFields(fields[1..], rest);
      assert tail[1..] == EmitFields(fields[1..], true, [RBrace] + rest);
    } else {
      var f := Field(fields[0].key, Settled(fields[0].value));
      assert tail[1..] == rest && SettledFields(fields) == [f] + SettledFields([]);
      assert SettledFields(fields) == [f];
    }
  }

  // ----- everything read is spelled -------------------------------------

  ghost predicate Spells(ts: seq<Token>, v: Value, rest: seq<Token>) {
    Spellable(v) && Emit(v, rest) == ts
  }

  lemma {:induction false} ReadIsSpelled(ts: seq<Token>) returns (v: Value)
    requires ParseValue(ts).Some?
    ensures Spells(ts, v, ParseValue(ts).value.1) && Settled(v) == ParseValue(ts).value.0
    decreases |ts|, 0
  {
    var rest := ParseValue(ts).value.1;
    assert ts == [ts[0]] + ts[1..];
    match ts[0]
    case LBracket =>
      if |ts| > 1 && ts[1].RBracket? {
        v := VArray([]);
        assert ts == [LBracket] + ([RBracket] + ts[2..]);
      } else {
        var items := ReadItems(ts[1..]);
        v := VArray(items);
      }
    case LBrace =>
      if |ts| > 1 && ts[1].RBrace? {
        v := VObject([]);
        assert ts == [LBrace] + ([RBrace] + ts[2..]);
      } else {
        var fields := ReadFields(ts[1..]);
        v := VObject(fields);
      }
    case Null => v := VNull;
    case True => v := VBool(true);
    case False => v := VBool(false);
    case Number(digits) => v := VNumber(digits);
    case Quoted(text) => v := VString(text);
    case _ => assert false;
  }

  lemma {:induction false} ReadItems(ts: seq<Token>) returns (items: seq<Value>)
    requires ParseItems(ts).Some?
    ensures items != [] && forall i :: 0 <= i < |items| ==> Spellable(items[i])
    ensures EmitItems(items, true, [RBracket] + ParseItems(ts).value.1) == ts
    ensures SettledItems(items) == ParseItems(ts).value.0
    decreases |ts|, 1
  {
    var first := ReadIsSpelled(ts);
    var after := ParseValue(ts).value.1;
    assert after == [after[0]] + after[1..];
    if after[0].RBracket? {
      items := [first];
      assert items[1..] == [];
    } else {
      var more := ReadItems(after[1..]);
      items := [first] + more;
      assert items[1..] == more;
    }
  }

  lemma {:induction false} ReadFields(ts: seq<Token>) returns (fields: seq<Field>)
    requires ParseFields(ts).Some?
    ensures fields != [] && forall i :: 0 <= i < |fields| ==> Spellable(fields[i].value)
    ensures EmitFields(fields, true, [RBrace] + ParseFields(ts).value.1) == ts
    ensures SettledFields(fields) == ParseFields(ts).value.0
    decreases |ts|, 1
  {
    var first := ReadIsSpelled(ts[2..]);
    var after := ParseValue(ts[2..]).value.1;
    assert ts == [ts[0]] + ([ts[1]] + ts[2..]) && after == [after[0]] + after[1..];
    var f := Field(ts[0].text, first);
    if after[0].RBrace? {
      fields := [f];
      OneField(f, after);
    } else {
      var more := ReadFields(after[1..]);
      fields := [f] + more;
      MoreFields(f, more, [RBrace] + ParseFields(ts).value.1);
    }
  }

  lemma OneField(f: Field, rest: seq<Token>)
    ensures EmitFields([f], true, rest) == [Quoted(f.key)] + ([Colon] + Emit(f.value, rest))
    ensures SettledFields([f]) == [Field(f.key, Settled(f.value))]
  {
    assert [f][1..] == [] && SettledFields([f]) == [Field(f.key, Settled(f.value))] + SettledFields([]);
  }

  lemma MoreFields(f: Field, more: seq<Field>, rest: seq<Token>)
    requires more != []
    ensures EmitFields([f] + more, true, rest)
         == [Quoted(f.key)] + ([Colon] + Emit(f.value, [Comma] + EmitFields(more, true, rest)))
    ensures SettledFields([f] + more) == [Field(f.key, Settled(f.value))] + SettledFields(more)
  {
    assert ([f] + more)[1..] == more;
  }

  /** Tokens are read as a value, with what follows it, iff they spell a tree that settles to
      it. So nothing else is accepted: no missing or trailing comma, no key that is not a
      string, no number that is none. */
  lemma ParsesIff(ts: seq<Token>, value: Value, rest: seq<Token>)
    ensures ParseValue(ts) == Some((value, rest)) <==> exists v :: Spells(ts, v, rest) && Settled(v) == value
  {
    if ParseValue(ts) == Some((value, rest)) {
      var v := ReadIsSpelled(ts);
      assert Spells(ts, v, rest);
    }
    if v :| Spells(ts, v, rest) && Settled(v) == value {
      SpelledIsRead(v, rest);
    }
  }

  // ----- repeated keys --------------------------------------------------

  lemma {:induction false} MapOfPut(fields: seq<Field>, f: Field)
    requires StrictlySorted(Keys(fields))
    ensures forall k :: Get(MapOf(Put(fields, f)), k) == if k == f.key then Some(f.value) else Get(MapOf(fields), k)
  {
    if fields == [] {
      assert [f][..0] == [];
    } else {
      var n := |fields| - 1;
      var front, last := fields[..n], fields[n];
      assert Keys(front) == Keys(fields)[..n];
      if last.key == f.key {
        assert (front + [f])[..n] == front;
      } else if Less(last.key, f.key) {
        assert (fields + [f])[..n + 1] == fields;
      } else {
        MapOfPut(front, f);
        var more := Put(front, f);
        assert Put(fields, f) == more + [last] && (more + [last])[..|more|] == more;
        assert MapOf(Put(fields, f)) == MapOf(more)[last.key := last.value];
        assert MapOf(fields) == MapOf(front)[last.key := last.value];
        forall k ensures Get(MapOf(Put(fields, f)), k) == if k == f.key then Some(f.value) else Get(MapOf(fields), k) {
          assert Get(MapOf(more), k) == if k == f.key then Some(f.value) else Get(MapOf(front), k);
        }
      }
    }
  }

  /** Of equal keys the last counts, and the keys come out in order. */
  lemma {:induction false} LastKeyCounts(fields: seq<Field>)
    ensures StrictlySorted(Keys(Collect(fields)))
    ensures forall k :: Get(MapOf(Collect(fields)), k) == Get(MapOf(fields), k)
  {
    if fields != [] {
      var n := |fields| - 1;
      LastKeyCounts(fields[..n]);
      PutSorted(Collect(fields[..n]), fields[n]);
      MapOfPut(Collect(fields[..n]), fields[n]);
    }
  }
}
