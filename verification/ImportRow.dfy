/** The import's row, and cutting text at a character
    (tools/cmd/paperless-import/main.go). */
module ImportRow {

  datatype Row = Row(cls: string, rel: string, dest: string, size: nat, sha: string)

  // ----- splitting ------------------------------------------------------

  /** The text before the first c, if there is one. */
  function Find(s: string, c: char): (i: nat)
    ensures i <= |s| && (i < |s| ==> s[i] == c) && forall j :: 0 <= j < i ==> s[j] != c
  {
    if s == [] || s[0] == c then 0 else 1 + Find(s[1..], c)
  }

  function Split(s: string, c: char): seq<string>
    decreases |s|
  {
    var i := Find(s, c);
    if i == |s| then [s] else [s[..i]] + Split(s[i + 1..], c)
  }

  /** The parts with c between them. */
  function JoinedBy(parts: seq<string>, c: char): string {
    if parts == [] then "" else if |parts| == 1 then parts[0] else parts[0] + [c] + JoinedBy(parts[1..], c)
  }

  predicate Free(s: string, c: char) {
    forall i :: 0 <= i < |s| ==> s[i] != c
  }

  lemma FindIn(a: string, c: char, b: string)
    requires Free(a, c)
    ensures Find(a + [c] + b, c) == |a|
  {
    var s := a + [c] + b;
    assert s[|a|] == c;
    forall j | 0 <= j < |a| ensures s[j] != c { assert s[j] == a[j]; }
  }

  lemma SplitOff(a: string, c: char, b: string)
    requires Free(a, c)
    ensures Split(a + [c] + b, c) == [a] + Split(b, c)
  {
    FindIn(a, c, b);
    assert (a + [c] + b)[..|a|] == a && (a + [c] + b)[|a| + 1..] == b;
  }
}
