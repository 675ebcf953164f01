/** Planning a one-shot document import: classify, drop exact duplicates, and hash
    only the files whose size collides (tools/cmd/paperless-import/main.go). */
module ImportPlan {
  import opened Ordering
  import opened ImportRow

  type Class = string

  const PERSOENLICH: Class := "persoenlich"
  const WISSEN: Class := "wissen"
  const UNSORTIERT: Class := "unsortiert"
  const SKIP: Class := "skip"

  function Priority(c: Class): nat {
    if c == PERSOENLICH then 0 else if c == WISSEN then 1 else if c == UNSORTIERT then 2 else 9
  }

  /** A found file: its path below the source root, and its size. */
  datatype File = File(rel: string, size: nat)

  /** Where a path prefix belongs, and below which directory its tags begin. */
  datatype PathRule = PathRule(prefix: string, cls: Class, root: string)

  /** The rules, and the normal form of path names they are written in. */
  datatype Rules = Rules(list: seq<PathRule>, nfc: string -> string)

  predicate Matches(rel: string, rule: PathRule) {
    rel == rule.prefix || rule.prefix + "/" <= rel
  }

  /** The first rule whose prefix matches; anything else is unsorted, below its first
      two directories. */
  function Classified(rel: string, list: seq<PathRule>): (Class, string) {
    if list == [] then (UNSORTIERT, JoinedBy(Taken(Split(rel, '/'), 2), '/'))
    else if Matches(rel, list[0]) then (list[0].cls, list[0].root)
    else Classified(rel, list[1..])
  }

  function ClassOf(rel: string, rules: Rules): Class {
    Classified(rules.nfc(rel), rules.list).0
  }

  // ----- destinations ---------------------------------------------------

  const MAX_TAG_DEPTH := 2

  function TopName(c: Class): string {
    if c == PERSOENLICH then "Pers\U{f6}nlich/Inbox"
    else if c == WISSEN then "Wissen"
    else if c == UNSORTIERT then "Unsortiert/Inbox"
    else ""
  }

  function Taken(parts: seq<string>, n: nat): seq<string> {
    if |parts| > n then parts[..n] else parts
  }

  function TrimPrefix(s: string, prefix: string): string {
    if prefix <= s then s[|prefix|..] else s
  }

  predicate IsName(part: string) {
    part != "" && part != "."
  }

  function NamesOf(parts: seq<string>): seq<string> {
    if parts == [] then []
    else
      var n := |parts| - 1;
      NamesOf(parts[..n]) + if IsName(parts[n]) then [parts[n]] else []
  }

  /** The directories of a path. */
  function DirsOf(path: string): seq<string> {
    var parts := Split(path, '/');
    NamesOf(if parts == [] then [] else parts[..|parts| - 1])
  }

  function BaseOf(path: string): string {
    var parts := Split(path, '/');
    if parts == [] then "" else parts[|parts| - 1]
  }

  /** The directory below the top one, and the tags: at most two directories below the
      rule's root; for unsorted files the root's name and one. */
  function TagsOf(rel: string, cls: Class, root: string): seq<string> {
    var below := if root == "" then [] else Taken(DirsOf(TrimPrefix(TrimPrefix(rel, root), "/")), MAX_TAG_DEPTH);
    if cls != UNSORTIERT then below
    else [if IsName(BaseOf(root)) then BaseOf(root) else "Sonstige"] + Taken(below, 1)
  }

  lemma {:induction false} NamesAreNames(parts: seq<string>)
    ensures forall i :: 0 <= i < |NamesOf(parts)| ==> IsName(NamesOf(parts)[i])
  {
    if parts != [] { NamesAreNames(parts[..|parts| - 1]); }
  }

  /** A file gets at most two tags, whatever its class, and each of them is a name. */
  lemma TagsBounded(rel: string, cls: Class, root: string)
    ensures var tags := TagsOf(rel, cls, root);
      |tags| <= MAX_TAG_DEPTH && forall i :: 0 <= i < |tags| ==> IsName(tags[i])
  {
    var path := TrimPrefix(TrimPrefix(rel, root), "/");
    var parts := Split(path, '/');
    NamesAreNames(if parts == [] then [] else parts[..|parts| - 1]);
  }

  function Destination(rel: string, cls: Class, root: string): string {
    JoinedBy((if TopName(cls) == "" then [] else [TopName(cls)]) + TagsOf(rel, cls, root) + [BaseOf(rel)], '/')
  }

  function DestOf(rel: string, rules: Rules): string {
    var name := rules.nfc(rel);
    var class_ := Classified(name, rules.list);
    Destination(name, class_.0, class_.1)
  }

  /** A file with its class and where it goes. */
  datatype Keyed = Keyed(file: File, cls: Class, dest: string)

  function KeyOf(f: File, rules: Rules): Keyed {
    Keyed(f, ClassOf(f.rel, rules), DestOf(f.rel, rules))
  }

  /** Files and bytes, by class. */
  type Totals = map<Class, (nat, nat)>

  function TotalOf(totals: Totals, c: Class): (nat, nat) {
    if c in totals then totals[c] else (0, 0)
  }

  function Added(totals: Totals, c: Class, size: nat): Totals {
    totals[c := (TotalOf(totals, c).0 + 1, TotalOf(totals, c).1 + size)]
  }

  datatype Plan = Plan(rows: seq<Row>, dupes: nat, skipped: nat, scanned: nat, totals: Totals)

  /** The readable files and what is in them. */
  type Contents = map<string, string>

  ghost predicate CollisionFree(sha: string -> string) {
    (forall c :: sha(c) != "") && (forall c, c' :: sha(c) == sha(c') ==> c == c')
  }

  /** The walk reports each path once, with the size of what is in it. */
  ghost predicate Walked(files: seq<File>, contents: Contents) {
    && (forall i, j :: 0 <= i < j < |files| ==> files[i].rel != files[j].rel)
    && (forall i :: 0 <= i < |files| && files[i].rel in contents ==> files[i].size == |contents[files[i].rel]|)
  }

  // ----- order ----------------------------------------------------------

  predicate Before(a: Keyed, b: Keyed) {
    Priority(a.cls) < Priority(b.cls) || (Priority(a.cls) == Priority(b.cls) && Less(a.file.rel, b.file.rel))
  }

  lemma BeforeTransitive(a: Keyed, b: Keyed, c: Keyed)
    requires !Before(b, a) && !Before(c, b)
    ensures !Before(c, a)
  {
    if Before(c, a) && Priority(a.cls) == Priority(b.cls) == Priority(c.cls) {
      LessTotal(a.file.rel, b.file.rel);
      LessTotal(b.file.rel, c.file.rel);
      if Less(a.file.rel, b.file.rel) { LessTransitive(c.file.rel, a.file.rel, b.file.rel); }
    }
  }

  ghost predicate InOrder(ks: seq<Keyed>) {
    forall i, j :: 0 <= i < j < |ks| ==> !Before(ks[j], ks[i])
  }

  function Insert(ks: seq<Keyed>, k: Keyed): (r: seq<Keyed>)
    requires InOrder(ks)
    ensures InOrder(r) && multiset(r) == multiset(ks) + multiset{k}
  {
    if ks == [] then [k]
    else
      var n := |ks| - 1;
      assert ks == ks[..n] + [ks[n]];
      if !Before(k, ks[n]) then
        assert forall i :: 0 <= i < n ==> !Before(k, ks[i]) by {
          forall i | 0 <= i < n ensures !Before(k, ks[i]) { BeforeTransitive(ks[i], ks[n], k); }
        }
        ks + [k]
      else
        var front := Insert(ks[..n], k);
        assert forall x :: x in front ==> !Before(ks[n], x) by {
          forall x | x in front ensures !Before(ks[n], x) {
            assert x in multiset(front);
            if x == k { LessIrreflexive(k.file.rel); BeforeAsymmetric(k, ks[n]); }
          }
        }
        front + [ks[n]]
  }

  lemma BeforeAsymmetric(a: Keyed, b: Keyed)
    requires Before(a, b)
    ensures !Before(b, a)
  {
    if Before(b, a) {
      LessTransitive(a.file.rel, b.file.rel, a.file.rel);
      LessIrreflexive(a.file.rel);
    }
  }

  method Sort(ks: seq<Keyed>) returns (sorted: seq<Keyed>)
    ensures InOrder(sorted) && multiset(sorted) == multiset(ks)
  {
    sorted := [];
    for i := 0 to |ks|
      invariant InOrder(sorted) && multiset(sorted) == multiset(ks[..i])
    {
      assert ks[..i + 1] == ks[..i] + [ks[i]];
      sorted := Insert(sorted, ks[i]);
    }
    assert ks[..|ks|] == ks;
  }

  // ----- deduplication --------------------------------------------------

  /** The hash recorded for a file, when sizes decide who is hashed. */
  function BucketHash(files: seq<File>, contents: Contents, sha: string -> string, f: File): string {
    if CountSize(files, f.size) < 2 then "" else FullHash(contents, sha, f)
  }

  /** The hash recorded for a file, when everything is hashed. */
  function FullHash(contents: Contents, sha: string -> string, f: File): string {
    if f.rel in contents then sha(contents[f.rel]) else ""
  }

  function CountSize(files: seq<File>, size: nat): nat {
    if files == [] then 0
    else CountSize(files[..|files| - 1], size) + if files[|files| - 1].size == size then 1 else 0
  }

  /** The pass over the sorted files: keep the first of every hash. */
  datatype Pass = Pass(rows: seq<Row>, seen: set<string>, dupes: nat, skipped: nat, totals: Totals)

  function RowOf(k: Keyed, hash: string): Row {
    Row(k.cls, k.file.rel, k.dest, k.file.size, hash)
  }

  function PassStep(p: Pass, k: Keyed, hash: string): Pass {
    if k.cls == SKIP then p.(skipped := p.skipped + 1, totals := Added(p.totals, SKIP, k.file.size))
    else if hash != "" && hash in p.seen then p.(dupes := p.dupes + 1)
    else
      p.(rows := p.rows + [RowOf(k, hash)],
         seen := if hash != "" then p.seen + {hash} else p.seen,
         totals := Added(p.totals, k.cls, k.file.size))
  }

  function Dedupe(ks: seq<Keyed>, hash: File -> string): Pass {
    if ks == [] then Pass([], {}, 0, 0, map[])
    else
      var n := |ks| - 1;
      PassStep(Dedupe(ks[..n], hash), ks[n], hash(ks[n].file))
  }

  ghost predicate SameContent(contents: Contents, a: File, b: File) {
    a.rel in contents && b.rel in contents && contents[a.rel] == contents[b.rel]
  }

  /** The simple reading: a file is kept unless it is to be skipped, or a file that
      is not to be skipped and has the same content comes earlier. */
  ghost predicate Kept(ks: seq<Keyed>, contents: Contents, i: nat)
    requires i < |ks|
  {
    && ks[i].cls != SKIP
    && forall j :: 0 <= j < i && ks[j].cls != SKIP ==> !SameContent(contents, ks[j].file, ks[i].file)
  }

  ghost function KeptRows(ks: seq<Keyed>, contents: Contents, hash: File -> string, n: nat): seq<Row>
    requires n <= |ks|
  {
    if n == 0 then []
    else
      var k := ks[n - 1];
      KeptRows(ks, contents, hash, n - 1) +
      if Kept(ks, contents, n - 1) then [RowOf(k, hash(k.file))] else []
  }

  /** Equal content is recognised by equal, present hashes. */
  ghost predicate Recognises(ks: seq<Keyed>, contents: Contents, hash: File -> string) {
    && (forall i, j :: 0 <= i < j < |ks| ==>
          (SameContent(contents, ks[i].file, ks[j].file) <==>
             hash(ks[i].file) != "" && hash(ks[i].file) == hash(ks[j].file)))
  }

  function ToSkip(ks: seq<Keyed>): set<int> {
    set i | 0 <= i < |ks| && ks[i].cls == SKIP
  }

  lemma ToSkipNext(ks: seq<Keyed>)
    requires ks != []
    ensures var n := |ks| - 1;
      ToSkip(ks) == ToSkip(ks[..n]) + (if ks[n].cls == SKIP then {n} else {}) && n !in ToSkip(ks[..n])
  {
    var n := |ks| - 1;
    assert forall i :: 0 <= i < n ==> ks[..n][i] == ks[i];
  }

  /** Every file is a row, a duplicate or skipped; skipped are those of class skip. */
  lemma {:induction false} DedupeCounts(ks: seq<Keyed>, hash: File -> string)
    ensures var p := Dedupe(ks, hash);
      && |p.rows| + p.dupes + p.skipped == |ks|
      && p.skipped == |ToSkip(ks)|
  {
    if ks != [] {
      var n := |ks| - 1;
      DedupeCounts(ks[..n], hash);
      ToSkipNext(ks);
    }
  }

  /** How many rows a class has, and of how many bytes. */
  function RowTotal(rows: seq<Row>, c: Class): (nat, nat) {
    if rows == [] then (0, 0)
    else
      var before, last := RowTotal(rows[..|rows| - 1], c), rows[|rows| - 1];
      if last.cls == c then (before.0 + 1, before.1 + last.size) else before
  }

  lemma RowTotalNext(rows: seq<Row>, r: Row, c: Class)
    ensures var before := RowTotal(rows, c);
      RowTotal(rows + [r], c) == if r.cls == c then (before.0 + 1, before.1 + r.size) else before
  {
    assert (rows + [r])[..|rows|] == rows;
  }

  /** The totals are those of the rows, and for the class to skip those of what was
      skipped. */
  lemma {:induction false} TotalsTold(ks: seq<Keyed>, hash: File -> string)
    ensures var p := Dedupe(ks, hash);
      && (forall c :: c != SKIP ==> TotalOf(p.totals, c) == RowTotal(p.rows, c))
      && TotalOf(p.totals, SKIP).0 == p.skipped
  {
    if ks != [] {
      var n := |ks| - 1;
      TotalsTold(ks[..n], hash);
      forall c
        ensures c != SKIP ==> TotalOf(Dedupe(ks, hash).totals, c) == RowTotal(Dedupe(ks, hash).rows, c)
      {
        if c != SKIP { TotalsStep(Dedupe(ks[..n], hash), ks[n], hash(ks[n].file), c); }
      }
    }
  }

  lemma TotalsStep(p: Pass, k: Keyed, hash: string, c: Class)
    requires c != SKIP && TotalOf(p.totals, c) == RowTotal(p.rows, c)
    ensures TotalOf(PassStep(p, k, hash).totals, c) == RowTotal(PassStep(p, k, hash).rows, c)
  {
    RowTotalNext(p.rows, RowOf(k, hash), c);
  }

  ghost predicate SeenSoFar(ks: seq<Keyed>, hash: File -> string, n: nat, h: string)
    requires n <= |ks|
  {
    exists i :: 0 <= i < n && ks[i].cls != SKIP && hash(ks[i].file) == h
  }

  /** The hash set holds exactly the hashes of the files met so far. */
  lemma {:induction false} DedupeSeen(ks: seq<Keyed>, hash: File -> string, n: nat)
    requires n <= |ks|
    ensures forall h :: h in Dedupe(ks[..n], hash).seen <==> h != "" && SeenSoFar(ks, hash, n, h)
  {
    if n > 0 {
      DedupeSeen(ks, hash, n - 1);
      assert ks[..n][..n - 1] == ks[..n - 1];
      var k := ks[n - 1];
      forall h ensures SeenSoFar(ks, hash, n, h) <==>
        SeenSoFar(ks, hash, n - 1, h) || (k.cls != SKIP && hash(k.file) == h)
      {
      }
    }
  }

  lemma KeptIff(ks: seq<Keyed>, contents: Contents, hash: File -> string, i: nat)
    requires i < |ks| && Recognises(ks, contents, hash)
    ensures Kept(ks, contents, i) <==>
      ks[i].cls != SKIP && !(hash(ks[i].file) != "" && SeenSoFar(ks, hash, i, hash(ks[i].file)))
  {
  }

  /** The pass over the hashes keeps exactly the files the simple reading keeps. */
  lemma {:induction false} DedupeKeeps(ks: seq<Keyed>, contents: Contents, hash: File -> string, n: nat)
    requires n <= |ks| && Recognises(ks, contents, hash)
    ensures Dedupe(ks[..n], hash).rows == KeptRows(ks, contents, hash, n)
  {
    if n > 0 {
      DedupeKeeps(ks, contents, hash, n - 1);
      DedupeSeen(ks, hash, n - 1);
      KeptIff(ks, contents, hash, n - 1);
      assert ks[..n][..n - 1] == ks[..n - 1];
    }
  }

  // ----- the shortcut ---------------------------------------------------

  lemma {:induction false} TwoOfASize(files: seq<File>, i: nat, j: nat)
    requires i < j < |files| && files[i].size == files[j].size
    ensures CountSize(files, files[i].size) >= 2
  {
    var n := |files| - 1;
    if j < n {
      TwoOfASize(files[..n], i, j);
    } else {
      OneOfASize(files[..n], i);
    }
  }

  lemma {:induction false} OneOfASize(files: seq<File>, i: nat)
    requires i < |files|
    ensures CountSize(files, files[i].size) >= 1
  {
    if i < |files| - 1 { OneOfASize(files[..|files| - 1], i); }
  }

  ghost predicate Reordered(ks: seq<Keyed>, files: seq<File>) {
    && (forall i :: 0 <= i < |ks| ==> ks[i].file in files)
    && (forall i, j :: 0 <= i < j < |ks| ==> ks[i].file != ks[j].file)
  }

  /** Files of equal content have equal sizes, so both of them are hashed. */
  lemma BucketsRecognise(ks: seq<Keyed>, files: seq<File>, contents: Contents, sha: string -> string)
    requires CollisionFree(sha) && Walked(files, contents) && Reordered(ks, files)
    ensures Recognises(ks, contents, f => BucketHash(files, contents, sha, f))
    ensures Recognises(ks, contents, f => FullHash(contents, sha, f))
  {
    forall i, j | 0 <= i < j < |ks|
      ensures SameContent(contents, ks[i].file, ks[j].file) ==>
        BucketHash(files, contents, sha, ks[i].file)
        == sha(contents[ks[i].file.rel]) == BucketHash(files, contents, sha, ks[j].file)
    {
      if SameContent(contents, ks[i].file, ks[j].file) {
        var x :| 0 <= x < |files| && files[x] == ks[i].file;
        var y :| 0 <= y < |files| && files[y] == ks[j].file;
        if x < y { TwoOfASize(files, x, y); } else { TwoOfASize(files, y, x); }
      }
    }
  }

  predicate SameButHash(a: seq<Row>, b: seq<Row>) {
    |a| == |b| && forall i :: 0 <= i < |a| ==> a[i].(sha := "") == b[i].(sha := "")
  }

  lemma {:induction false} KeptRowsAgree(ks: seq<Keyed>, contents: Contents, hash: File -> string,
                                         other: File -> string, n: nat)
    requires n <= |ks|
    ensures SameButHash(KeptRows(ks, contents, hash, n), KeptRows(ks, contents, other, n))
  {
    if n > 0 { KeptRowsAgree(ks, contents, hash, other, n - 1); }
  }

  /** Hashing only files whose size collides gives the same plan as hashing all. */
  lemma ShortcutIsExact(ks: seq<Keyed>, files: seq<File>, contents: Contents, sha: string -> string)
    requires CollisionFree(sha) && Walked(files, contents) && Reordered(ks, files)
    ensures var quick, full := Dedupe(ks, f => BucketHash(files, contents, sha, f)),
                               Dedupe(ks, f => FullHash(contents, sha, f));
      SameButHash(quick.rows, full.rows) && quick.dupes == full.dupes && quick.skipped == full.skipped
  {
    BucketsRecognise(ks, files, contents, sha);
    var quick, full := f => BucketHash(files, contents, sha, f), f => FullHash(contents, sha, f);
    DedupeKeeps(ks, contents, quick, |ks|);
    DedupeKeeps(ks, contents, full, |ks|);
    DedupeCounts(ks, quick);
    DedupeCounts(ks, full);
    KeptRowsAgree(ks, contents, quick, full, |ks|);
    assert ks[..|ks|] == ks;
  }

  // ----- the plan -------------------------------------------------------

  function KeyedAll(files: seq<File>, rules: Rules): seq<Keyed> {
    seq(|files|, i requires 0 <= i < |files| => KeyOf(files[i], rules))
  }

  /** The row of a file, in terms of the found files alone: least by (priority,
      path) among the files of its content that are not to be skipped. */
  ghost predicate BelongsInPlan(files: seq<File>, rules: Rules, contents: Contents, f: File) {
    && f in files && ClassOf(f.rel, rules) != SKIP
    && forall g :: g in files && ClassOf(g.rel, rules) != SKIP && SameContent(contents, f, g) ==>
         !Before(KeyOf(g, rules), KeyOf(f, rules))
  }

  ghost predicate HasRow(rows: seq<Row>, f: File, cls: Class) {
    exists i :: 0 <= i < |rows| && rows[i].cls == cls && rows[i].rel == f.rel && rows[i].size == f.size
  }

  ghost predicate IsRowOf(row: Row, ks: seq<Keyed>, contents: Contents, hash: File -> string, i: nat) {
    i < |ks| && Kept(ks, contents, i) && row == RowOf(ks[i], hash(ks[i].file))
  }

  lemma {:induction false} KeptHasRow(ks: seq<Keyed>, contents: Contents, hash: File -> string, n: nat, i: nat)
    requires i < n <= |ks| && Kept(ks, contents, i)
    ensures HasRow(KeptRows(ks, contents, hash, n), ks[i].file, ks[i].cls)
  {
    var rows := KeptRows(ks, contents, hash, n);
    if i < n - 1 {
      KeptHasRow(ks, contents, hash, n - 1, i);
      var front := KeptRows(ks, contents, hash, n - 1);
      var x :| 0 <= x < |front|
               && front[x].cls == ks[i].cls && front[x].rel == ks[i].file.rel && front[x].size == ks[i].file.size;
      assert rows[x] == front[x];
    } else {
      assert rows[|rows| - 1].rel == ks[i].file.rel;
    }
  }

  lemma {:induction false} RowIsKept(ks: seq<Keyed>, contents: Contents, hash: File -> string, n: nat,
                                     x: nat) returns (i: nat)
    requires n <= |ks| && x < |KeptRows(ks, contents, hash, n)|
    ensures i < n && IsRowOf(KeptRows(ks, contents, hash, n)[x], ks, contents, hash, i)
  {
    if x < |KeptRows(ks, contents, hash, n - 1)| {
      i := RowIsKept(ks, contents, hash, n - 1, x);
    } else {
      i := n - 1;
    }
  }

  lemma {:induction false} KeptRowsDistinct(ks: seq<Keyed>, contents: Contents, hash: File -> string, n: nat)
    requires n <= |ks|
    requires forall i, j :: 0 <= i < j < |ks| ==> ks[i].file.rel != ks[j].file.rel
    ensures DistinctRows(KeptRows(ks, contents, hash, n))
  {
    if n > 0 {
      KeptRowsDistinct(ks, contents, hash, n - 1);
      var front := KeptRows(ks, contents, hash, n - 1);
      forall x | 0 <= x < |front| ensures front[x].rel != ks[n - 1].file.rel {
        var i := RowIsKept(ks, contents, hash, n - 1, x);
      }
    }
  }

  ghost predicate DistinctRows(rows: seq<Row>) {
    forall x, y :: 0 <= x < y < |rows| ==> rows[x].rel != rows[y].rel
  }

  /** The rows are rows of found files, no file has two, and a file has one exactly if
      it is the least of its content. */
  ghost predicate KeepsLeast(rows: seq<Row>, files: seq<File>, rules: Rules, contents: Contents) {
    && DistinctRows(rows)
    && (forall x :: 0 <= x < |rows| ==> FromFiles(rows[x], files, rules))
    && (forall f :: f in files ==>
          (HasRow(rows, f, ClassOf(f.rel, rules)) <==> BelongsInPlan(files, rules, contents, f)))
  }

  ghost predicate FromFiles(row: Row, files: seq<File>, rules: Rules) {
    && File(row.rel, row.size) in files
    && row.cls == ClassOf(row.rel, rules) && row.dest == DestOf(row.rel, rules)
  }

  ghost predicate IsSorting(ks: seq<Keyed>, files: seq<File>, rules: Rules) {
    && InOrder(ks) && Reordered(ks, files) && |ks| == |files|
    && (forall i :: 0 <= i < |ks| ==> ks[i] == KeyOf(ks[i].file, rules))
    && (forall f :: f in files ==> exists i :: 0 <= i < |ks| && ks[i].file == f)
  }

  /** Being first of its content in the sorted list is being the least of it. */
  lemma KeptIsLeast(ks: seq<Keyed>, files: seq<File>, rules: Rules, contents: Contents, i: nat)
    requires Walked(files, contents) && IsSorting(ks, files, rules) && i < |ks|
    ensures Kept(ks, contents, i) <==> BelongsInPlan(files, rules, contents, ks[i].file)
  {
    var f := ks[i].file;
    if Kept(ks, contents, i) {
      forall g | g in files && ClassOf(g.rel, rules) != SKIP && SameContent(contents, f, g)
        ensures !Before(KeyOf(g, rules), KeyOf(f, rules))
      {
        var j :| 0 <= j < |ks| && ks[j].file == g;
        if i == j { LessIrreflexive(f.rel); }
      }
    } else if ks[i].cls != SKIP {
      var j :| 0 <= j < i && ks[j].cls != SKIP && SameContent(contents, ks[j].file, f);
      DistinctPathsOrdered(ks[j], ks[i]);
      assert SameContent(contents, f, ks[j].file);
    }
  }

  lemma DistinctPathsOrdered(a: Keyed, b: Keyed)
    ensures Before(a, b) || Before(b, a) || a.file.rel == b.file.rel
  {
    LessTotal(a.file.rel, b.file.rel);
  }

  /** The plan has a row for exactly the least file of every content, and for no
      content two; files to be skipped displace nothing; nothing is lost. */
  lemma PlanKeepsLeast(ks: seq<Keyed>, files: seq<File>, rules: Rules, contents: Contents,
                       sha: string -> string)
    requires CollisionFree(sha) && Walked(files, contents) && IsSorting(ks, files, rules)
    ensures var p := Dedupe(ks, f => BucketHash(files, contents, sha, f));
      && KeepsLeast(p.rows, files, rules, contents)
      && |p.rows| + p.dupes + p.skipped == |files|
  {
    var hash := f => BucketHash(files, contents, sha, f);
    BucketsRecognise(ks, files, contents, sha);
    DedupeKeeps(ks, contents, hash, |ks|);
    DedupeCounts(ks, hash);
    assert ks[..|ks|] == ks;
    var rows := Dedupe(ks, hash).rows;
    forall f | f in files
      ensures HasRow(rows, f, ClassOf(f.rel, rules)) <==> BelongsInPlan(files, rules, contents, f)
    {
      RowIffBelongs(ks, files, rules, contents, hash, f);
    }
    forall x | 0 <= x < |rows| ensures FromFiles(rows[x], files, rules) {
      var i := RowIsKept(ks, contents, hash, |ks|, x);
      assert ks[i].file == File(rows[x].rel, rows[x].size);
    }
    SortingDistinct(ks, files, rules, contents);
    KeptRowsDistinct(ks, contents, hash, |ks|);
  }

  lemma SortingDistinct(ks: seq<Keyed>, files: seq<File>, rules: Rules, contents: Contents)
    requires Walked(files, contents) && IsSorting(ks, files, rules)
    ensures forall i, j :: 0 <= i < j < |ks| ==> ks[i].file.rel != ks[j].file.rel
  {
    forall i, j | 0 <= i < j < |ks| ensures ks[i].file.rel != ks[j].file.rel {
      if ks[i].file.rel == ks[j].file.rel { SamePathSameFile(files, contents, ks[i].file, ks[j].file); }
    }
  }

  /** Of each content at most one file belongs in the plan. */
  lemma OneOfEachContent(files: seq<File>, rules: Rules, contents: Contents, f: File, g: File)
    requires BelongsInPlan(files, rules, contents, f) && BelongsInPlan(files, rules, contents, g)
    requires SameContent(contents, f, g)
    ensures f.rel == g.rel
  {
    assert SameContent(contents, g, f);
    DistinctPathsOrdered(KeyOf(f, rules), KeyOf(g, rules));
  }

  lemma RowIffBelongs(ks: seq<Keyed>, files: seq<File>, rules: Rules, contents: Contents,
                      hash: File -> string, f: File)
    requires Walked(files, contents) && IsSorting(ks, files, rules) && f in files
    ensures HasRow(KeptRows(ks, contents, hash, |ks|), f, ClassOf(f.rel, rules))
       <==> BelongsInPlan(files, rules, contents, f)
  {
    var rows := KeptRows(ks, contents, hash, |ks|);
    var i :| 0 <= i < |ks| && ks[i].file == f;
    KeptIsLeast(ks, files, rules, contents, i);
    if Kept(ks, contents, i) {
      KeptHasRow(ks, contents, hash, |ks|, i);
    }
    if HasRow(rows, f, ClassOf(f.rel, rules)) {
      var x :| 0 <= x < |rows| && rows[x].rel == f.rel;
      var j := RowIsKept(ks, contents, hash, |ks|, x);
      SamePathSameFile(files, contents, ks[j].file, f);
      assert i == j;
    }
  }

  lemma SamePathSameFile(files: seq<File>, contents: Contents, f: File, g: File)
    requires Walked(files, contents) && f in files && g in files && f.rel == g.rel
    ensures f == g
  {
  }

  function PlanOf(ks: seq<Keyed>, files: seq<File>, contents: Contents, sha: string -> string): Plan {
    var p := Dedupe(ks, f => BucketHash(files, contents, sha, f));
    Plan(p.rows, p.dupes, p.skipped, |files|, p.totals)
  }

  /** Buckets by size, hashes, classifies, sorts and drops duplicates. */
  method BuildPlan(files: seq<File>, rules: Rules, contents: Contents, sha: string -> string)
    returns (plan: Plan)
    requires Walked(files, contents)
    ensures exists ks :: IsSorting(ks, files, rules) && PlanOf(ks, files, contents, sha) == plan
    ensures CollisionFree(sha) ==> KeepsLeast(plan.rows, files, rules, contents)
    ensures |plan.rows| + plan.dupes + plan.skipped == plan.scanned == |files|
    ensures forall c :: c != SKIP ==> TotalOf(plan.totals, c) == RowTotal(plan.rows, c)
    ensures TotalOf(plan.totals, SKIP).0 == plan.skipped
  {
    var hashes := HashBuckets(files, contents, sha);
    var keyed: seq<Keyed> := [];
    for i := 0 to |files|
      invariant keyed == KeyedAll(files[..i], rules)
    {
      assert files[..i + 1] == files[..i] + [files[i]];
      keyed := keyed + [KeyOf(files[i], rules)];
    }
    assert files[..|files|] == files;
    var sorted := Sort(keyed);
    SortedIsSorting(files, rules, contents, sorted);
    ghost var hash := f => BucketHash(files, contents, sha, f);
    assert forall i :: 0 <= i < |sorted| ==> sorted[i].file in files;
    var pass := DropDuplicates(sorted, hashes, hash);
    plan := Plan(pass.rows, pass.dupes, pass.skipped, |files|, pass.totals);
    assert PlanOf(sorted, files, contents, sha) == plan;
    DedupeCounts(sorted, hash);
    TotalsTold(sorted, hash);
    if CollisionFree(sha) { PlanKeepsLeast(sorted, files, rules, contents, sha); }
  }

  /** The pass over the sorted files. */
  method DropDuplicates(sorted: seq<Keyed>, hashes: map<string, string>, ghost hash: File -> string)
    returns (pass: Pass)
    requires forall i :: 0 <= i < |sorted| ==> HashIn(hashes, sorted[i].file.rel) == hash(sorted[i].file)
    ensures pass == Dedupe(sorted, hash)
  {
    var rows: seq<Row>, seen: set<string>, dupes, skipped, totals: Totals := [], {}, 0, 0, map[];
    for i := 0 to |sorted|
      invariant dupes >= 0 && skipped >= 0
      invariant Pass(rows, seen, dupes, skipped, totals) == Dedupe(sorted[..i], hash)
    {
      assert sorted[..i + 1][..i] == sorted[..i];
      var k := sorted[i];
      if k.cls == SKIP {
        skipped := skipped + 1;
        totals := Added(totals, SKIP, k.file.size);
        continue;
      }
      var h := HashIn(hashes, k.file.rel);
      if h != "" {
        if h in seen {
          dupes := dupes + 1;
          continue;
        }
        seen := seen + {h};
      }
      rows := rows + [RowOf(k, h)];
      totals := Added(totals, k.cls, k.file.size);
    }
    assert sorted[..|sorted|] == sorted;
    pass := Pass(rows, seen, dupes, skipped, totals);
  }

  function HashIn(hashes: map<string, string>, rel: string): string {
    if rel in hashes then hashes[rel] else ""
  }

  lemma SortedKeepsAll(files: seq<File>, rules: Rules, ks: seq<Keyed>)
    requires multiset(ks) == multiset(KeyedAll(files, rules))
    ensures forall i :: 0 <= i < |ks| ==> ks[i].file in files && ks[i] == KeyOf(ks[i].file, rules)
    ensures forall f :: f in files ==> exists i :: 0 <= i < |ks| && ks[i].file == f
  {
    var keyed := KeyedAll(files, rules);
    forall i | 0 <= i < |ks| ensures ks[i].file in files && ks[i] == KeyOf(ks[i].file, rules) {
      assert ks[i] in multiset(keyed);
      var j :| 0 <= j < |keyed| && keyed[j] == ks[i];
      assert files[j] == ks[i].file;
    }
    forall f | f in files ensures exists i :: 0 <= i < |ks| && ks[i].file == f {
      var j :| 0 <= j < |files| && files[j] == f;
      assert keyed[j] in multiset(ks);
      var i :| 0 <= i < |ks| && ks[i] == keyed[j];
    }
  }

  lemma SortedIsSorting(files: seq<File>, rules: Rules, contents: Contents, ks: seq<Keyed>)
    requires Walked(files, contents)
    requires InOrder(ks) && multiset(ks) == multiset(KeyedAll(files, rules))
    ensures IsSorting(ks, files, rules)
  {
    var keyed := KeyedAll(files, rules);
    assert |ks| == |multiset(ks)| == |multiset(keyed)| == |keyed|;
    SortedKeepsAll(files, rules, ks);
    forall i, j | 0 <= i < j < |ks| ensures ks[i].file != ks[j].file {
      if ks[i].file == ks[j].file {
        TwiceInMultiset(ks, i, j);
        OnceInMultiset(keyed, ks[i]);
        assert false;
      }
    }
  }

  lemma TwiceInMultiset(ks: seq<Keyed>, i: nat, j: nat)
    requires i < j < |ks| && ks[i] == ks[j]
    ensures multiset(ks)[ks[i]] >= 2
  {
    assert ks == ks[..i] + [ks[i]] + ks[i + 1..j] + [ks[j]] + ks[j + 1..];
  }

  lemma {:induction false} OnceInMultiset(ks: seq<Keyed>, k: Keyed)
    requires forall i, j :: 0 <= i < j < |ks| ==> ks[i].file.rel != ks[j].file.rel
    ensures multiset(ks)[k] <= 1
  {
    if ks != [] {
      var n := |ks| - 1;
      assert ks == ks[..n] + [ks[n]];
      OnceInMultiset(ks[..n], k);
      if ks[n] == k {
        assert k !in ks[..n];
      }
    }
  }

  /** Groups the paths by size and hashes every group of at least two. */
  method HashBuckets(files: seq<File>, contents: Contents, sha: string -> string) returns (hashes: map<string, string>)
    requires Walked(files, contents)
    ensures forall f :: f in files ==>
      HashIn(hashes, f.rel) == BucketHash(files, contents, sha, f)
  {
    var bySize := BySize(files);
    hashes := map[];
    var rest := bySize.Keys;
    while rest != {}
      invariant rest <= bySize.Keys
      invariant forall rel :: rel in hashes <==>
        rel in contents && exists size :: size in bySize.Keys - rest && |bySize[size]| >= 2 && rel in bySize[size]
      invariant forall rel :: rel in hashes ==> hashes[rel] == sha(contents[rel])
      decreases rest
    {
      var size :| size in rest;
      rest := rest - {size};
      if |bySize[size]| >= 2 {
        hashes := HashAll(bySize[size], contents, sha, hashes);
      }
    }
    forall f | f in files
      ensures HashIn(hashes, f.rel) == BucketHash(files, contents, sha, f)
    {
      BucketOf(files, contents, bySize, f);
    }
  }

  method HashAll(rels: seq<string>, contents: Contents, sha: string -> string, before: map<string, string>)
    returns (hashes: map<string, string>)
    requires forall rel :: rel in before ==> rel in contents && before[rel] == sha(contents[rel])
    ensures hashes.Keys == before.Keys + (Elements(rels) * contents.Keys)
    ensures forall rel :: rel in hashes ==> rel in contents && hashes[rel] == sha(contents[rel])
  {
    hashes := before;
    for i := 0 to |rels|
      invariant hashes.Keys == before.Keys + (Elements(rels[..i]) * contents.Keys)
      invariant forall rel :: rel in hashes ==> rel in contents && hashes[rel] == sha(contents[rel])
    {
      assert rels[..i + 1] == rels[..i] + [rels[i]];
      if rels[i] in contents {
        hashes := hashes[rels[i] := sha(contents[rels[i]])];
      }
    }
    assert rels[..|rels|] == rels;
  }

  /** The paths of one size, in the order found. */
  function RelsOfSize(files: seq<File>, size: nat): (r: seq<string>)
    ensures |r| == CountSize(files, size)
    ensures forall rel :: rel in r <==> exists i :: 0 <= i < |files| && files[i].rel == rel && files[i].size == size
  {
    if files == [] then []
    else
      var n := |files| - 1;
      var front := RelsOfSize(files[..n], size);
      assert forall i :: 0 <= i < n ==> files[..n][i] == files[i];
      if files[n].size == size then front + [files[n].rel] else front
  }

  method BySize(files: seq<File>) returns (bySize: map<nat, seq<string>>)
    ensures forall size :: size in bySize <==> CountSize(files, size) > 0
    ensures forall size :: size in bySize ==> bySize[size] == RelsOfSize(files, size)
  {
    bySize := map[];
    for i := 0 to |files|
      invariant forall size :: size in bySize <==> CountSize(files[..i], size) > 0
      invariant forall size :: size in bySize ==> bySize[size] == RelsOfSize(files[..i], size)
    {
      assert files[..i + 1][..i] == files[..i];
      var f := files[i];
      var group := if f.size in bySize then bySize[f.size] else [];
      bySize := bySize[f.size := group + [f.rel]];
    }
    assert files[..|files|] == files;
  }

  lemma BucketOf(files: seq<File>, contents: Contents, bySize: map<nat, seq<string>>, f: File)
    requires Walked(files, contents) && f in files
    requires forall size :: size in bySize <==> CountSize(files, size) > 0
    requires forall size :: size in bySize ==> bySize[size] == RelsOfSize(files, size)
    ensures (exists size :: size in bySize && |bySize[size]| >= 2 && f.rel in bySize[size])
       <==> CountSize(files, f.size) >= 2
  {
    assert f.rel in RelsOfSize(files, f.size);
    forall size | size in bySize && f.rel in bySize[size] ensures size == f.size {
      var i :| 0 <= i < |files| && files[i].rel == f.rel && files[i].size == size;
      SamePathSameFile(files, contents, files[i], f);
    }
    if CountSize(files, f.size) >= 2 {
      assert f.size in bySize;
    }
  }
}
