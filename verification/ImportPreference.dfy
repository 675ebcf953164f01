/** Which copy of a document is imported, and where it goes, told in the names of the
    classes and the directories of the path (tools/cmd/paperless-import/main.go). */
module ImportPreference {
  import opened Ordering
  import opened ImportRow
  import opened ImportPlan
  import ImportRoundTrip

  // ----- which copy -----------------------------------------------------

  /** Personal documents come before those of knowledge, these before unsorted ones, and
      all three before any other class. */
  predicate Outranks(a: Class, b: Class) {
    || (a == "persoenlich" && b != "persoenlich")
    || (a == "wissen" && b != "persoenlich" && b != "wissen")
    || (a == "unsortiert" && b != "persoenlich" && b != "wissen" && b != "unsortiert")
  }

  /** The copy to keep of two: that of the higher class, or else the one whose path is first
      in the dictionary. */
  predicate PreferredTo(g: File, f: File, rules: Rules) {
    var a, b := ClassOf(g.rel, rules), ClassOf(f.rel, rules);
    Outranks(a, b) || (!Outranks(b, a) && Less(g.rel, f.rel))
  }

  lemma BeforeIsPreferred(g: File, f: File, rules: Rules)
    ensures Before(KeyOf(g, rules), KeyOf(f, rules)) <==> PreferredTo(g, f, rules)
  {
  }

  ghost predicate Planned(rows: seq<Row>, f: File) {
    exists x :: 0 <= x < |rows| && rows[x].rel == f.rel
  }

  lemma PlannedHasRow(rows: seq<Row>, files: seq<File>, rules: Rules, contents: Contents, f: File)
    requires Walked(files, contents) && KeepsLeast(rows, files, rules, contents) && f in files
    ensures Planned(rows, f) <==> HasRow(rows, f, ClassOf(f.rel, rules))
  {
    if Planned(rows, f) {
      var x :| 0 <= x < |rows| && rows[x].rel == f.rel;
      assert FromFiles(rows[x], files, rules);
      SamePathSameFile(files, contents, File(rows[x].rel, rows[x].size), f);
    }
  }

  /** A found file is imported iff it is not to be skipped and no other file that is not to
      be skipped has the same content and is preferred. */
  lemma PlannedIff(rows: seq<Row>, files: seq<File>, rules: Rules, contents: Contents, f: File)
    requires Walked(files, contents) && KeepsLeast(rows, files, rules, contents) && f in files
    ensures Planned(rows, f) <==>
      && ClassOf(f.rel, rules) != "skip"
      && forall g :: g in files && ClassOf(g.rel, rules) != "skip" && SameContent(contents, f, g) ==>
           !PreferredTo(g, f, rules)
  {
    PlannedHasRow(rows, files, rules, contents, f);
    forall g ensures Before(KeyOf(g, rules), KeyOf(f, rules)) <==> PreferredTo(g, f, rules) {
      BeforeIsPreferred(g, f, rules);
    }
  }

  /** Of two files of equal content, one personal and one of knowledge or unsorted, the
      personal one stays; of one of knowledge and one unsorted, that of knowledge; of two
      of one class, the one whose path comes first. */
  lemma LowerCopyGoes(rows: seq<Row>, files: seq<File>, rules: Rules, contents: Contents, f: File, g: File)
    requires Walked(files, contents) && KeepsLeast(rows, files, rules, contents)
    requires f in files && g in files && SameContent(contents, f, g)
    requires var a, b := ClassOf(f.rel, rules), ClassOf(g.rel, rules);
      || (a == "persoenlich" && (b == "wissen" || b == "unsortiert"))
      || (a == "wissen" && b == "unsortiert")
      || (a == b && a != "skip" && Less(f.rel, g.rel))
    ensures !Planned(rows, g)
  {
    PlannedIff(rows, files, rules, contents, g);
    assert SameContent(contents, g, f);
    LessIrreflexive(f.rel);
  }

  /** The plan of an import. */
  method PlanPrefers(files: seq<File>, rules: Rules, contents: Contents, sha: string -> string) returns (plan: Plan)
    requires Walked(files, contents) && CollisionFree(sha)
    ensures forall f :: f in files ==>
      (Planned(plan.rows, f) <==>
         && ClassOf(f.rel, rules) != "skip"
         && forall g :: g in files && ClassOf(g.rel, rules) != "skip" && SameContent(contents, f, g) ==>
              !PreferredTo(g, f, rules))
  {
    plan := BuildPlan(files, rules, contents, sha);
    forall f | f in files
      ensures Planned(plan.rows, f) <==>
        && ClassOf(f.rel, rules) != "skip"
        && forall g :: g in files && ClassOf(g.rel, rules) != "skip" && SameContent(contents, f, g) ==>
             !PreferredTo(g, f, rules)
    {
      PlannedIff(plan.rows, files, rules, contents, f);
    }
  }

  // ----- hashes and totals ----------------------------------------------

  /** Another found file has the same size. */
  ghost predicate SizeShared(files: seq<File>, size: nat) {
    exists i, j :: 0 <= i < j < |files| && files[i].size == size && files[j].size == size
  }

  lemma {:induction false} SizeCounted(files: seq<File>, size: nat)
    ensures CountSize(files, size) >= 1 <==> exists i :: 0 <= i < |files| && files[i].size == size
    ensures CountSize(files, size) >= 2 <==> SizeShared(files, size)
  {
    if files != [] {
      var n := |files| - 1;
      SizeCounted(files[..n], size);
      if i :| 0 <= i < n && files[i].size == size { assert files[..n][i] == files[i]; }
      if SizeShared(files, size) {
        var i, j :| 0 <= i < j < |files| && files[i].size == size && files[j].size == size;
        assert files[..n][i] == files[i];
        assert j < n ==> files[..n][j] == files[j];
      }
    }
  }

  /** A row carries the hash of its file's content if another file has the same size and the
      file can be read, and else none. */
  lemma HashesTold(ks: seq<Keyed>, files: seq<File>, rules: Rules, contents: Contents, sha: string -> string, x: nat)
    requires IsSorting(ks, files, rules) && x < |PlanOf(ks, files, contents, sha).rows|
    ensures var row := PlanOf(ks, files, contents, sha).rows[x];
      && row.cls == ClassOf(row.rel, rules) && row.dest == DestOf(row.rel, rules) && File(row.rel, row.size) in files
      && row.sha == if SizeShared(files, row.size) && row.rel in contents then sha(contents[row.rel]) else ""
  {
    var hash := f => BucketHash(files, contents, sha, f);
    ImportRoundTrip.RowHashes(ks, hash, x);
    var i :| 0 <= i < |ks| && Dedupe(ks, hash).rows[x] == RowOf(ks[i], hash(ks[i].file));
    SizeCounted(files, ks[i].file.size);
  }

  function BytesToSkip(ks: seq<Keyed>): nat {
    if ks == [] then 0
    else BytesToSkip(ks[..|ks| - 1]) + if ks[|ks| - 1].cls == "skip" then ks[|ks| - 1].file.size else 0
  }

  /** The totals of the class to skip are those of the files that were skipped. */
  lemma {:induction false} SkippedTotals(ks: seq<Keyed>, hash: File -> string)
    ensures TotalOf(Dedupe(ks, hash).totals, "skip") == (|ToSkip(ks)|, BytesToSkip(ks))
  {
    if ks != [] {
      SkippedTotals(ks[..|ks| - 1], hash);
      ToSkipNext(ks);
    }
  }

  // ----- classes --------------------------------------------------------

  /** The path is that of the rule, or lies below it. */
  predicate Below(rel: string, prefix: string) {
    rel == prefix || (|rel| > |prefix| && rel[..|prefix|] == prefix && rel[|prefix|] == '/')
  }

  lemma MatchesIffBelow(rel: string, rule: PathRule)
    ensures Matches(rel, rule) <==> Below(rel, rule.prefix)
  {
    var p := rule.prefix;
    if p + "/" <= rel {
      assert rel[..|p|] == (p + "/")[..|p|] == p && rel[|p|] == (p + "/")[|p|];
    }
    if Below(rel, p) && rel != p {
      assert rel[..|p| + 1] == p + "/";
    }
  }

  /** The first rule decides that the path lies below. */
  lemma {:induction false} FirstRuleDecides(rel: string, list: seq<PathRule>, i: nat)
    requires i < |list| && Below(rel, list[i].prefix)
    requires forall j :: 0 <= j < i ==> !Below(rel, list[j].prefix)
    ensures Classified(rel, list) == (list[i].cls, list[i].root)
  {
    MatchesIffBelow(rel, list[0]);
    if i > 0 { FirstRuleDecides(rel, list[1..], i - 1); }
  }

  /** Without one the file is unsorted, below its first two path elements. */
  lemma {:induction false} NoRuleDecides(parts: seq<string>, list: seq<PathRule>)
    requires parts != [] && SlashFree(parts)
    requires forall j :: 0 <= j < |list| ==> !Below(JoinedBy(parts, '/'), list[j].prefix)
    ensures Classified(JoinedBy(parts, '/'), list)
         == ("unsortiert", JoinedBy(if |parts| > 2 then [parts[0], parts[1]] else parts, '/'))
  {
    if list == [] {
      SplitSlashes(parts);
      if |parts| > 2 { assert parts[..2] == [parts[0], parts[1]]; }
    } else {
      MatchesIffBelow(JoinedBy(parts, '/'), list[0]);
      NoRuleDecides(parts, list[1..]);
    }
  }

  // ----- destinations ---------------------------------------------------

  ghost predicate SlashFree(parts: seq<string>) {
    forall i :: 0 <= i < |parts| ==> Free(parts[i], '/')
  }

  lemma {:induction false} SplitSlashes(parts: seq<string>)
    requires parts != [] && SlashFree(parts)
    ensures Split(JoinedBy(parts, '/'), '/') == parts
  {
    if |parts| > 1 {
      SplitSlashes(parts[1..]);
      SplitOff(parts[0], '/', JoinedBy(parts[1..], '/'));
      assert parts == [parts[0]] + parts[1..];
    }
  }

  /** The names of directories, as a walk yields them. */
  ghost predicate Directories(dirs: seq<string>) {
    SlashFree(dirs) && forall i :: 0 <= i < |dirs| ==> dirs[i] != "" && dirs[i] != "."
  }

  lemma {:induction false} NamesKept(dirs: seq<string>)
    requires Directories(dirs)
    ensures NamesOf(dirs) == dirs
  {
    if dirs != [] { NamesKept(dirs[..|dirs| - 1]); }
  }

  lemma PathParts(dirs: seq<string>, base: string)
    requires Directories(dirs) && Free(base, '/')
    ensures DirsOf(JoinedBy(dirs + [base], '/')) == dirs && BaseOf(JoinedBy(dirs + [base], '/')) == base
  {
    SplitSlashes(dirs + [base]);
    assert (dirs + [base])[..|dirs|] == dirs;
    NamesKept(dirs);
  }

  lemma {:induction false} BaseBelow(root: string, path: string)
    ensures BaseOf(root + "/" + path) == BaseOf(path)
    decreases |root|
  {
    var s, i := root + "/" + path, Find(root, '/');
    if i == |root| {
      SplitOff(root, '/', path);
    } else {
      var head, rest := root[..i], root[i + 1..];
      assert s == head + "/" + (rest + "/" + path);
      SplitOff(head, '/', rest + "/" + path);
      BaseBelow(rest, path);
    }
  }

  /** A file in directories below its rule's root. */
  function PathBelow(root: string, dirs: seq<string>, base: string): string {
    root + "/" + JoinedBy(dirs + [base], '/')
  }

  lemma BelowRoot(root: string, dirs: seq<string>, base: string)
    requires root != "" && Directories(dirs) && Free(base, '/')
    ensures var rel := PathBelow(root, dirs, base);
      DirsOf(TrimPrefix(TrimPrefix(rel, root), "/")) == dirs && BaseOf(rel) == base
  {
    var path := JoinedBy(dirs + [base], '/');
    var rel := PathBelow(root, dirs, base);
    assert rel == root + ("/" + path) && rel[|root|..] == "/" + path && ("/" + path)[1..] == path;
    PathParts(dirs, base);
    BaseBelow(root, path);
  }

  function UpTo(dirs: seq<string>, n: nat): seq<string> {
    if |dirs| > n then dirs[..n] else dirs
  }

  lemma SortedDestination(root: string, dirs: seq<string>, base: string)
    requires root != "" && Directories(dirs) && Free(base, '/')
    ensures var rel := PathBelow(root, dirs, base);
      && Destination(rel, "persoenlich", root) == JoinedBy(["Pers\U{f6}nlich/Inbox"] + UpTo(dirs, 2) + [base], '/')
      && Destination(rel, "wissen", root) == JoinedBy(["Wissen"] + UpTo(dirs, 2) + [base], '/')
  {
    BelowRoot(root, dirs, base);
    ClassesDiffer();
  }

  lemma UnsortedDestination(root: string, dirs: seq<string>, base: string)
    requires root != "" && Directories(dirs) && Free(base, '/')
    ensures Destination(PathBelow(root, dirs, base), "unsortiert", root)
         == JoinedBy(["Unsortiert/Inbox"]
                     + ([if BaseOf(root) == "" || BaseOf(root) == "." then "Sonstige" else BaseOf(root)] + UpTo(dirs, 1))
                     + [base], '/')
  {
    BelowRoot(root, dirs, base);
    ClassesDiffer();
    if |dirs| > 2 { assert dirs[..2][..1] == dirs[..1]; }
  }

  /** Personal and knowledge documents keep at most the two upper directories below the root
      of their rule, and the name of the file; unsorted ones the name of the root and the
      directory below it. */
  lemma DestinationTold(root: string, dirs: seq<string>, base: string)
    requires root != "" && Directories(dirs) && Free(base, '/')
    ensures var rel := PathBelow(root, dirs, base);
      && Destination(rel, "persoenlich", root) == JoinedBy(["Pers\U{f6}nlich/Inbox"] + UpTo(dirs, 2) + [base], '/')
      && Destination(rel, "wissen", root) == JoinedBy(["Wissen"] + UpTo(dirs, 2) + [base], '/')
      && Destination(rel, "unsortiert", root)
         == JoinedBy(["Unsortiert/Inbox"]
                     + ([if BaseOf(root) == "" || BaseOf(root) == "." then "Sonstige" else BaseOf(root)] + UpTo(dirs, 1))
                     + [base], '/')
  {
    SortedDestination(root, dirs, base);
    UnsortedDestination(root, dirs, base);
  }

  lemma ClassesDiffer()
    ensures "persoenlich" != "wissen" && "persoenlich" != "unsortiert" && "wissen" != "unsortiert"
    ensures "Wissen" != "" && "Unsortiert/Inbox" != "" && "Pers\U{f6}nlich/Inbox" != ""
  {
    assert "persoenlich"[0] == 'p' && "wissen"[0] == 'w' && "unsortiert"[0] == 'u';
    assert |"Wissen"| == 6 && |"Unsortiert/Inbox"| == 16 && |"Pers\U{f6}nlich/Inbox"| == 16;
  }

  /** Without a root there are no directories to keep. */
  lemma RootlessTold(dirs: seq<string>, base: string)
    requires Directories(dirs) && Free(base, '/')
    ensures var rel := JoinedBy(dirs + [base], '/');
      && Destination(rel, "persoenlich", "") == JoinedBy(["Pers\U{f6}nlich/Inbox", base], '/')
      && Destination(rel, "wissen", "") == JoinedBy(["Wissen", base], '/')
      && Destination(rel, "unsortiert", "") == JoinedBy(["Unsortiert/Inbox", "Sonstige", base], '/')
  {
    PathParts(dirs, base);
    ClassesDiffer();
    assert BaseOf("") == "";
    assert ["Wissen"] + [] + [base] == ["Wissen", base];
    assert ["Pers\U{f6}nlich/Inbox"] + [] + [base] == ["Pers\U{f6}nlich/Inbox", base];
    assert ["Unsortiert/Inbox"] + (["Sonstige"] + []) + [base] == ["Unsortiert/Inbox", "Sonstige", base];
  }
}
