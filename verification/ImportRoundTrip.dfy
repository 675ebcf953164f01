/** From the plan through the manifest file and back: what is copied is what was planned
    (tools/cmd/paperless-import/main.go). */
module ImportRoundTrip {
  import opened ImportRow
  import opened ImportPlan
  import Manifest

  /** No tab and no line break. */
  predicate Plain(s: string) {
    Free(s, '\t') && Free(s, '\n')
  }

  ghost predicate PlainAll(parts: seq<string>) {
    forall i :: 0 <= i < |parts| ==> Plain(parts[i])
  }

  /** Normal forms, rules and hashes introduce none. */
  ghost predicate PlainSetup(rules: Rules, sha: string -> string) {
    && (forall rel :: Plain(rel) ==> Plain(rules.nfc(rel)))
    && (forall i :: 0 <= i < |rules.list| ==> Plain(rules.list[i].cls) && Plain(rules.list[i].root))
    && (forall c :: Plain(sha(c)) && Free(sha(c), '\r'))
  }

  lemma {:induction false} SplitPlain(s: string, c: char)
    requires Plain(s)
    ensures PlainAll(Split(s, c))
    decreases |s|
  {
    var i := Find(s, c);
    if i < |s| { SplitPlain(s[i + 1..], c); }
  }

  lemma {:induction false} JoinPlain(parts: seq<string>)
    requires PlainAll(parts)
    ensures Plain(JoinedBy(parts, '/'))
  {
    if |parts| > 1 { JoinPlain(parts[1..]); }
  }

  lemma {:induction false} NamesPlain(parts: seq<string>)
    requires PlainAll(parts)
    ensures PlainAll(NamesOf(parts))
  {
    if parts != [] { NamesPlain(parts[..|parts| - 1]); }
  }

  lemma {:induction false} ClassifiedPlain(rel: string, list: seq<PathRule>)
    requires Plain(rel) && forall i :: 0 <= i < |list| ==> Plain(list[i].cls) && Plain(list[i].root)
    ensures Plain(Classified(rel, list).0) && Plain(Classified(rel, list).1)
  {
    if list == [] {
      SplitPlain(rel, '/');
      JoinPlain(Taken(Split(rel, '/'), 2));
    } else {
      ClassifiedPlain(rel, list[1..]);
    }
  }

  lemma DirsPlain(path: string)
    requires Plain(path)
    ensures PlainAll(DirsOf(path)) && Plain(BaseOf(path))
  {
    var parts := Split(path, '/');
    SplitPlain(path, '/');
    NamesPlain(if parts == [] then [] else parts[..|parts| - 1]);
  }

  lemma TagsPlain(rel: string, cls: Class, root: string)
    requires Plain(rel) && Plain(root)
    ensures PlainAll(TagsOf(rel, cls, root))
  {
    DirsPlain(TrimPrefix(TrimPrefix(rel, root), "/"));
    DirsPlain(root);
  }

  lemma DestinationPlain(rel: string, cls: Class, root: string)
    requires Plain(rel) && Plain(root)
    ensures Plain(Destination(rel, cls, root))
  {
    var top := if TopName(cls) == "" then [] else [TopName(cls)];
    TagsPlain(rel, cls, root);
    DirsPlain(rel);
    TopPlain(cls);
    AppendPlain(top, TagsOf(rel, cls, root));
    AppendPlain(top + TagsOf(rel, cls, root), [BaseOf(rel)]);
    JoinPlain(top + TagsOf(rel, cls, root) + [BaseOf(rel)]);
  }

  lemma AppendPlain(a: seq<string>, b: seq<string>)
    requires PlainAll(a) && PlainAll(b)
    ensures PlainAll(a + b)
  {
  }

  lemma TopPlain(cls: Class)
    ensures Plain(TopName(cls))
  {
  }

  lemma DestPlain(rel: string, rules: Rules, sha: string -> string)
    requires Plain(rel) && PlainSetup(rules, sha)
    ensures Plain(ClassOf(rel, rules)) && Plain(DestOf(rel, rules))
  {
    var name := rules.nfc(rel);
    ClassifiedPlain(name, rules.list);
    DestinationPlain(name, Classified(name, rules.list).0, Classified(name, rules.list).1);
  }

  lemma {:induction false} RowHashes(ks: seq<Keyed>, hash: File -> string, x: nat)
    requires x < |Dedupe(ks, hash).rows|
    ensures exists i :: 0 <= i < |ks| && Dedupe(ks, hash).rows[x] == RowOf(ks[i], hash(ks[i].file))
  {
    var n := |ks| - 1;
    if x < |Dedupe(ks[..n], hash).rows| {
      RowHashes(ks[..n], hash, x);
      var i :| 0 <= i < n && Dedupe(ks[..n], hash).rows[x] == RowOf(ks[..n][i], hash(ks[..n][i].file));
      assert ks[i] == ks[..n][i];
    }
  }

  lemma PlanClean(ks: seq<Keyed>, files: seq<File>, rules: Rules, contents: Contents, sha: string -> string, x: nat)
    requires IsSorting(ks, files, rules) && PlainSetup(rules, sha)
    requires forall f :: f in files ==> Plain(f.rel)
    requires x < |PlanOf(ks, files, contents, sha).rows|
    ensures Manifest.Clean(PlanOf(ks, files, contents, sha).rows[x])
  {
    RowHashes(ks, f => BucketHash(files, contents, sha, f), x);
    var i :| 0 <= i < |ks|
             && PlanOf(ks, files, contents, sha).rows[x] == RowOf(ks[i], BucketHash(files, contents, sha, ks[i].file));
    RowClean(ks[i], files, rules, contents, sha);
  }

  lemma RowClean(k: Keyed, files: seq<File>, rules: Rules, contents: Contents, sha: string -> string)
    requires PlainSetup(rules, sha) && Plain(k.file.rel) && k == KeyOf(k.file, rules)
    ensures Manifest.Clean(RowOf(k, BucketHash(files, contents, sha, k.file)))
  {
    DestPlain(k.file.rel, rules, sha);
  }

  /** Planning, writing the manifest and reading it back gives the planned rows, if no
      path holds a tab or a line break and no line is longer than the reader's buffer. */
  method PlanAndReload(files: seq<File>, rules: Rules, contents: Contents, sha: string -> string)
    returns (plan: Plan, rows: seq<Row>, ok: bool)
    requires Walked(files, contents)
    ensures PlainSetup(rules, sha) && (forall f :: f in files ==> Plain(f.rel)) ==>
      && rows == plan.rows[..Manifest.Fitting(plan.rows)]
      && (ok <==> Manifest.Fitting(plan.rows) == |plan.rows|)
    ensures CollisionFree(sha) ==> KeepsLeast(plan.rows, files, rules, contents)
  {
    plan := BuildPlan(files, rules, contents, sha);
    var text := Manifest.WriteManifest(plan.rows);
    rows, ok := Manifest.ReadManifest(text);
    if PlainSetup(rules, sha) && forall f :: f in files ==> Plain(f.rel) {
      ghost var ks :| IsSorting(ks, files, rules) && PlanOf(ks, files, contents, sha) == plan;
      forall x | 0 <= x < |plan.rows| ensures Manifest.Clean(plan.rows[x]) {
        PlanClean(ks, files, rules, contents, sha, x);
      }
      Manifest.ManifestRoundTrip(plan.rows);
    }
  }
}
