/** What becomes of each attachment and each mail, and the numbers that a run reports,
    told from the mails, the passwords and what goes wrong
    (tools/cmd/paperless-mail-export/main.go). */
module ExportCounts {
  import opened MailExport
  import opened ExportSafety
  import opened ExportProgress
  import opened ExportSaves

  // ----- one mail -------------------------------------------------------

  /** What a mail is processed with. */
  datatype Setting = Setting(attachments: seq<Attachment>, fates: seq<Fate>, passwords: seq<string>, seen: set<Hash>)

  predicate Unreadable(c: Setting, j: nat)
    requires j < |c.attachments|
  {
    var a := c.attachments[j];
    a.pdf && a.key.Some? && forall i :: 0 <= i < |c.passwords| ==> c.passwords[i] != a.key.value
  }

  /** Its content was exported before, or by an earlier attachment of the mail. */
  predicate Known(c: Setting, j: nat)
    requires j < |c.attachments|
  {
    || c.attachments[j].hash in c.seen
    || exists i :: 0 <= i < j && c.attachments[i].wanted && !Unreadable(c, i)
                   && c.attachments[i].hash == c.attachments[j].hash
  }

  predicate FetchedNot(c: Setting, j: nat) {
    j < |c.fates| && c.fates[j] == FetchFails
  }

  predicate Fails(c: Setting, j: nat)
    requires j < |c.attachments|
  {
    && c.attachments[j].wanted
    && (FetchedNot(c, j) || (!Known(c, j) && !Unreadable(c, j) && j < |c.fates| && c.fates[j] == MoveFails))
  }

  /** The first n attachments that are not wanted. */
  function SkippedOf(c: Setting, n: nat): set<int>
    requires n <= |c.attachments|
  {
    set j | 0 <= j < n && !c.attachments[j].wanted
  }

  /** Those whose content is known by then. */
  function DuplicatesOf(c: Setting, n: nat): set<int>
    requires n <= |c.attachments|
  {
    set j | 0 <= j < n && c.attachments[j].wanted && Known(c, j)
  }

  /** Those that no password opens. */
  function LockedOf(c: Setting, n: nat): set<int>
    requires n <= |c.attachments|
  {
    set j | 0 <= j < n && c.attachments[j].wanted && !Known(c, j) && Unreadable(c, j)
  }

  /** All others are exported. */
  function ExportedOf(c: Setting, n: nat): set<int>
    requires n <= |c.attachments|
  {
    set j | 0 <= j < n && c.attachments[j].wanted && !Known(c, j) && !Unreadable(c, j)
  }

  function HashesOf(c: Setting, js: set<int>): set<Hash> {
    set j | j in js && 0 <= j < |c.attachments| :: c.attachments[j].hash
  }

  ghost predicate NumbersTold(c: Setting, n: nat, p: Progress)
    requires n <= |c.attachments|
  {
    && p.skipped == |SkippedOf(c, n)| && p.deduped == |DuplicatesOf(c, n)|
    && p.locked == |LockedOf(c, n)| && p.exported == |ExportedOf(c, n)|
    && p.seen == c.seen + HashesOf(c, ExportedOf(c, n))
  }

  function Start(c: Setting, log: seq<Effect>): Progress {
    Progress(c.seen, log, 0, 0, 0, 0, false)
  }

  lemma KnownIffSeen(c: Setting, n: nat)
    requires n < |c.attachments|
    ensures c.attachments[n].hash in c.seen + HashesOf(c, ExportedOf(c, n)) <==> Known(c, n)
  {
    var hash := c.attachments[n].hash;
    if hash in HashesOf(c, ExportedOf(c, n)) {
      var i :| i in ExportedOf(c, n) && 0 <= i < |c.attachments| && c.attachments[i].hash == hash;
    }
    if hash !in c.seen && Known(c, n) {
      var i :| 0 <= i < n && c.attachments[i].wanted && !Unreadable(c, i) && c.attachments[i].hash == hash;
      var k := FirstKnown(c, i);
      assert k in ExportedOf(c, n);
    }
  }

  /** A readable wanted attachment whose content is not known from before has a first one
      with its content, and that is exported. */
  lemma {:induction false} FirstKnown(c: Setting, i: nat) returns (k: nat)
    requires i < |c.attachments| && c.attachments[i].wanted && !Unreadable(c, i)
    requires c.attachments[i].hash !in c.seen
    ensures k <= i && c.attachments[k].wanted && !Unreadable(c, k) && !Known(c, k)
    ensures c.attachments[k].hash == c.attachments[i].hash
  {
    if Known(c, i) {
      var j :| 0 <= j < i && c.attachments[j].wanted && !Unreadable(c, j)
               && c.attachments[j].hash == c.attachments[i].hash;
      k := FirstKnown(c, j);
    } else {
      k := i;
    }
  }

  lemma SetsNext(c: Setting, n: nat)
    requires n < |c.attachments|
    ensures SkippedOf(c, n + 1) == SkippedOf(c, n) + if c.attachments[n].wanted then {} else {n}
    ensures DuplicatesOf(c, n + 1) == DuplicatesOf(c, n) + if c.attachments[n].wanted && Known(c, n) then {n} else {}
    ensures LockedOf(c, n + 1)
         == LockedOf(c, n) + if c.attachments[n].wanted && !Known(c, n) && Unreadable(c, n) then {n} else {}
    ensures ExportedOf(c, n + 1)
         == ExportedOf(c, n) + if c.attachments[n].wanted && !Known(c, n) && !Unreadable(c, n) then {n} else {}
    ensures n !in SkippedOf(c, n) && n !in DuplicatesOf(c, n) && n !in LockedOf(c, n) && n !in ExportedOf(c, n)
  {
  }

  /** The step for an attachment that does not fail. */
  function Dealing(c: Setting, n: nat, p: Progress): Progress
    requires n < |c.attachments|
  {
    if !c.attachments[n].wanted then p.(skipped := p.skipped + 1)
    else if Known(c, n) then p.(deduped := p.deduped + 1)
    else if Unreadable(c, n) then p.(locked := p.locked + 1)
    else p.(seen := p.seen + {c.attachments[n].hash}, log := p.log + [Moved(c.attachments[n].hash)],
            exported := p.exported + 1)
  }

  lemma StepCases(c: Setting, n: nat, p: Progress)
    requires n < |c.attachments| && p.seen == c.seen + HashesOf(c, ExportedOf(c, n)) && !p.failed
    ensures AttachmentStep(p, c.attachments[n], FateOf(c.fates, n), c.passwords)
         == if Fails(c, n) then p.(failed := true) else Dealing(c, n, p)
  {
    KnownIffSeen(c, n);
    assert Unreadable(c, n) <==> IsLocked(c.attachments[n], c.passwords);
  }

  lemma DealingTold(c: Setting, n: nat, p: Progress)
    requires n < |c.attachments| && NumbersTold(c, n, p)
    ensures NumbersTold(c, n + 1, Dealing(c, n, p))
  {
    SizesNext(c, n);
    HashesNext(c, n);
  }

  lemma SizesNext(c: Setting, n: nat)
    requires n < |c.attachments|
    ensures var wanted, known, closed := c.attachments[n].wanted, Known(c, n), Unreadable(c, n);
      && |SkippedOf(c, n + 1)| == |SkippedOf(c, n)| + (if wanted then 0 else 1)
      && |DuplicatesOf(c, n + 1)| == |DuplicatesOf(c, n)| + (if wanted && known then 1 else 0)
      && |LockedOf(c, n + 1)| == |LockedOf(c, n)| + (if wanted && !known && closed then 1 else 0)
      && |ExportedOf(c, n + 1)| == |ExportedOf(c, n)| + (if wanted && !known && !closed then 1 else 0)
  {
    SetsNext(c, n);
  }

  lemma StepTold(c: Setting, n: nat, p: Progress)
    requires n < |c.attachments| && NumbersTold(c, n, p) && !p.failed
    ensures var q := AttachmentStep(p, c.attachments[n], FateOf(c.fates, n), c.passwords);
      if Fails(c, n) then q == p.(failed := true)
      else !q.failed && NumbersTold(c, n + 1, q)
  {
    StepCases(c, n, p);
    if !Fails(c, n) { DealingTold(c, n, p); }
  }

  lemma HashesNext(c: Setting, n: nat)
    requires n < |c.attachments|
    ensures HashesOf(c, ExportedOf(c, n + 1)) == HashesOf(c, ExportedOf(c, n))
      + if c.attachments[n].wanted && !Known(c, n) && !Unreadable(c, n) then {c.attachments[n].hash} else {}
  {
    SetsNext(c, n);
  }

  lemma {:induction false} AttachmentsTold(c: Setting, log: seq<Effect>, n: nat)
    requires n <= |c.attachments| && forall j :: 0 <= j < n ==> !Fails(c, j)
    ensures var p := AttachmentsFold(c.attachments[..n], c.fates, c.passwords, Start(c, log));
      !p.failed && NumbersTold(c, n, p)
  {
    if n > 0 {
      AttachmentsTold(c, log, n - 1);
      assert c.attachments[..n][..n - 1] == c.attachments[..n - 1];
      StepTold(c, n - 1, AttachmentsFold(c.attachments[..n - 1], c.fates, c.passwords, Start(c, log)));
    } else {
      assert c.attachments[..0] == [] && HashesOf(c, ExportedOf(c, 0)) == {};
    }
  }

  /** How many attachments are dealt with: all before the first that fails. */
  function Reached(c: Setting, n: nat): (r: nat)
    requires n <= |c.attachments|
    ensures r <= n && (forall j :: 0 <= j < r ==> !Fails(c, j)) && (r < n ==> Fails(c, r))
  {
    if n == 0 then 0
    else
      var before := Reached(c, n - 1);
      if before < n - 1 || Fails(c, n - 1) then before else n
  }

  /** One mail: every attachment before the first that fails is skipped, known, locked or
      exported, and is counted as that; the mail fails iff one does. */
  lemma MailTold(item: Item, passwords: seq<string>, seen: set<Hash>, log: seq<Effect>)
    ensures var c := Setting(item.mail.attachments, item.fates, passwords, seen);
      var p, all := MailProgress(item, seen, log, passwords), |item.mail.attachments|;
      if item.detailFails then p == Start(c, log).(failed := true)
      else NumbersTold(c, Reached(c, all), p) && (p.failed <==> Reached(c, all) < all)
  {
    var c := Setting(item.mail.attachments, item.fates, passwords, seen);
    var all := |c.attachments|;
    var n := Reached(c, all);
    AttachmentsTold(c, log, n);
    if n < all {
      var p := AttachmentsFold(c.attachments[..n], c.fates, passwords, Start(c, log));
      StepTold(c, n, p);
      assert c.attachments[..n + 1][..n] == c.attachments[..n];
      FailedStays(c.attachments, c.fates, passwords, Start(c, log), n + 1);
    } else {
      assert c.attachments[..n] == c.attachments;
    }
  }

  // ----- one run --------------------------------------------------------

  ghost predicate Attempted(s: Session, item: Item) {
    item.mail.hasAttachments && item.mail.id !in s.state.done
  }

  function SettingOf(cfg: Config, s: Session, item: Item): Setting {
    Setting(item.mail.attachments, item.fates, cfg.passwords, s.state.seen)
  }

  /** How many attachments of the mail are dealt with. */
  function Dealt(cfg: Config, s: Session, item: Item): nat {
    if item.detailFails then 0 else Reached(SettingOf(cfg, s, item), |item.mail.attachments|)
  }

  predicate MailFails(cfg: Config, s: Session, item: Item) {
    item.detailFails || Dealt(cfg, s, item) < |item.mail.attachments|
  }

  predicate MailLocked(cfg: Config, s: Session, item: Item) {
    !MailFails(cfg, s, item) && LockedOf(SettingOf(cfg, s, item), |item.mail.attachments|) != {}
  }

  /** What the run counts of a listed mail. A mail that was dealt with is failed, locked or
      processed; only a processed one is done, and a locked one is held back. */
  ghost predicate BookedAs(cfg: Config, s: Session, item: Item, t: Session) {
    var c, n := SettingOf(cfg, s, item), Dealt(cfg, s, item);
    var fails, locks := MailFails(cfg, s, item), MailLocked(cfg, s, item);
    && t.vars.counts == Counts(
         s.vars.counts.scanned + 1,
         s.vars.counts.processed + if fails || locks then 0 else 1,
         s.vars.counts.exported + |ExportedOf(c, n)|,
         s.vars.counts.deduped + |DuplicatesOf(c, n)|,
         s.vars.counts.skipped + |SkippedOf(c, n)|,
         s.vars.counts.failed + if fails then 1 else 0,
         s.vars.counts.locked + if locks then 1 else 0)
    && t.state == State(s.state.watermark, s.state.done + (if fails || locks then {} else {item.mail.id}),
                        s.state.seen + HashesOf(c, ExportedOf(c, n)))
    && t.vars.heldBack == s.vars.heldBack + if locks then {item.mail.id} else {}
  }

  lemma {:induction false} NoneOf(c: Setting)
    ensures SkippedOf(c, 0) == {} && DuplicatesOf(c, 0) == {} && LockedOf(c, 0) == {} && ExportedOf(c, 0) == {}
    ensures HashesOf(c, {}) == {}
  {
  }

  /** A mail that is passed over is counted as scanned and changes nothing else; any other
      is booked as its attachments tell. */
  lemma ItemTold(cfg: Config, s: Session, item: Item)
    requires !s.vars.aborted
    ensures var t := ItemStep(cfg, s, item);
      if Attempted(s, item) then BookedAs(cfg, s, item, t)
      else t == s.(vars := s.vars.(counts := s.vars.counts.(scanned := s.vars.counts.scanned + 1)))
  {
    if Attempted(s, item) {
      MailTold(item, cfg.passwords, s.state.seen, s.log);
      NoneOf(SettingOf(cfg, s, item));
      LockedIff(SettingOf(cfg, s, item), Dealt(cfg, s, item));
      MailBooked(cfg, s, item);
    }
  }

  lemma LockedIff(c: Setting, n: nat)
    requires n <= |c.attachments|
    ensures LockedOf(c, n) != {} <==> |LockedOf(c, n)| > 0
  {
  }

  lemma MailBooked(cfg: Config, s: Session, item: Item)
    requires !s.vars.aborted && Attempted(s, item)
    ensures var p := MailProgress(item, s.state.seen, s.log, cfg.passwords);
      var t, counts := ItemStep(cfg, s, item), s.vars.counts;
      var locks := !p.failed && p.locked > 0;
      && t.vars.counts == Counts(
           counts.scanned + 1, counts.processed + (if p.failed || locks then 0 else 1),
           counts.exported + p.exported, counts.deduped + p.deduped, counts.skipped + p.skipped,
           counts.failed + (if p.failed then 1 else 0), counts.locked + if locks then 1 else 0)
      && t.state == State(s.state.watermark, s.state.done + (if p.failed || locks then {} else {item.mail.id}), p.seen)
      && t.vars.heldBack == s.vars.heldBack + if locks then {item.mail.id} else {}
  {
  }

  /** The same of every mail that a run gets to. */
  lemma EachMailIsBooked(job: Job, log: seq<Effect>, n: nat)
    requires n < |Listed(job.replies, 1).0| && !DealtWith(job, log, n).vars.aborted
    ensures var s, t, item := DealtWith(job, log, n), DealtWith(job, log, n + 1), Listed(job.replies, 1).0[n];
      if Attempted(s, item) then BookedAs(job.cfg, s, item, t)
      else t == s.(vars := s.vars.(counts := s.vars.counts.(scanned := s.vars.counts.scanned + 1)))
  {
    DealtWithNext(job, log, n);
    ItemTold(job.cfg, DealtWith(job, log, n), Listed(job.replies, 1).0[n]);
  }
}
