/** When the export moves a file again, and what a repeated run finds to do. */
module ExportRepeat {
  import opened Ordering
  import opened MailExport
  import opened ExportSafety
  import opened ExportProgress

  // ----- at most once, if runs are not killed ---------------------------

  ghost predicate MovedOnce(log: seq<Effect>) {
    forall i, j :: 0 <= i < j < |log| && log[i].Moved? && log[j].Moved? ==> log[i].hash != log[j].hash
  }

  /** The outbox got every known hash once, and nothing else. */
  ghost predicate Exact(seen: set<Hash>, log: seq<Effect>) {
    MovedOnce(log) && MovedIn(log) == seen
  }

  lemma MovedOnceNext(log: seq<Effect>, e: Effect)
    requires MovedOnce(log) && (e.Moved? ==> e.hash !in MovedIn(log))
    ensures MovedOnce(log + [e])
  {
    assert forall i :: 0 <= i < |log| && log[i].Moved? ==> log[i].hash in MovedIn(log);
  }

  lemma {:induction false} AttachmentsExact(attachments: seq<Attachment>, fates: seq<Fate>, passwords: seq<string>,
                                            start: Progress)
    requires Exact(start.seen, start.log)
    ensures var p := AttachmentsFold(attachments, fates, passwords, start); Exact(p.seen, p.log)
  {
    if attachments != [] {
      var n := |attachments| - 1;
      AttachmentsExact(attachments[..n], fates, passwords, start);
      var before := AttachmentsFold(attachments[..n], fates, passwords, start);
      MovedInNext(before.log, Moved(attachments[n].hash));
      if attachments[n].hash !in before.seen { MovedOnceNext(before.log, Moved(attachments[n].hash)); }
    }
  }

  lemma SavedExact(seen: set<Hash>, log: seq<Effect>, st: State)
    requires Exact(seen, log)
    ensures Exact(seen, log + [Saved(st)])
  {
    MovedInNext(log, Saved(st));
    MovedOnceNext(log, Saved(st));
  }

  lemma {:induction false} ItemsExact(cfg: Config, s: Session, items: seq<Item>)
    requires Exact(s.state.seen, s.log)
    ensures var t := ItemsFold(cfg, s, items); Exact(t.state.seen, t.log)
  {
    if items != [] {
      var n := |items| - 1;
      ItemsExact(cfg, s, items[..n]);
      var before := ItemsFold(cfg, s, items[..n]);
      ItemExact(cfg, before, items[n]);
    }
  }

  lemma ItemExact(cfg: Config, s: Session, item: Item)
    requires Exact(s.state.seen, s.log)
    ensures var t := ItemStep(cfg, s, item); Exact(t.state.seen, t.log)
  {
    AttachmentsExact(item.mail.attachments, item.fates, cfg.passwords,
                     Progress(s.state.seen, s.log, 0, 0, 0, 0, false));
    var p := MailProgress(item, s.state.seen, s.log, cfg.passwords);
    forall st { SavedExact(p.seen, p.log, st); }
  }

  lemma RunExact(job: Job, log: seq<Effect>)
    requires Exact(LastSaved(log).seen, log)
    ensures Exact(Ran(job, log).0.state.seen, Ran(job, log).0.log)
  {
    var start := Session(LastSaved(log), log, NO_VARS);
    var s := ItemsFold(job.cfg, start, Listed(job.replies, 1).0);
    ItemsExact(job.cfg, start, Listed(job.replies, 1).0);
    SavedExact(s.state.seen, s.log, Advanced(s));
  }

  lemma JobExact(job: Job, log: seq<Effect>)
    requires Exact(LastSaved(log).seen, log) && Completed(job, log)
    ensures Exact(LastSaved(CutLog(job, log)).seen, CutLog(job, log))
  {
    RunExact(job, log);
    CutIsOnTheWay(job, log);
  }

  ghost predicate AllCompleted(jobs: seq<Job>, n: nat)
    requires n <= |jobs|
  {
    n > 0 ==> AllCompleted(jobs, n - 1) && Completed(jobs[n - 1], LogAfter(jobs, n - 1))
  }

  /** As long as every run reaches its final save, no content is moved twice. */
  lemma {:induction false} NoHashMovedTwice(jobs: seq<Job>, n: nat)
    requires n <= |jobs| && AllCompleted(jobs, n)
    ensures Exact(LastSaved(LogAfter(jobs, n)).seen, LogAfter(jobs, n))
  {
    if n > 0 {
      NoHashMovedTwice(jobs, n - 1);
      JobExact(jobs[n - 1], LogAfter(jobs, n - 1));
    }
  }

  /** A run killed between a move and the next save moves the file again: the
      export is at-least-once. */
  lemma KillMayMoveTwice()
    ensures exists jobs: seq<Job> :: |jobs| == 2 && !MovedOnce(LogAfter(jobs, 2))
  {
    var a := Attachment(true, false, "h", None);
    var mail := Mail(1, 5, true, [a]);
    var items := [Item(mail, false, [], false)];
    var cfg := Config(false, 0, [], 50);
    var killed := Job(cfg, map[1 := mail], [Page(items, 1)], false, 1);
    var jobs := [killed, killed.(cut := 2)];
    assert Listed(killed.replies, 1).0 == items;
    forall log: seq<Effect>
      ensures "h" !in LastSaved(log).seen && 1 !in LastSaved(log).done ==> log + [Moved("h")] <= Ran(killed, log).0.log
    {
      var start := Progress(LastSaved(log).seen, log, 0, 0, 0, 0, false);
      assert items[..0] == [] && [a][..0] == [];
      assert AttachmentsFold([a], [], [], start) == AttachmentStep(start, a, Fine, []);
      var s := Session(LastSaved(log), log, NO_VARS);
      assert ItemsFold(cfg, s, items) == ItemStep(cfg, s, items[0]);
    }
    assert LogAfter(jobs, 1) == [Moved("h")];
    assert LastSaved([Moved("h")]) == LastSaved([]) by { assert [Moved("h")][..0] == []; }
    assert [Moved("h"), Moved("h")] <= LogAfter(jobs, 2);
    assert LogAfter(jobs, 2)[0] == LogAfter(jobs, 2)[1] == Moved("h");
  }

  // ----- repeating a run ------------------------------------------------

  /** Nothing of this mail can be exported: each wanted file is known or locked. */
  ghost predicate Exhausted(mail: Mail, seen: set<Hash>, passwords: seq<string>) {
    forall i :: 0 <= i < |mail.attachments| && mail.attachments[i].wanted ==>
      mail.attachments[i].hash in seen || IsLocked(mail.attachments[i], passwords)
  }

  lemma {:induction false} ItemsExhaust(archive: Archive, cfg: Config, s: Session, items: seq<Item>)
    requires SessionSafe(archive, s) && FromArchive(archive, items)
    requires s.vars.counts.failed == 0
    ensures var t := ItemsFold(cfg, s, items);
      && s.state.seen <= t.state.seen
      && (!t.vars.aborted && t.vars.counts.failed == 0 ==>
            forall i :: 0 <= i < |items| && items[i].mail.hasAttachments ==>
              items[i].mail.id in t.state.done || Exhausted(items[i].mail, t.state.seen, cfg.passwords))
  {
    if items != [] {
      var n := |items| - 1;
      var before := ItemsFold(cfg, s, items[..n]);
      ItemsExhaust(archive, cfg, s, items[..n]);
      ItemsSafe(archive, cfg, s, items[..n]);
      ItemExhausts(archive, cfg, before, items[n]);
      assert forall i :: 0 <= i < n ==> items[..n][i] == items[i];
    }
  }

  lemma ItemExhausts(archive: Archive, cfg: Config, s: Session, item: Item)
    requires SessionSafe(archive, s)
    ensures var t := ItemStep(cfg, s, item);
      && s.state.seen <= t.state.seen && s.state.done <= t.state.done
      && s.vars.counts.failed <= t.vars.counts.failed
      && (!t.vars.aborted ==> !s.vars.aborted)
      && (!t.vars.aborted && t.vars.counts.failed == 0 && item.mail.hasAttachments ==>
            item.mail.id in t.state.done || Exhausted(item.mail, t.state.seen, cfg.passwords))
  {
    AttachmentsSafe(archive, item.mail.attachments, item.fates, cfg.passwords,
                    Progress(s.state.seen, s.log, 0, 0, 0, 0, false));
  }

  /** A mail with a wanted file that was never exported. */
  ghost predicate HasUnseen(mail: Mail, seen: set<Hash>) {
    exists i :: 0 <= i < |mail.attachments| && mail.attachments[i].wanted && mail.attachments[i].hash !in seen
  }

  ghost predicate Unexported(attachments: seq<Attachment>, seen: set<Hash>, i: nat) {
    i < |attachments| && attachments[i].wanted && attachments[i].hash !in seen
  }

  lemma {:induction false} ExhaustedMovesNothing(attachments: seq<Attachment>, fates: seq<Fate>,
                                                 passwords: seq<string>, start: Progress)
    requires !start.failed
    requires forall i :: 0 <= i < |attachments| && attachments[i].wanted ==>
      attachments[i].hash in start.seen || IsLocked(attachments[i], passwords)
    ensures var p := AttachmentsFold(attachments, fates, passwords, start);
      && p.seen == start.seen && p.log == start.log && p.locked >= start.locked
      && (!p.failed && (exists i :: Unexported(attachments, start.seen, i)) ==> p.locked > start.locked)
      && ((forall i :: 0 <= i < |attachments| ==> FateOf(fates, i).Fine?) ==> !p.failed)
      && (!p.failed && AllSeen(attachments, start.seen) ==> p.locked == start.locked)
  {
    if attachments != [] {
      var n := |attachments| - 1;
      assert forall i :: 0 <= i < n ==> attachments[..n][i] == attachments[i];
      ExhaustedMovesNothing(attachments[..n], fates, passwords, start);
      if i: nat :| Unexported(attachments, start.seen, i) {
        assert i < n ==> Unexported(attachments[..n], start.seen, i);
      }
    }
  }

  /** Two mails whose attachments have the same bytes also agree on whether the
      file name says PDF, and of course on the password. */
  ghost predicate NamesAgree(box: Archive) {
    forall x, y, i, j ::
      && x in box && y in box
      && 0 <= i < |box[x].attachments| && 0 <= j < |box[y].attachments|
      && box[x].attachments[i].hash == box[y].attachments[j].hash ==>
        && box[x].attachments[i].pdf == box[y].attachments[j].pdf
        && box[x].attachments[i].key == box[y].attachments[j].key
  }

  /** What a repeat may meet in the state a clean run left behind. */
  ghost predicate Leftovers(items: seq<Item>, st: State, passwords: seq<string>) {
    forall i :: 0 <= i < |items| && items[i].mail.hasAttachments && items[i].mail.id !in st.done ==>
      Exhausted(items[i].mail, st.seen, passwords)
  }

  /** The repeat in progress: nothing moved, nothing new known; if every leftover
      has an unexported file, nothing at all changed. */
  ghost predicate Idle(st: State, log: seq<Effect>, s: Session) {
    && s.state.seen == st.seen && s.state.watermark == st.watermark && st.done <= s.state.done
    && log <= s.log
    && forall k :: |log| <= k < |s.log| ==> s.log[k].Saved?
  }

  ghost predicate AllStuck(items: seq<Item>, st: State) {
    forall i :: 0 <= i < |items| && items[i].mail.hasAttachments && items[i].mail.id !in st.done ==>
      HasUnseen(items[i].mail, st.seen)
  }

  lemma RepeatedItem(cfg: Config, st: State, log: seq<Effect>, s: Session, item: Item)
    requires Idle(st, log, s) && Leftovers([item], st, cfg.passwords)
    ensures var t := ItemStep(cfg, s, item);
      && Idle(st, log, t)
      && (AllStuck([item], st) && s.state.done == st.done ==>
            t.state == s.state && t.vars.maxSent == s.vars.maxSent && t.log == s.log)
  {
    assert [item][0] == item;
    if !s.vars.aborted && item.mail.hasAttachments && item.mail.id !in s.state.done {
      var mail := item.mail;
      ExhaustedMovesNothing(mail.attachments, item.fates, cfg.passwords,
                            Progress(s.state.seen, s.log, 0, 0, 0, 0, false));
      if HasUnseen(mail, st.seen) {
        var i :| 0 <= i < |mail.attachments| && mail.attachments[i].wanted && mail.attachments[i].hash !in st.seen;
        assert Unexported(mail.attachments, st.seen, i);
      }
    }
  }

  lemma {:induction false} RepeatedItems(cfg: Config, st: State, log: seq<Effect>, items: seq<Item>)
    requires Leftovers(items, st, cfg.passwords)
    ensures var t := ItemsFold(cfg, Session(st, log, NO_VARS), items);
      && Idle(st, log, t)
      && (AllStuck(items, st) ==> t.state == st && t.vars.maxSent == 0 && t.log == log)
  {
    if items != [] {
      var n := |items| - 1;
      assert forall i :: 0 <= i < n ==> items[..n][i] == items[i];
      RepeatedItems(cfg, st, log, items[..n]);
      assert [items[n]][0] == items[n];
      RepeatedItem(cfg, st, log, ItemsFold(cfg, Session(st, log, NO_VARS), items[..n]), items[n]);
    }
  }

  lemma WindowsNest(incremental: bool, overlap: nat, a: nat, b: nat, date: nat)
    requires a <= b && date >= WindowStart(incremental, overlap, b)
    ensures date >= WindowStart(incremental, overlap, a)
  {
    WindowMonotone(overlap, a, b);
  }

  /** Same mode, same mailbox, same passwords. */
  ghost predicate Repeats(first: Job, second: Job) {
    first.cfg == second.cfg && first.box == second.box
  }

  /** A clean run, and its repeat from the state it left. The listings of both are faithful. */
  ghost predicate RepeatsClean(first: Job, log: seq<Effect>, second: Job) {
    && Faithful(first, LastSaved(log)) && Clean(first, log)
    && Repeats(first, second) && Faithful(second, LastSaved(CutLog(first, log)))
  }

  /** After a clean run, everything its repeat is shown is done or exhausted. */
  lemma CleanRunLeaves(first: Job, log: seq<Effect>, second: Job)
    requires LogSafe(first.box, log)
    requires RepeatsClean(first, log, second)
    ensures Leftovers(Listed(second.replies, 1).0, LastSaved(CutLog(first, log)), first.cfg.passwords)
  {
    var st, shown, again := LastSaved(log), Listed(first.replies, 1).0, Listed(second.replies, 1).0;
    var s := ItemsFold(first.cfg, Session(st, log, NO_VARS), shown);
    LastSavedSafe(first.box, log);
    ItemsExhaust(first.box, first.cfg, Session(st, log, NO_VARS), shown);
    CutIsOnTheWay(first, log);
    ItemsExtend(first.cfg, st, log, Session(st, log, NO_VARS), shown);
    var after := LastSaved(CutLog(first, log));
    forall i | 0 <= i < |again| && again[i].mail.hasAttachments && again[i].mail.id !in after.done
      ensures Exhausted(again[i].mail, after.seen, first.cfg.passwords)
    {
      var mail := again[i].mail;
      WindowsNest(first.cfg.incremental, first.cfg.overlap, st.watermark, after.watermark, mail.date);
      var k :| 0 <= k < |shown| && shown[k].mail == first.box[mail.id];
    }
  }

  /** After a clean run a repeat moves nothing into the outbox and learns no new
      content, whatever goes wrong in it and wherever it stops. */
  lemma RepeatExportsNothing(first: Job, log: seq<Effect>, second: Job)
    requires LogSafe(first.box, log)
    requires RepeatsClean(first, log, second)
    ensures var log1 := CutLog(first, log);
      var r := Ran(second, log1).0;
      && r.state.seen == LastSaved(log1).seen
      && log1 <= r.log && forall k :: |log1| <= k < |r.log| ==> r.log[k].Saved?
  {
    CleanRunLeaves(first, log, second);
    LeftoversExportNothing(second, CutLog(first, log));
  }

  lemma LeftoversExportNothing(job: Job, log: seq<Effect>)
    requires Leftovers(Listed(job.replies, 1).0, LastSaved(log), job.cfg.passwords)
    ensures var r := Ran(job, log).0;
      r.state.seen == LastSaved(log).seen && log <= r.log && forall k :: |log| <= k < |r.log| ==> r.log[k].Saved?
  {
    RepeatedItems(job.cfg, LastSaved(log), log, Listed(job.replies, 1).0);
  }

  /** Nothing goes wrong. */
  ghost predicate Untroubled(job: Job) {
    && Listed(job.replies, 1).1 && !job.finalSaveFails
    && forall i :: 0 <= i < |Listed(job.replies, 1).0| ==> Smooth(Listed(job.replies, 1).0[i])
  }

  ghost predicate Smooth(item: Item) {
    !item.detailFails && !item.saveFails && forall i :: 0 <= i < |item.mail.attachments| ==> FateOf(item.fates, i).Fine?
  }

  /** An untroubled repeat does finish every leftover without an unexported file. */
  lemma {:induction false} SmoothItems(cfg: Config, st: State, log: seq<Effect>, items: seq<Item>)
    requires Leftovers(items, st, cfg.passwords)
    requires forall i :: 0 <= i < |items| ==> Smooth(items[i])
    ensures var t := ItemsFold(cfg, Session(st, log, NO_VARS), items);
      && !t.vars.aborted && t.state.seen == st.seen && st.done <= t.state.done
      && forall i :: 0 <= i < |items| && items[i].mail.hasAttachments && !HasUnseen(items[i].mail, st.seen) ==>
           items[i].mail.id in t.state.done
  {
    if items != [] {
      var n := |items| - 1;
      assert forall i :: 0 <= i < n ==> items[..n][i] == items[i];
      SmoothItems(cfg, st, log, items[..n]);
      SmoothItem(cfg, st, ItemsFold(cfg, Session(st, log, NO_VARS), items[..n]), items[n]);
    }
  }

  lemma SmoothItem(cfg: Config, st: State, s: Session, item: Item)
    requires !s.vars.aborted && s.state.seen == st.seen && st.done <= s.state.done
    requires item.mail.hasAttachments && item.mail.id !in st.done ==> Exhausted(item.mail, st.seen, cfg.passwords)
    requires Smooth(item)
    ensures var t := ItemStep(cfg, s, item);
      && !t.vars.aborted && t.state.seen == st.seen && s.state.done <= t.state.done
      && (item.mail.hasAttachments && !HasUnseen(item.mail, st.seen) ==> item.mail.id in t.state.done)
  {
    if item.mail.hasAttachments && item.mail.id !in s.state.done {
      ExhaustedMovesNothing(item.mail.attachments, item.fates, cfg.passwords,
                            Progress(s.state.seen, s.log, 0, 0, 0, 0, false));
    }
  }

  /** The mails of the window that are not done. */
  ghost predicate Left(job: Job, st: State, id: int) {
    && id in job.box && job.box[id].hasAttachments && id !in st.done
    && job.box[id].date >= WindowStart(job.cfg.incremental, job.cfg.overlap, st.watermark)
  }

  ghost predicate AllLeftStuck(job: Job, st: State) {
    forall id :: Left(job, st, id) ==> HasUnseen(job.box[id], st.seen)
  }

  lemma StuckStays(job: Job, log: seq<Effect>)
    requires Faithful(job, LastSaved(log)) && Untroubled(job)
    requires Leftovers(Listed(job.replies, 1).0, LastSaved(log), job.cfg.passwords)
    requires AllLeftStuck(job, LastSaved(log))
    ensures Ran(job, log).0.state == LastSaved(log)
  {
    var st, items := LastSaved(log), Listed(job.replies, 1).0;
    RepeatedItems(job.cfg, st, log, items);
    forall i | 0 <= i < |items| && items[i].mail.hasAttachments && items[i].mail.id !in st.done
      ensures HasUnseen(items[i].mail, st.seen)
    {
      assert Left(job, st, items[i].mail.id);
    }
  }

  lemma NotStuckMoves(job: Job, log: seq<Effect>, id: int)
    requires Faithful(job, LastSaved(log)) && Untroubled(job)
    requires Leftovers(Listed(job.replies, 1).0, LastSaved(log), job.cfg.passwords)
    requires Left(job, LastSaved(log), id) && !HasUnseen(job.box[id], LastSaved(log).seen)
    ensures Ran(job, log).0.state != LastSaved(log)
  {
    var st, items := LastSaved(log), Listed(job.replies, 1).0;
    SmoothItems(job.cfg, st, log, items);
    var i :| 0 <= i < |items| && items[i].mail == job.box[id];
    assert id in ItemsFold(job.cfg, Session(st, log, NO_VARS), items).state.done;
  }

  /** Exactly when a repeat leaves Done, Seen and Watermark as they are: iff every
      mail that is left has a wanted file that was never exported. */
  lemma RepeatChangesNothingIff(first: Job, log: seq<Effect>, second: Job)
    requires LogSafe(first.box, log)
    requires RepeatsClean(first, log, second)
    requires Untroubled(second)
    ensures var log1 := CutLog(first, log);
      Ran(second, log1).0.state == LastSaved(log1) <==> AllLeftStuck(second, LastSaved(log1))
  {
    var log1 := CutLog(first, log);
    var st := LastSaved(log1);
    CleanRunLeaves(first, log, second);
    if AllLeftStuck(second, st) {
      StuckStays(second, log1);
    } else {
      var id :| Left(second, st, id) && !HasUnseen(second.box[id], st.seen);
      NotStuckMoves(second, log1, id);
    }
  }

  // ----- when the names of equal files agree ----------------------------

  /** The mail was held back, and still is: one of its locked files is unexported. */
  ghost predicate StillLocked(mail: Mail, seen: set<Hash>, passwords: seq<string>) {
    exists i :: 0 <= i < |mail.attachments| && LockedAt(mail.attachments, seen, passwords, i)
  }

  ghost predicate LockedAt(attachments: seq<Attachment>, seen: set<Hash>, passwords: seq<string>, i: nat)
    requires i < |attachments|
  {
    attachments[i].wanted && IsLocked(attachments[i], passwords) && attachments[i].hash !in seen
  }

  /** No hash of a locked file of the mailbox is among those just learned. */
  ghost predicate LocksHold(box: Archive, before: set<Hash>, after: set<Hash>, passwords: seq<string>) {
    forall id, i ::
      id in box && 0 <= i < |box[id].attachments| && IsLocked(box[id].attachments[i], passwords) ==>
        (box[id].attachments[i].hash !in before ==> box[id].attachments[i].hash !in after)
  }

  lemma {:induction false} AttachmentsKeepLocks(box: Archive, mail: Mail, n: nat, fates: seq<Fate>,
                                                passwords: seq<string>, start: Progress)
    requires NamesAgree(box) && mail.id in box && box[mail.id] == mail && n <= |mail.attachments|
    requires !start.failed
    ensures var p := AttachmentsFold(mail.attachments[..n], fates, passwords, start);
      && start.seen <= p.seen && LocksHold(box, start.seen, p.seen, passwords)
      && (!p.failed && p.locked > start.locked ==>
            exists i :: 0 <= i < n && LockedAt(mail.attachments, p.seen, passwords, i))
  {
    if n > 0 {
      AttachmentsKeepLocks(box, mail, n - 1, fates, passwords, start);
      assert mail.attachments[..n][..n - 1] == mail.attachments[..n - 1];
      var before := AttachmentsFold(mail.attachments[..n - 1], fates, passwords, start);
      var a := mail.attachments[n - 1];
      var p := AttachmentStep(before, a, FateOf(fates, n - 1), passwords);
      if p.seen != before.seen {
        assert !IsLocked(box[mail.id].attachments[n - 1], passwords);
      } else if !before.failed && p.locked > before.locked {
        assert LockedAt(mail.attachments, p.seen, passwords, n - 1);
      }
      if !before.failed && before.locked > start.locked {
        var i :| 0 <= i < n - 1 && LockedAt(mail.attachments, before.seen, passwords, i);
        assert IsLocked(box[mail.id].attachments[i], passwords);
        assert LockedAt(mail.attachments, p.seen, passwords, i);
      }
    }
  }

  lemma ItemKeepsLocks(box: Archive, cfg: Config, s: Session, item: Item)
    requires NamesAgree(box) && item.mail.id in box && box[item.mail.id] == item.mail
    ensures var t := ItemStep(cfg, s, item);
      && s.state.done <= t.state.done
      && s.vars.counts.failed <= t.vars.counts.failed
      && (!t.vars.aborted ==> !s.vars.aborted)
      && LocksHold(box, s.state.seen, t.state.seen, cfg.passwords)
      && (!t.vars.aborted && t.vars.counts.failed == 0 && item.mail.hasAttachments && item.mail.id !in t.state.done ==>
            StillLocked(item.mail, t.state.seen, cfg.passwords))
  {
    var mail := item.mail;
    AttachmentsKeepLocks(box, mail, |mail.attachments|, item.fates, cfg.passwords,
                         Progress(s.state.seen, s.log, 0, 0, 0, 0, false));
    assert mail.attachments[..|mail.attachments|] == mail.attachments;
  }

  lemma StillLockedStays(box: Archive, id: int, before: set<Hash>, after: set<Hash>, passwords: seq<string>)
    requires id in box && StillLocked(box[id], before, passwords) && LocksHold(box, before, after, passwords)
    ensures StillLocked(box[id], after, passwords)
  {
    var i :| 0 <= i < |box[id].attachments| && LockedAt(box[id].attachments, before, passwords, i);
    assert IsLocked(box[id].attachments[i], passwords);
    assert LockedAt(box[id].attachments, after, passwords, i);
  }

  lemma {:induction false} ItemsKeepLocks(box: Archive, cfg: Config, s: Session, items: seq<Item>)
    requires NamesAgree(box) && FromArchive(box, items)
    ensures var t := ItemsFold(cfg, s, items);
      !t.vars.aborted && t.vars.counts.failed == 0 ==>
        forall i :: 0 <= i < |items| && items[i].mail.hasAttachments && items[i].mail.id !in t.state.done ==>
          StillLocked(items[i].mail, t.state.seen, cfg.passwords)
  {
    if items != [] {
      var n := |items| - 1;
      var before, t := ItemsFold(cfg, s, items[..n]), ItemsFold(cfg, s, items);
      ItemsKeepLocks(box, cfg, s, items[..n]);
      ItemKeepsLocks(box, cfg, before, items[n]);
      if !t.vars.aborted && t.vars.counts.failed == 0 {
        forall i | 0 <= i < n && items[i].mail.hasAttachments && items[i].mail.id !in t.state.done
          ensures StillLocked(items[i].mail, t.state.seen, cfg.passwords)
        {
          assert items[..n][i] == items[i];
          StillLockedStays(box, items[i].mail.id, before.state.seen, t.state.seen, cfg.passwords);
        }
      }
    }
  }

  /** If equal files agree on their names, a repeat after a clean run leaves Done,
      Seen and Watermark unchanged, even with locked mails. */
  lemma RepeatChangesNothing(first: Job, log: seq<Effect>, second: Job)
    requires NamesAgree(first.box) && LogSafe(first.box, log)
    requires RepeatsClean(first, log, second)
    requires Untroubled(second)
    ensures Ran(second, CutLog(first, log)).0.state == LastSaved(CutLog(first, log))
  {
    var st, shown := LastSaved(log), Listed(first.replies, 1).0;
    var after := LastSaved(CutLog(first, log));
    var s := ItemsFold(first.cfg, Session(st, log, NO_VARS), shown);
    ItemsKeepLocks(first.box, first.cfg, Session(st, log, NO_VARS), shown);
    CutIsOnTheWay(first, log);
    RunForgetsNoWatermark(first, log);
    forall id | Left(second, after, id) ensures HasUnseen(second.box[id], after.seen) {
      var mail := first.box[id];
      WindowsNest(first.cfg.incremental, first.cfg.overlap, st.watermark, after.watermark, mail.date);
      var k :| 0 <= k < |shown| && shown[k].mail == mail;
      assert StillLocked(mail, s.state.seen, first.cfg.passwords);
      var i :| 0 <= i < |mail.attachments| && LockedAt(mail.attachments, s.state.seen, first.cfg.passwords, i);
    }
    RepeatChangesNothingIff(first, log, second);
  }

  lemma RunForgetsNoWatermark(job: Job, log: seq<Effect>)
    ensures Completed(job, log) ==> LastSaved(log).watermark <= LastSaved(CutLog(job, log)).watermark
  {
    CutIsOnTheWay(job, log);
    ItemsExtend(job.cfg, LastSaved(log), log, Session(LastSaved(log), log, NO_VARS), Listed(job.replies, 1).0);
  }

  // The same bytes once as a locked PDF and once under another wanted name.
  const AS_PDF := Attachment(true, true, "h", Some("pw"))
  const AS_DOC := Attachment(true, false, "h", Some("pw"))
  const PDF_MAIL := Item(Mail(1, 5, true, [AS_PDF]), false, [], false)
  const DOC_MAIL := Item(Mail(2, 6, true, [AS_DOC]), false, [], false)
  const TWO_NAMES := Job(Config(false, 0, [], 50), map[1 := PDF_MAIL.mail, 2 := DOC_MAIL.mail],
                         [Page([PDF_MAIL, DOC_MAIL], 1)], false, 9)
  const AFTER_TWO_NAMES := State(6, {2}, {"h"})

  lemma OneAttachment(item: Item, a: Attachment, seen: set<Hash>, log: seq<Effect>)
    requires item.mail.attachments == [a] && !item.detailFails && item.fates == []
    ensures MailProgress(item, seen, log, []) == AttachmentStep(Progress(seen, log, 0, 0, 0, 0, false), a, Fine, [])
  {
    var start := Progress(seen, log, 0, 0, 0, 0, false);
    assert |item.mail.attachments| == 1 && item.mail.attachments[0] == a;
    assert AttachmentsFold(item.mail.attachments[..0], item.fates, [], start) == start;
  }

  lemma TwoNamesRun()
    ensures Ran(TWO_NAMES, []).0.state == AFTER_TWO_NAMES && Ran(TWO_NAMES, []).1
    ensures Ran(TWO_NAMES, []).0.vars.counts.failed == 0
    ensures Ran(TWO_NAMES, []).0.log == [Moved("h"), Saved(AFTER_TWO_NAMES)]
  {
    var cfg, start := TWO_NAMES.cfg, Session(NO_STATE, [], NO_VARS);
    OneAttachment(PDF_MAIL, AS_PDF, {}, []);
    var s := ItemStep(cfg, start, PDF_MAIL);
    assert s.state == NO_STATE && s.log == [];
    OneAttachment(DOC_MAIL, AS_DOC, {}, []);
    assert [PDF_MAIL, DOC_MAIL][..1] == [PDF_MAIL] && [PDF_MAIL][..0] == [];
    assert ItemsFold(cfg, start, [PDF_MAIL]) == s;
    assert ItemsFold(cfg, start, [PDF_MAIL, DOC_MAIL]) == ItemStep(cfg, s, DOC_MAIL);
  }

  lemma TwoNamesFaithful(st: State)
    ensures Faithful(TWO_NAMES, st) && Untroubled(TWO_NAMES)
  {
    var listed := Listed(TWO_NAMES.replies, 1);
    assert listed == ([PDF_MAIL, DOC_MAIL], true);
    assert listed.0[0].mail == TWO_NAMES.box[1] && listed.0[1].mail == TWO_NAMES.box[2];
  }

  /** Without that the promise fails. The first run holds the PDF back and exports
      the other copy; its repeat counts the PDF as a duplicate and marks its mail
      done. */
  lemma SameBytesTwoNames()
    ensures Faithful(TWO_NAMES, NO_STATE) && Clean(TWO_NAMES, [])
    ensures var log1 := CutLog(TWO_NAMES, []);
      Faithful(TWO_NAMES, LastSaved(log1)) && Untroubled(TWO_NAMES)
      && Ran(TWO_NAMES, log1).0.state != LastSaved(log1)
  {
    TwoNamesRun();
    TwoNamesFaithful(NO_STATE);
    TwoNamesFaithful(AFTER_TWO_NAMES);
    assert LastSaved(CutLog(TWO_NAMES, [])) == AFTER_TWO_NAMES;
    assert LogSafe(TWO_NAMES.box, []);
    assert Left(TWO_NAMES, AFTER_TWO_NAMES, 1);
    assert !HasUnseen(TWO_NAMES.box[1], AFTER_TWO_NAMES.seen);
    RepeatChangesNothingIff(TWO_NAMES, [], TWO_NAMES);
  }
}
