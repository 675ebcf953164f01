/** What the export gets done over many runs: nothing is forgotten behind the
    watermark, nothing is exported twice, and a repeat finds nothing to do. */
module ExportProgress {
  import opened MailExport
  import opened ExportSafety

  // ----- what a run makes of the state ----------------------------------

  /** A state saved on the way: more is done and known, the watermark stays. */
  ghost predicate OnTheWay(st: State, later: State) {
    later.watermark == st.watermark && st.done <= later.done && st.seen <= later.seen
  }

  /** The session only ever adds to the log, and every state it saves is on the way. */
  ghost predicate Extends(st: State, log: seq<Effect>, s: Session) {
    && OnTheWay(st, s.state)
    && log <= s.log
    && forall k :: |log| <= k < |s.log| && s.log[k].Saved? ==> OnTheWay(st, s.log[k].state)
  }

  lemma {:induction false} AttachmentsOnlyMove(attachments: seq<Attachment>, fates: seq<Fate>,
                                               passwords: seq<string>, start: Progress)
    ensures var p := AttachmentsFold(attachments, fates, passwords, start);
      && start.seen <= p.seen && start.log <= p.log
      && forall k :: |start.log| <= k < |p.log| ==> p.log[k].Moved?
  {
    if attachments != [] {
      AttachmentsOnlyMove(attachments[..|attachments| - 1], fates, passwords, start);
    }
  }

  /** What is known about a mail once the run has dealt with it. */
  ghost predicate Settled(mail: Mail, s: Session) {
    !mail.hasAttachments || mail.id in s.state.done || mail.id in s.vars.heldBack || s.vars.counts.failed > 0
  }

  lemma ItemExtends(cfg: Config, st: State, log: seq<Effect>, s: Session, item: Item)
    requires Extends(st, log, s)
    ensures var t := ItemStep(cfg, s, item);
      && Extends(st, log, t)
      && s.state.done <= t.state.done && s.vars.heldBack <= t.vars.heldBack
      && s.vars.counts.failed <= t.vars.counts.failed
      && (!t.vars.aborted ==> !s.vars.aborted && Settled(item.mail, t))
  {
    AttachmentsOnlyMove(item.mail.attachments, item.fates, cfg.passwords,
                        Progress(s.state.seen, s.log, 0, 0, 0, 0, false));
  }

  lemma {:induction false} ItemsExtend(cfg: Config, st: State, log: seq<Effect>, s: Session, items: seq<Item>)
    requires Extends(st, log, s)
    ensures var t := ItemsFold(cfg, s, items);
      && Extends(st, log, t)
      && (!t.vars.aborted ==> forall i :: 0 <= i < |items| ==> Settled(items[i].mail, t))
  {
    if items != [] {
      var n := |items| - 1;
      ItemsExtend(cfg, st, log, s, items[..n]);
      var before := ItemsFold(cfg, s, items[..n]);
      ItemExtends(cfg, st, log, before, items[n]);
      assert forall i :: 0 <= i < n ==> items[..n][i] == items[i];
    }
  }

  // ----- the numbers a run reports --------------------------------------

  function MovedCount(log: seq<Effect>): nat {
    if log == [] then 0 else MovedCount(log[..|log| - 1]) + if log[|log| - 1].Moved? then 1 else 0
  }

  lemma MovedCountNext(log: seq<Effect>, e: Effect)
    ensures MovedCount(log + [e]) == MovedCount(log) + if e.Moved? then 1 else 0
  {
    assert (log + [e])[..|log|] == log;
  }

  lemma {:induction false} AttachmentsCount(attachments: seq<Attachment>, fates: seq<Fate>, passwords: seq<string>,
                                            start: Progress)
    ensures var p := AttachmentsFold(attachments, fates, passwords, start);
      && MovedCount(p.log) - p.exported == MovedCount(start.log) - start.exported
      && |p.seen| - p.exported == |start.seen| - start.exported
  {
    if attachments != [] {
      var n := |attachments| - 1;
      AttachmentsCount(attachments[..n], fates, passwords, start);
      var before := AttachmentsFold(attachments[..n], fates, passwords, start);
      MovedCountNext(before.log, Moved(attachments[n].hash));
    }
  }

  /** The reported numbers are those of the outbox, the Seen set and the Done set. */
  ghost predicate Counted(st: State, log: seq<Effect>, s: Session) {
    && s.vars.counts.exported == MovedCount(s.log) - MovedCount(log) == |s.state.seen| - |st.seen|
    && s.vars.counts.processed == |s.state.done| - |st.done|
  }

  lemma FinishedCounts(cfg: Config, st: State, log: seq<Effect>, item: Item, failed: bool, locked: bool, s: Session)
    requires Counted(st, log, s) && item.mail.id !in s.state.done
    ensures Counted(st, log, Finished(cfg, item, failed, locked, s))
    ensures Finished(cfg, item, failed, locked, s).vars.counts.scanned == s.vars.counts.scanned
  {
    MovedCountNext(s.log, Saved(s.state.(done := s.state.done + {item.mail.id})));
  }

  lemma ItemCounts(cfg: Config, st: State, log: seq<Effect>, s: Session, item: Item)
    requires Counted(st, log, s)
    ensures Counted(st, log, ItemStep(cfg, s, item))
    ensures !s.vars.aborted ==> ItemStep(cfg, s, item).vars.counts.scanned == s.vars.counts.scanned + 1
  {
    if !s.vars.aborted && item.mail.hasAttachments && item.mail.id !in s.state.done {
      AttachmentsCount(item.mail.attachments, item.fates, cfg.passwords,
                       Progress(s.state.seen, s.log, 0, 0, 0, 0, false));
      var p := MailProgress(item, s.state.seen, s.log, cfg.passwords);
      var counts := s.vars.counts.(scanned := s.vars.counts.scanned + 1);
      FinishedCounts(cfg, st, log, item, p.failed, p.locked > 0,
                     Session(s.state.(seen := p.seen), p.log, s.vars.(counts := Tallied(counts, p))));
    }
  }

  lemma {:induction false} ItemsCount(cfg: Config, st: State, log: seq<Effect>, items: seq<Item>)
    ensures var t := ItemsFold(cfg, Session(st, log, NO_VARS), items);
      Counted(st, log, t) && (!t.vars.aborted ==> t.vars.counts.scanned == |items|)
  {
    if items != [] {
      var n := |items| - 1;
      ItemsCount(cfg, st, log, items[..n]);
      ItemCounts(cfg, st, log, ItemsFold(cfg, Session(st, log, NO_VARS), items[..n]), items[n]);
    }
  }

  /** Of a run that reaches its final save: exported is the number of files moved, and
      of contents learned; processed is the number of mails newly done; scanned is the
      number of mails listed. */
  lemma ReportedNumbersAreTrue(job: Job, log: seq<Effect>)
    requires Ran(job, log).1
    ensures var s := Ran(job, log).0;
      Counted(LastSaved(log), log, s) && s.vars.counts.scanned == |Listed(job.replies, 1).0|
  {
    var listed := Listed(job.replies, 1).0;
    var s := ItemsFold(job.cfg, Session(LastSaved(log), log, NO_VARS), listed);
    ItemsCount(job.cfg, LastSaved(log), log, listed);
    MovedCountNext(s.log, Saved(Advanced(s)));
  }

  // ----- nothing is forgotten -------------------------------------------

  /** The server lists mails of its mailbox that lie in the window asked for, and
      a list that reaches its end holds all of them. */
  ghost predicate Faithful(job: Job, st: State) {
    var listed := Listed(job.replies, 1);
    var start := WindowStart(job.cfg.incremental, job.cfg.overlap, st.watermark);
    && FromArchive(job.box, listed.0)
    && (forall i :: 0 <= i < |listed.0| ==> listed.0[i].mail.date >= start)
    && (forall id :: id in job.box ==> job.box[id].id == id)
    && (listed.1 ==> forall id :: id in job.box && job.box[id].hasAttachments && job.box[id].date >= start ==>
          exists i :: 0 <= i < |listed.0| && listed.0[i].mail == job.box[id])
  }

  /** The run was neither cut off nor stopped by an error. */
  ghost predicate Completed(job: Job, log: seq<Effect>) {
    Ran(job, log).1 && CutLog(job, log) == Ran(job, log).0.log
  }

  ghost predicate Clean(job: Job, log: seq<Effect>) {
    Completed(job, log) && Ran(job, log).0.vars.counts.failed == 0
  }

  /** An attachment mail that is neither done nor held back as locked. */
  ghost predicate Outstanding(mail: Mail, st: State, held: set<int>) {
    mail.hasAttachments && mail.id !in st.done && mail.id !in held
  }

  ghost predicate NothingOutstanding(box: Archive, st: State, held: set<int>) {
    forall id :: id in box ==> !Outstanding(box[id], st, held)
  }

  /** Whatever is outstanding lies in the next incremental window. */
  ghost predicate NothingForgotten(box: Archive, overlap: nat, st: State, held: set<int>) {
    forall id :: id in box && Outstanding(box[id], st, held) ==>
      box[id].date >= WindowStart(true, overlap, st.watermark)
  }

  ghost function HeldAfter(job: Job, log: seq<Effect>, held: set<int>): set<int> {
    if Completed(job, log) then held + Ran(job, log).0.vars.heldBack else held
  }

  lemma WindowMonotone(overlap: nat, a: nat, b: nat)
    requires a <= b
    ensures WindowStart(true, overlap, a) <= WindowStart(true, overlap, b) || WindowStart(true, overlap, b) <= 0
  {
    var x, y := a - overlap, b - overlap;
    assert x / DAY <= y / DAY;
    assert x - x % DAY == DAY * (x / DAY) && y - y % DAY == DAY * (y / DAY);
  }

  /** A cut-off run has saved nothing, or a state on the way. */
  lemma CutIsOnTheWay(job: Job, log: seq<Effect>)
    ensures !Completed(job, log) ==> OnTheWay(LastSaved(log), LastSaved(CutLog(job, log)))
    ensures Completed(job, log) ==> LastSaved(CutLog(job, log)) == Ran(job, log).0.state
  {
    var st, listed := LastSaved(log), Listed(job.replies, 1);
    var s := ItemsFold(job.cfg, Session(st, log, NO_VARS), listed.0);
    ItemsExtend(job.cfg, st, log, Session(st, log, NO_VARS), listed.0);
    var full, cut := Ran(job, log).0.log, CutLog(job, log);
    if !Completed(job, log) {
      assert cut <= s.log;
      LastSavedOnTheWay(st, log, cut);
    }
  }

  lemma {:induction false} LastSavedOnTheWay(st: State, log: seq<Effect>, longer: seq<Effect>)
    requires log <= longer && st == LastSaved(log)
    requires forall k :: |log| <= k < |longer| && longer[k].Saved? ==> OnTheWay(st, longer[k].state)
    ensures OnTheWay(st, LastSaved(longer))
  {
    if log == longer {
    } else {
      var n := |longer| - 1;
      if !longer[n].Saved? { LastSavedOnTheWay(st, log, longer[..n]); }
    }
  }

  /** One run, however it ends: the watermark does not go down, what is outstanding
      stays inside the window, and after a clean run nothing is outstanding. */
  lemma RunForgetsNothing(job: Job, log: seq<Effect>, held: set<int>)
    requires Faithful(job, LastSaved(log))
    requires NothingForgotten(job.box, job.cfg.overlap, LastSaved(log), held)
    ensures var st, after := LastSaved(log), LastSaved(CutLog(job, log));
      && st.watermark <= after.watermark
      && NothingForgotten(job.box, job.cfg.overlap, after, HeldAfter(job, log, held))
      && (Clean(job, log) ==> NothingOutstanding(job.box, after, HeldAfter(job, log, held)))
  {
    var st, listed := LastSaved(log), Listed(job.replies, 1);
    var s := ItemsFold(job.cfg, Session(st, log, NO_VARS), listed.0);
    ItemsExtend(job.cfg, st, log, Session(st, log, NO_VARS), listed.0);
    CutIsOnTheWay(job, log);
    if Clean(job, log) {
      var after := Ran(job, log).0.state;
      forall id | id in job.box ensures !Outstanding(job.box[id], after, HeldAfter(job, log, held)) {
        var mail := job.box[id];
        if mail.hasAttachments && mail.date >= WindowStart(job.cfg.incremental, job.cfg.overlap, st.watermark) {
          var i :| 0 <= i < |listed.0| && listed.0[i].mail == mail;
          assert Settled(listed.0[i].mail, s);
        }
      }
    }
  }

  /** While mails are booked: the latest date is that of a mail just done, and no mail
      just done is later. */
  ghost predicate LatestDone(archive: Archive, st: State, s: Session) {
    && (forall id :: id in s.state.done && id !in st.done ==> id in archive && archive[id].date <= s.vars.maxSent)
    && (s.vars.maxSent > 0 ==>
          exists id :: id in s.state.done && id !in st.done && id in archive && archive[id].date == s.vars.maxSent)
  }

  lemma {:induction false} ItemsLatestDone(archive: Archive, cfg: Config, st: State, s: Session, items: seq<Item>)
    requires FromArchive(archive, items) && LatestDone(archive, st, s) && st.done <= s.state.done
    ensures LatestDone(archive, st, ItemsFold(cfg, s, items)) && st.done <= ItemsFold(cfg, s, items).state.done
  {
    if items != [] {
      var n := |items| - 1;
      ItemsLatestDone(archive, cfg, st, s, items[..n]);
      ItemLatestDone(archive, cfg, st, ItemsFold(cfg, s, items[..n]), items[n]);
    }
  }

  lemma ItemLatestDone(archive: Archive, cfg: Config, st: State, s: Session, item: Item)
    requires item.mail.id in archive && archive[item.mail.id] == item.mail
    requires LatestDone(archive, st, s) && st.done <= s.state.done
    ensures LatestDone(archive, st, ItemStep(cfg, s, item)) && st.done <= ItemStep(cfg, s, item).state.done
  {
    var t := ItemStep(cfg, s, item);
    if t.vars.maxSent > s.vars.maxSent {
      assert item.mail.id in t.state.done && archive[item.mail.id].date == t.vars.maxSent;
    } else if t.vars.maxSent > 0 {
      var id :| id in s.state.done && id !in st.done && id in archive && archive[id].date == s.vars.maxSent;
      assert id in t.state.done;
    }
  }

  ghost predicate NewlyDone(box: Archive, before: State, after: State, id: int) {
    id in after.done && id !in before.done && id in box
  }

  /** The watermark after a run: moved only by a clean run, and then to the date of the
      latest mail it finished, unless that lies behind it. */
  lemma WatermarkIsLatestDone(job: Job, log: seq<Effect>)
    requires Faithful(job, LastSaved(log))
    ensures var st, after := LastSaved(log), LastSaved(CutLog(job, log));
      && (!Clean(job, log) ==> after.watermark == st.watermark)
      && (Clean(job, log) ==>
            && (forall id :: NewlyDone(job.box, st, after, id) ==> job.box[id].date <= after.watermark)
            && (after.watermark > st.watermark ==>
                  exists id :: NewlyDone(job.box, st, after, id) && job.box[id].date == after.watermark))
  {
    var st, listed := LastSaved(log), Listed(job.replies, 1).0;
    var s := ItemsFold(job.cfg, Session(st, log, NO_VARS), listed);
    ItemsLatestDone(job.box, job.cfg, st, Session(st, log, NO_VARS), listed);
    ItemsExtend(job.cfg, st, log, Session(st, log, NO_VARS), listed);
    CutIsOnTheWay(job, log);
    if Clean(job, log) && s.vars.maxSent > st.watermark {
      var id :| id in s.state.done && id !in st.done && id in job.box && job.box[id].date == s.vars.maxSent;
      assert NewlyDone(job.box, st, LastSaved(CutLog(job, log)), id);
    }
  }

  /** The mails the server has for run n, and what it may have gained since the run
      before: dated mails inside the window that is then current. */
  ghost predicate GainsOnlyRecent(before: Archive, after: Archive, overlap: nat, st: State) {
    && (forall id :: id in before ==> id in after && after[id] == before[id])
    && (forall id :: id in after && id !in before ==> after[id].date >= WindowStart(true, overlap, st.watermark))
  }

  ghost predicate Plausible(jobs: seq<Job>, overlap: nat) {
    && (forall n :: 0 <= n < |jobs| ==>
          jobs[n].cfg.overlap == overlap && Faithful(jobs[n], LastSaved(LogAfter(jobs, n))))
    && (forall n :: 0 < n < |jobs| ==>
          GainsOnlyRecent(jobs[n - 1].box, jobs[n].box, overlap, LastSaved(LogAfter(jobs, n))))
  }

  /** The mails reported as locked by completed runs so far. */
  ghost function HeldBack(jobs: seq<Job>, n: nat): set<int>
    requires n <= |jobs|
  {
    if n == 0 then {} else HeldAfter(jobs[n - 1], LogAfter(jobs, n - 1), HeldBack(jobs, n - 1))
  }

  /** After any mix of incremental, sweep, failing, aborted and killed runs, no
      outstanding mail of the mailbox has slipped behind the next window; the
      watermark never went down; and after a clean run nothing is outstanding. */
  lemma {:induction false} BacklogStaysInWindow(jobs: seq<Job>, overlap: nat, n: nat)
    requires Plausible(jobs, overlap) && 0 < n <= |jobs|
    ensures var st, before := LastSaved(LogAfter(jobs, n)), LastSaved(LogAfter(jobs, n - 1));
      && NothingForgotten(jobs[n - 1].box, overlap, st, HeldBack(jobs, n))
      && before.watermark <= st.watermark
      && (Clean(jobs[n - 1], LogAfter(jobs, n - 1)) ==>
            NothingOutstanding(jobs[n - 1].box, st, HeldBack(jobs, n)))
  {
    var log := LogAfter(jobs, n - 1);
    if n > 1 {
      BacklogStaysInWindow(jobs, overlap, n - 1);
    }
    RunForgetsNothing(jobs[n - 1], log, HeldBack(jobs, n - 1));
  }
}
