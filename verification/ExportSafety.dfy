/** What holds of the export at every moment: of every run, after a kill between
    any two effects, and over any sequence of such runs. */
module ExportSafety {
  import opened MailExport

  /** All mails there ever are, by id. Mails do not change. */
  type Archive = map<int, Mail>

  ghost predicate FromArchive(archive: Archive, items: seq<Item>) {
    forall i :: 0 <= i < |items| ==> items[i].mail.id in archive && archive[items[i].mail.id] == items[i].mail
  }

  ghost function MovedIn(log: seq<Effect>): set<Hash> {
    set i | 0 <= i < |log| && log[i].Moved? :: log[i].hash
  }

  lemma MovedInNext(log: seq<Effect>, e: Effect)
    ensures MovedIn(log + [e]) == MovedIn(log) + if e.Moved? then {e.hash} else {}
  {
    var next := log + [e];
    forall h ensures h in MovedIn(next) <==> h in MovedIn(log) || (e.Moved? && h == e.hash) {
      if h in MovedIn(log) {
        var i :| 0 <= i < |log| && log[i].Moved? && log[i].hash == h;
        assert next[i] == log[i];
      }
      if e.Moved? && h == e.hash { assert next[|log|] == e; }
    }
  }

  /** Every wanted attachment of a mail that is done has been exported. */
  ghost predicate Safe(archive: Archive, st: State) {
    forall id :: id in st.done && id in archive ==> AllSeen(archive[id].attachments, st.seen)
  }

  ghost predicate AllSeen(attachments: seq<Attachment>, seen: set<Hash>) {
    forall i :: 0 <= i < |attachments| && attachments[i].wanted ==> attachments[i].hash in seen
  }

  /** Every state ever saved was safe, and knew only files already in the outbox. */
  ghost predicate LogSafe(archive: Archive, log: seq<Effect>) {
    forall k :: 0 <= k < |log| && log[k].Saved? ==>
      Safe(archive, log[k].state) && log[k].state.seen <= MovedIn(log[..k])
  }

  lemma LogSafePrefix(archive: Archive, log: seq<Effect>, n: nat)
    requires LogSafe(archive, log) && n <= |log|
    ensures LogSafe(archive, log[..n])
  {
    forall k | 0 <= k < n && log[..n][k].Saved?
      ensures Safe(archive, log[..n][k].state) && log[..n][k].state.seen <= MovedIn(log[..n][..k])
    {
      assert log[..n][..k] == log[..k];
    }
  }

  lemma LogSafeNext(archive: Archive, log: seq<Effect>, e: Effect)
    requires LogSafe(archive, log)
    requires e.Saved? ==> Safe(archive, e.state) && e.state.seen <= MovedIn(log)
    ensures LogSafe(archive, log + [e])
  {
    var next := log + [e];
    forall k | 0 <= k < |next| && next[k].Saved?
      ensures Safe(archive, next[k].state) && next[k].state.seen <= MovedIn(next[..k])
    {
      assert next[..k] == log[..k];
      assert log[..|log|] == log;
    }
  }

  // ----- one mail -------------------------------------------------------

  /** What processing a mail's attachments keeps, and what it leaves behind when
      nothing went wrong: every wanted attachment is exported or locked. */
  lemma {:induction false} AttachmentsSafe(archive: Archive, attachments: seq<Attachment>, fates: seq<Fate>,
                                           passwords: seq<string>, start: Progress)
    requires !start.failed && LogSafe(archive, start.log) && start.seen <= MovedIn(start.log)
    ensures var p := AttachmentsFold(attachments, fates, passwords, start);
      && start.seen <= p.seen <= MovedIn(p.log)
      && LogSafe(archive, p.log)
      && p.locked >= start.locked
      && (!p.failed ==> forall i :: 0 <= i < |attachments| && attachments[i].wanted ==>
            attachments[i].hash in p.seen || IsLocked(attachments[i], passwords))
      && (!p.failed && p.locked == start.locked ==> AllSeen(attachments, p.seen))
  {
    if attachments != [] {
      var n := |attachments| - 1;
      AttachmentsSafe(archive, attachments[..n], fates, passwords, start);
      var before := AttachmentsFold(attachments[..n], fates, passwords, start);
      LogSafeNext(archive, before.log, Moved(attachments[n].hash));
      MovedInNext(before.log, Moved(attachments[n].hash));
      assert forall i :: 0 <= i < n ==> attachments[..n][i] == attachments[i];
    }
  }

  // ----- one run --------------------------------------------------------

  ghost predicate SessionSafe(archive: Archive, s: Session) {
    Safe(archive, s.state) && s.state.seen <= MovedIn(s.log) && LogSafe(archive, s.log)
  }

  lemma ItemSafe(archive: Archive, cfg: Config, s: Session, item: Item)
    requires SessionSafe(archive, s) && FromArchive(archive, [item])
    ensures SessionSafe(archive, ItemStep(cfg, s, item))
  {
    assert [item][0] == item;
    if !s.vars.aborted && item.mail.hasAttachments && item.mail.id !in s.state.done {
      var p := MailProgress(item, s.state.seen, s.log, cfg.passwords);
      if !item.detailFails {
        AttachmentsSafe(archive, item.mail.attachments, item.fates, cfg.passwords,
                        Progress(s.state.seen, s.log, 0, 0, 0, 0, false));
      }
      var st := s.state.(seen := p.seen);
      assert Safe(archive, st);
      if !p.failed && p.locked == 0 {
        var done := st.(done := st.done + {item.mail.id});
        assert Safe(archive, done);
        LogSafeNext(archive, p.log, Saved(done));
        MovedInNext(p.log, Saved(done));
      }
    }
  }

  lemma {:induction false} ItemsSafe(archive: Archive, cfg: Config, s: Session, items: seq<Item>)
    requires SessionSafe(archive, s) && FromArchive(archive, items)
    ensures SessionSafe(archive, ItemsFold(cfg, s, items))
  {
    if items != [] {
      var n := |items| - 1;
      ItemsSafe(archive, cfg, s, items[..n]);
      ItemSafe(archive, cfg, ItemsFold(cfg, s, items[..n]), items[n]);
    }
  }

  lemma RunSafe(archive: Archive, cfg: Config, st: State, log: seq<Effect>, replies: seq<Reply>, finalSaveFails: bool)
    requires SessionSafe(archive, Session(st, log, NO_VARS)) && FromArchive(archive, Listed(replies, 1).0)
    ensures SessionSafe(archive, RunSpec(cfg, st, log, replies, finalSaveFails).0)
  {
    var s := ItemsFold(cfg, Session(st, log, NO_VARS), Listed(replies, 1).0);
    ItemsSafe(archive, cfg, Session(st, log, NO_VARS), Listed(replies, 1).0);
    assert Safe(archive, Advanced(s));
    LogSafeNext(archive, s.log, Saved(Advanced(s)));
    MovedInNext(s.log, Saved(Advanced(s)));
  }

  // ----- any sequence of runs, each killed anywhere ---------------------

  /** A run, and how many of its effects happen before it is killed. The mailbox is
      what the server has while it runs. */
  datatype Job = Job(cfg: Config, box: Archive, replies: seq<Reply>, finalSaveFails: bool, cut: nat)

  /** What the next run loads. */
  function LastSaved(log: seq<Effect>): State {
    if log == [] then NO_STATE
    else
      var n := |log| - 1;
      if log[n].Saved? then log[n].state else LastSaved(log[..n])
  }

  function Ran(job: Job, log: seq<Effect>): (Session, bool) {
    RunSpec(job.cfg, LastSaved(log), log, job.replies, job.finalSaveFails)
  }

  function CutLog(job: Job, log: seq<Effect>): seq<Effect> {
    var full := Ran(job, log).0.log;
    if |log| + job.cut < |full| then full[..|log| + job.cut] else full
  }

  /** The durable effects of the first n runs. */
  function LogAfter(jobs: seq<Job>, n: nat): seq<Effect>
    requires n <= |jobs|
  {
    if n == 0 then [] else CutLog(jobs[n - 1], LogAfter(jobs, n - 1))
  }

  lemma {:induction false} LastSavedSafe(archive: Archive, log: seq<Effect>)
    requires LogSafe(archive, log)
    ensures Safe(archive, LastSaved(log)) && LastSaved(log).seen <= MovedIn(log)
  {
    if log != [] {
      var n := |log| - 1;
      LogSafePrefix(archive, log, n);
      LastSavedSafe(archive, log[..n]);
      MovedInNext(log[..n], log[n]);
      assert log == log[..n] + [log[n]];
    }
  }

  lemma JobSafe(archive: Archive, job: Job, log: seq<Effect>)
    requires LogSafe(archive, log) && FromArchive(archive, Listed(job.replies, 1).0)
    ensures LogSafe(archive, CutLog(job, log))
  {
    LastSavedSafe(archive, log);
    RunSafe(archive, job.cfg, LastSaved(log), log, job.replies, job.finalSaveFails);
    var full := Ran(job, log).0.log;
    if |log| + job.cut < |full| {
      LogSafePrefix(archive, full, |log| + job.cut);
    }
  }

  /** At every step of every run, wherever runs are killed: each mail in the saved
      Done set has all its wanted attachments in the saved Seen set, and each hash
      in the saved Seen set has been moved into the outbox. */
  lemma {:induction false} KillSafe(archive: Archive, jobs: seq<Job>, n: nat)
    requires n <= |jobs|
    requires forall i :: 0 <= i < |jobs| ==> FromArchive(archive, Listed(jobs[i].replies, 1).0)
    ensures LogSafe(archive, LogAfter(jobs, n))
    ensures var st := LastSaved(LogAfter(jobs, n));
      && (forall id :: id in st.done && id in archive ==> AllSeen(archive[id].attachments, st.seen))
      && st.seen <= MovedIn(LogAfter(jobs, n))
  {
    if n > 0 {
      KillSafe(archive, jobs, n - 1);
      JobSafe(archive, jobs[n - 1], LogAfter(jobs, n - 1));
    }
    LastSavedSafe(archive, LogAfter(jobs, n));
  }
}
