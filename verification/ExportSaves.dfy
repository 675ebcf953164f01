/** How much of the export's progress is on disk while it runs, and so how much a run can
    lose that is cut off (tools/cmd/paperless-mail-export/main.go). */
module ExportSaves {
  import opened MailExport
  import opened ExportSafety
  import opened ExportProgress

  /** A state is to be saved when so many mails are done that are not in the last one. */
  function Every(cfg: Config): nat {
    if cfg.saveEvery > 1 then cfg.saveEvery else 1
  }

  /** The finished mails that the last saved state does not know of. */
  function Unsaved(s: Session): set<int> {
    s.state.done - LastSaved(s.log).done
  }

  /** The run when it has dealt with the first n listed mails. */
  function DealtWith(job: Job, log: seq<Effect>, n: nat): Session
    requires n <= |Listed(job.replies, 1).0|
  {
    ItemsFold(job.cfg, Session(LastSaved(log), log, NO_VARS), Listed(job.replies, 1).0[..n])
  }

  lemma {:induction false} MovesSaveNothing(log: seq<Effect>, longer: seq<Effect>)
    requires log <= longer && forall k :: |log| <= k < |longer| ==> longer[k].Moved?
    ensures LastSaved(longer) == LastSaved(log)
  {
    if log != longer { MovesSaveNothing(log, longer[..|longer| - 1]); }
  }

  ghost predicate KeepsUp(cfg: Config, s: Session) {
    && LastSaved(s.log).done <= s.state.done
    && |Unsaved(s)| == s.vars.sinceSave
    && (if s.vars.aborted then |Unsaved(s)| == Every(cfg) else |Unsaved(s)| < Every(cfg))
  }

  /** What one listed mail does to the saved state. A save is due when the mail makes the
      finished mails that are not saved enough. If one is due and fails, the run aborts,
      and only then; if it does not fail, the last effect is to save the whole state; if
      none is due, none happens. */
  ghost predicate SavesWhenDue(cfg: Config, s: Session, item: Item, t: Session) {
    var due := |t.state.done - LastSaved(s.log).done| >= Every(cfg);
    && s.log <= t.log
    && (t.vars.aborted <==> due && item.saveFails)
    && (due && !item.saveFails ==> t.log != [] && t.log[|t.log| - 1] == Saved(t.state))
    && forall k :: |s.log| <= k < |t.log| && t.log[k].Saved? ==> due && !item.saveFails && k == |t.log| - 1
  }

  lemma UnsavedNext(s: Session, t: Session, id: int)
    requires LastSaved(s.log).done <= s.state.done && id !in s.state.done
    requires t.state.done == s.state.done + {id} && LastSaved(t.log) == LastSaved(s.log)
    ensures |Unsaved(t)| == |Unsaved(s)| + 1 && LastSaved(t.log).done <= t.state.done
  {
    assert Unsaved(t) == Unsaved(s) + {id} && id !in Unsaved(s);
  }

  lemma ItemSaves(cfg: Config, s: Session, item: Item)
    requires !s.vars.aborted && KeepsUp(cfg, s)
    ensures KeepsUp(cfg, ItemStep(cfg, s, item)) && SavesWhenDue(cfg, s, item, ItemStep(cfg, s, item))
  {
    if item.mail.hasAttachments && item.mail.id !in s.state.done {
      var p := MailProgress(item, s.state.seen, s.log, cfg.passwords);
      AttachmentsOnlyMove(item.mail.attachments, item.fates, cfg.passwords,
                          Progress(s.state.seen, s.log, 0, 0, 0, 0, false));
      MovesSaveNothing(s.log, p.log);
      var counts := s.vars.counts.(scanned := s.vars.counts.scanned + 1);
      BookingSaves(cfg, s, item, p.failed, p.locked > 0,
                   Session(s.state.(seen := p.seen), p.log, s.vars.(counts := Tallied(counts, p))));
    }
  }

  lemma BookingSaves(cfg: Config, s: Session, item: Item, failed: bool, locked: bool, mid: Session)
    requires KeepsUp(cfg, s) && !s.vars.aborted && item.mail.id !in s.state.done
    requires mid.state.done == s.state.done && mid.vars.sinceSave == s.vars.sinceSave && !mid.vars.aborted
    requires s.log <= mid.log && LastSaved(mid.log) == LastSaved(s.log)
    requires forall k :: |s.log| <= k < |mid.log| ==> mid.log[k].Moved?
    ensures var t := Finished(cfg, item, failed, locked, mid);
      KeepsUp(cfg, t) && SavesWhenDue(cfg, s, item, t)
  {
    if !failed && !locked {
      var done := mid.(state := mid.state.(done := mid.state.done + {item.mail.id}));
      UnsavedNext(s, done, item.mail.id);
      assert (mid.log + [Saved(done.state)])[..|mid.log|] == mid.log;
    }
  }

  lemma {:induction false} ItemsSave(cfg: Config, st: State, log: seq<Effect>, items: seq<Item>)
    requires st == LastSaved(log)
    ensures KeepsUp(cfg, ItemsFold(cfg, Session(st, log, NO_VARS), items))
  {
    if items != [] {
      var n := |items| - 1;
      ItemsSave(cfg, st, log, items[..n]);
      var s := ItemsFold(cfg, Session(st, log, NO_VARS), items[..n]);
      if !s.vars.aborted { ItemSaves(cfg, s, items[n]); }
    }
  }

  lemma DealtWithNext(job: Job, log: seq<Effect>, n: nat)
    requires n < |Listed(job.replies, 1).0|
    ensures DealtWith(job, log, n + 1) == ItemStep(job.cfg, DealtWith(job, log, n), Listed(job.replies, 1).0[n])
  {
    var listed := Listed(job.replies, 1).0;
    assert listed[..n + 1][..n] == listed[..n];
  }

  lemma RunKeepsUp(job: Job, log: seq<Effect>, n: nat)
    requires n <= |Listed(job.replies, 1).0|
    ensures KeepsUp(job.cfg, DealtWith(job, log, n))
  {
    ItemsSave(job.cfg, LastSaved(log), log, Listed(job.replies, 1).0[..n]);
  }

  /** At every mail of every run: while the run goes on, fewer finished mails than
      `saveEvery` are not on disk; when it has aborted, exactly so many. */
  lemma SavedAllAlong(job: Job, log: seq<Effect>, n: nat)
    requires n <= |Listed(job.replies, 1).0|
    ensures var s := DealtWith(job, log, n);
      && LastSaved(s.log).done <= s.state.done
      && (!s.vars.aborted ==> |s.state.done - LastSaved(s.log).done| < Every(job.cfg))
      && (s.vars.aborted ==> |s.state.done - LastSaved(s.log).done| == Every(job.cfg))
  {
    RunKeepsUp(job, log, n);
  }

  /** And each mail that the run gets to makes a save happen, or makes the run abort,
      exactly when a save is due. */
  lemma EachMailSavesWhenDue(job: Job, log: seq<Effect>, n: nat)
    requires n < |Listed(job.replies, 1).0| && !DealtWith(job, log, n).vars.aborted
    ensures SavesWhenDue(job.cfg, DealtWith(job, log, n), Listed(job.replies, 1).0[n], DealtWith(job, log, n + 1))
  {
    RunKeepsUp(job, log, n);
    DealtWithNext(job, log, n);
    ItemSaves(job.cfg, DealtWith(job, log, n), Listed(job.replies, 1).0[n]);
  }

  /** The run gets to the k-th listed mail, which makes a save due that fails. */
  ghost predicate DueAndFails(job: Job, log: seq<Effect>, k: nat)
    requires k < |Listed(job.replies, 1).0|
  {
    && !DealtWith(job, log, k).vars.aborted && Listed(job.replies, 1).0[k].saveFails
    && |DealtWith(job, log, k + 1).state.done - LastSaved(DealtWith(job, log, k).log).done| >= Every(job.cfg)
  }

  lemma AbortsNext(job: Job, log: seq<Effect>, n: nat)
    requires n < |Listed(job.replies, 1).0|
    ensures DealtWith(job, log, n + 1).vars.aborted <==>
      DealtWith(job, log, n).vars.aborted || DueAndFails(job, log, n)
  {
    if DealtWith(job, log, n).vars.aborted {
      DealtWithNext(job, log, n);
    } else {
      EachMailSavesWhenDue(job, log, n);
    }
  }

  lemma {:induction false} SomeBefore(a: seq<bool>, d: seq<bool>, n: nat)
    requires |a| == |d| + 1 && n <= |d| && !a[0]
    requires forall k :: 0 <= k < |d| ==> (a[k + 1] <==> a[k] || d[k])
    ensures a[n] <==> exists k :: 0 <= k < n && d[k]
  {
    if n > 0 {
      SomeBefore(a, d, n - 1);
      assert a[n - 1 + 1] <==> a[n - 1] || d[n - 1];
    }
  }

  /** A run aborts iff a save that was due failed. */
  lemma AbortsIff(job: Job, log: seq<Effect>, n: nat)
    requires n <= |Listed(job.replies, 1).0|
    ensures DealtWith(job, log, n).vars.aborted <==> exists k :: 0 <= k < n && DueAndFails(job, log, k)
  {
    var size := |Listed(job.replies, 1).0|;
    var a := seq(size + 1, k requires 0 <= k <= size => DealtWith(job, log, k).vars.aborted);
    var d := seq(size, k requires 0 <= k < size => DueAndFails(job, log, k));
    forall k | 0 <= k < size ensures a[k + 1] <==> a[k] || d[k] { AbortsNext(job, log, k); }
    StartsUnaborted(job, log);
    SomeBefore(a, d, n);
    assert forall k :: 0 <= k < size ==> (d[k] <==> DueAndFails(job, log, k));
  }

  lemma StartsUnaborted(job: Job, log: seq<Effect>)
    ensures DealtWith(job, log, 0) == Session(LastSaved(log), log, NO_VARS)
  {
    assert Listed(job.replies, 1).0[..0] == [];
  }

  // ----- runs that are cut off ------------------------------------------

  /** The last saved state of a longer log of the run knows no less. */
  lemma LaterKnowsMore(job: Job, log: seq<Effect>, n: nat)
    requires n <= |Listed(job.replies, 1).0|
    requires DealtWith(job, log, n).log <= CutLog(job, log)
    ensures LastSaved(DealtWith(job, log, n).log).done <= LastSaved(CutLog(job, log)).done
  {
    var s := DealtWith(job, log, n);
    RunKeepsUp(job, log, n);
    SavedGrow(job, log, n, |Listed(job.replies, 1).0|);
    EndGrows(job, log, s.log);
    CutKnowsMore(s.log, Ran(job, log).0.log, CutLog(job, log));
  }

  /** The saved states after a place in the log know what the one before it knows. */
  ghost predicate Growing(from: seq<Effect>, log: seq<Effect>) {
    from <= log && forall k :: |from| <= k < |log| && log[k].Saved? ==> LastSaved(from).done <= log[k].state.done
  }

  lemma {:induction false} CutKnowsMore(from: seq<Effect>, log: seq<Effect>, cut: seq<Effect>)
    requires Growing(from, log) && from <= cut <= log
    ensures LastSaved(from).done <= LastSaved(cut).done
    decreases |cut|
  {
    if from != cut && !cut[|cut| - 1].Saved? { CutKnowsMore(from, log, cut[..|cut| - 1]); }
  }

  /** The sessions of a run, mail after mail. */
  ghost predicate Steps(ss: seq<Session>) {
    && (forall k :: 0 <= k < |ss| ==> LastSaved(ss[k].log).done <= ss[k].state.done)
    && (forall k :: 0 < k < |ss| ==> StepGrows(ss[k - 1], ss[k]))
  }

  /** A mail makes at most the state after it be saved. */
  ghost predicate StepGrows(s: Session, t: Session) {
    && s.state.done <= t.state.done && s.log <= t.log
    && forall k :: |s.log| <= k < |t.log| && t.log[k].Saved? ==> t.log[k].state == t.state
  }

  lemma {:induction false} StepsGrow(ss: seq<Session>, n: nat, m: nat)
    requires Steps(ss) && n <= m < |ss|
    ensures Growing(ss[n].log, ss[m].log) && ss[n].state.done <= ss[m].state.done
  {
    if n < m {
      StepsGrow(ss, n, m - 1);
      assert StepGrows(ss[m - 1], ss[m]);
    }
  }

  lemma DealtWithGrows(job: Job, log: seq<Effect>, n: nat)
    requires n < |Listed(job.replies, 1).0|
    ensures StepGrows(DealtWith(job, log, n), DealtWith(job, log, n + 1))
  {
    DealtWithNext(job, log, n);
    if !DealtWith(job, log, n).vars.aborted {
      EachMailSavesWhenDue(job, log, n);
      DoneGrows(job.cfg, DealtWith(job, log, n), Listed(job.replies, 1).0[n]);
      SavesItself(job.cfg, DealtWith(job, log, n), Listed(job.replies, 1).0[n], DealtWith(job, log, n + 1));
    }
  }

  lemma SavesItself(cfg: Config, s: Session, item: Item, t: Session)
    requires SavesWhenDue(cfg, s, item, t) && s.state.done <= t.state.done
    ensures StepGrows(s, t)
  {
  }

  lemma SavedGrow(job: Job, log: seq<Effect>, n: nat, m: nat)
    requires n <= m <= |Listed(job.replies, 1).0|
    ensures var s, t := DealtWith(job, log, n), DealtWith(job, log, m);
      Growing(s.log, t.log) && s.state.done <= t.state.done
  {
    var size := |Listed(job.replies, 1).0|;
    var ss := seq(size + 1, k requires 0 <= k <= size => DealtWith(job, log, k));
    forall k | 0 <= k <= size ensures LastSaved(ss[k].log).done <= ss[k].state.done { RunKeepsUp(job, log, k); }
    forall k | 0 < k <= size ensures StepGrows(ss[k - 1], ss[k]) { DealtWithGrows(job, log, k - 1); }
    StepsGrow(ss, n, m);
  }

  lemma EndGrows(job: Job, log: seq<Effect>, from: seq<Effect>)
    requires var s := DealtWith(job, log, |Listed(job.replies, 1).0|);
      Growing(from, s.log) && LastSaved(from).done <= s.state.done
    ensures Growing(from, Ran(job, log).0.log)
  {
    var listed := Listed(job.replies, 1).0;
    assert listed[..|listed|] == listed;
  }

  lemma DoneGrows(cfg: Config, s: Session, item: Item)
    ensures s.state.done <= ItemStep(cfg, s, item).state.done
    ensures s.vars.aborted ==> ItemStep(cfg, s, item) == s
  {
  }

  /** A run that is cut off anywhere loses fewer finished mails than `saveEvery`: of what it
      had finished when the last of its surviving effects happened, all but so many are in
      the state that the next run loads. At a save that was due and did not happen it is
      exactly that many. */
  lemma CutLosesFew(job: Job, log: seq<Effect>, n: nat)
    requires n <= |Listed(job.replies, 1).0|
    requires DealtWith(job, log, n).log <= CutLog(job, log)
    ensures var s := DealtWith(job, log, n);
      |s.state.done - LastSaved(CutLog(job, log)).done| <= if s.vars.aborted then Every(job.cfg) else Every(job.cfg) - 1
  {
    var s := DealtWith(job, log, n);
    SavedAllAlong(job, log, n);
    LaterKnowsMore(job, log, n);
    SubsetSize(s.state.done - LastSaved(CutLog(job, log)).done, s.state.done - LastSaved(s.log).done);
  }

  lemma {:induction false} SubsetSize(a: set<int>, b: set<int>)
    requires a <= b
    ensures |a| <= |b|
  {
    assert b == a + (b - a);
  }

  /** So if the state is saved after every mail, no finished mail is lost. */
  lemma SaveEveryOne(job: Job, log: seq<Effect>, n: nat)
    requires n <= |Listed(job.replies, 1).0| && job.cfg.saveEvery == 1
    requires DealtWith(job, log, n).log <= CutLog(job, log) && !DealtWith(job, log, n).vars.aborted
    ensures DealtWith(job, log, n).state.done <= LastSaved(CutLog(job, log)).done
  {
    CutLosesFew(job, log, n);
    EmptyOfSizeZero(DealtWith(job, log, n).state.done, LastSaved(CutLog(job, log)).done);
  }

  lemma EmptyOfSizeZero(a: set<int>, b: set<int>)
    requires |a - b| <= 0
    ensures a <= b
  {
    forall x | x in a ensures x in b {
      if x !in b { SubsetSize({x}, a - b); }
    }
  }
}
