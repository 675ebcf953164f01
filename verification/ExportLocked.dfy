/** Mails held back because of a locked PDF: a later run is meant to retry them once
    their password is known. Exactly when it does. */
module ExportLocked {
  import opened Ordering
  import opened MailExport
  import opened ExportSafety
  import opened ExportProgress
  import opened ExportRepeat

  ghost predicate Shown(job: Job, mail: Mail) {
    exists i :: 0 <= i < |Listed(job.replies, 1).0| && Listed(job.replies, 1).0[i].mail == mail
  }

  /** A faithful run that reaches the end of the list is shown a mail with attachments iff
      its date lies in the window; a sweep is shown all of them. */
  lemma ShownIff(job: Job, st: State, id: int)
    requires Faithful(job, st) && Listed(job.replies, 1).1 && id in job.box && job.box[id].hasAttachments
    ensures Shown(job, job.box[id]) <==>
      job.box[id].date >= WindowStart(job.cfg.incremental, job.cfg.overlap, st.watermark)
    ensures !job.cfg.incremental ==> Shown(job, job.box[id])
  {
  }

  /** Every PDF of the mail opens. */
  ghost predicate Opens(mail: Mail, passwords: seq<string>) {
    forall i :: 0 <= i < |mail.attachments| ==> !IsLocked(mail.attachments[i], passwords)
  }

  lemma {:induction false} SmoothAttachments(attachments: seq<Attachment>, fates: seq<Fate>, passwords: seq<string>,
                                             start: Progress)
    requires !start.failed && forall i :: 0 <= i < |attachments| ==> FateOf(fates, i).Fine?
    ensures var p := AttachmentsFold(attachments, fates, passwords, start);
      && !p.failed
      && ((forall i :: 0 <= i < |attachments| ==> !IsLocked(attachments[i], passwords)) ==> p.locked == start.locked)
  {
    if attachments != [] {
      var n := |attachments| - 1;
      assert forall i :: 0 <= i < n ==> attachments[..n][i] == attachments[i];
      SmoothAttachments(attachments[..n], fates, passwords, start);
    }
  }

  lemma SmoothStep(cfg: Config, s: Session, item: Item)
    requires !s.vars.aborted && Smooth(item)
    ensures var t := ItemStep(cfg, s, item);
      && !t.vars.aborted && s.state.done <= t.state.done <= s.state.done + {item.mail.id}
      && (item.mail.hasAttachments && Opens(item.mail, cfg.passwords) ==> item.mail.id in t.state.done)
  {
    SmoothAttachments(item.mail.attachments, item.fates, cfg.passwords,
                      Progress(s.state.seen, s.log, 0, 0, 0, 0, false));
  }

  /** An untroubled run finishes every listed mail that opens, and no other mail than
      those listed. */
  lemma {:induction false} SmoothRun(cfg: Config, s: Session, items: seq<Item>)
    requires !s.vars.aborted && forall i :: 0 <= i < |items| ==> Smooth(items[i])
    ensures var t := ItemsFold(cfg, s, items);
      && !t.vars.aborted && s.state.done <= t.state.done
      && (forall i :: 0 <= i < |items| && items[i].mail.hasAttachments && Opens(items[i].mail, cfg.passwords) ==>
            items[i].mail.id in t.state.done)
      && (forall id :: id in t.state.done && id !in s.state.done ==>
            exists i :: 0 <= i < |items| && items[i].mail.id == id)
  {
    if items != [] {
      var front, last := items[..|items| - 1], items[|items| - 1];
      assert forall i :: 0 <= i < |front| ==> front[i] == items[i];
      SmoothRun(cfg, s, front);
      var before := ItemsFold(cfg, s, front);
      SmoothStep(cfg, before, last);
      forall id | id in ItemsFold(cfg, s, items).state.done && id !in s.state.done
        ensures exists i :: 0 <= i < |items| && items[i].mail.id == id
      {
        if id in before.state.done {
          var i :| 0 <= i < |front| && front[i].mail.id == id;
          assert items[i].mail.id == id;
        } else {
          assert items[|items| - 1].mail.id == id;
        }
      }
    }
  }

  /** Once its passwords are known, a mail that was held back is finished by the next
      untroubled run iff its date still lies in the window of that run. */
  lemma RetriedIff(job: Job, log: seq<Effect>, id: int)
    requires Faithful(job, LastSaved(log)) && Untroubled(job)
    requires id in job.box && job.box[id].hasAttachments && id !in LastSaved(log).done
    requires Opens(job.box[id], job.cfg.passwords)
    ensures id in Ran(job, log).0.state.done <==>
      job.box[id].date >= WindowStart(job.cfg.incremental, job.cfg.overlap, LastSaved(log).watermark)
    ensures !job.cfg.incremental ==> id in Ran(job, log).0.state.done
  {
    var st, items := LastSaved(log), Listed(job.replies, 1).0;
    SmoothRun(job.cfg, Session(st, log, NO_VARS), items);
    ShownIff(job, st, id);
    if Shown(job, job.box[id]) {
      var i :| 0 <= i < |items| && items[i].mail == job.box[id];
      assert items[i].mail.id == id;
    }
  }

  // A locked PDF of day 5, and a mail of day 40 that moves the watermark past it.
  const LOCKED_PDF := Attachment(true, true, "p", Some("pw"))
  const PLAIN := Attachment(true, false, "q", None)
  const OLD_MAIL := Mail(1, 5 * DAY, true, [LOCKED_PDF])
  const NEW_MAIL := Mail(2, 40 * DAY, true, [PLAIN])
  const MAILBOX: Archive := map[1 := OLD_MAIL, 2 := NEW_MAIL]
  const OLD_ITEM := Item(OLD_MAIL, false, [], false)
  const NEW_ITEM := Item(NEW_MAIL, false, [], false)

  function Export(incremental: bool, passwords: seq<string>, items: seq<Item>): Job {
    Job(MailExport.Config(incremental, 7 * DAY, passwords, 50), MAILBOX, [Page(items, 1)], false, 9)
  }

  const FIRST := Export(true, [], [OLD_ITEM, NEW_ITEM])
  const AFTER_FIRST := State(40 * DAY, {2}, {"q"})

  lemma FirstExport()
    ensures Ran(FIRST, []).0.state == AFTER_FIRST && Ran(FIRST, []).1
    ensures Ran(FIRST, []).0.vars.counts.failed == 0 && Ran(FIRST, []).0.vars.heldBack == {1}
    ensures Ran(FIRST, []).0.log == [Moved("q"), Saved(AFTER_FIRST)]
  {
    var cfg, start := FIRST.cfg, Session(NO_STATE, [], NO_VARS);
    OneAttachment(OLD_ITEM, LOCKED_PDF, {}, []);
    var s := ItemStep(cfg, start, OLD_ITEM);
    assert s.state == NO_STATE && s.log == [] && s.vars.heldBack == {1};
    OneAttachment(NEW_ITEM, PLAIN, {}, []);
    assert [OLD_ITEM, NEW_ITEM][..1] == [OLD_ITEM] && [OLD_ITEM][..0] == [];
    assert ItemsFold(cfg, start, [OLD_ITEM]) == s;
    assert ItemsFold(cfg, start, [OLD_ITEM, NEW_ITEM]) == ItemStep(cfg, s, NEW_ITEM);
    assert Listed(FIRST.replies, 1) == ([OLD_ITEM, NEW_ITEM], true);
  }

  lemma WindowAfterFirst()
    ensures WindowStart(true, 7 * DAY, 40 * DAY) == 33 * DAY
  {
    assert 33 * DAY % DAY == 0;
  }

  lemma ExportsFaithful(incremental: bool, items: seq<Item>, st: State)
    requires items == (if WindowStart(incremental, 7 * DAY, st.watermark) == 0
                       then [OLD_ITEM, NEW_ITEM] else [NEW_ITEM])
    requires WindowStart(incremental, 7 * DAY, st.watermark) in {0, 33 * DAY}
    ensures Faithful(Export(incremental, ["pw"], items), st) && Untroubled(Export(incremental, ["pw"], items))
    ensures Faithful(Export(incremental, [], items), st)
  {
    var job := Export(incremental, ["pw"], items);
    assert Listed(job.replies, 1) == (items, true)
           && Listed(Export(incremental, [], items).replies, 1) == (items, true);
    assert items[|items| - 1].mail == NEW_MAIL;
    if |items| == 2 { assert items[0].mail == OLD_MAIL && items[1].mail == NEW_MAIL; }
  }

  lemma FirstIsClean()
    ensures Faithful(FIRST, NO_STATE) && Clean(FIRST, []) && 1 in HeldAfter(FIRST, [], {})
    ensures LastSaved(CutLog(FIRST, [])) == AFTER_FIRST
  {
    FirstExport();
    ExportsFaithful(true, [OLD_ITEM, NEW_ITEM], NO_STATE);
    assert CutLog(FIRST, []) == [Moved("q"), Saved(AFTER_FIRST)];
  }

  const NEXT := Export(true, ["pw"], [NEW_ITEM])
  const SWEEP := Export(false, ["pw"], [OLD_ITEM, NEW_ITEM])

  lemma NextMisses(log: seq<Effect>)
    requires LastSaved(log) == AFTER_FIRST
    ensures Faithful(NEXT, LastSaved(log)) && Untroubled(NEXT) && 1 !in Ran(NEXT, log).0.state.done
  {
    WindowAfterFirst();
    ExportsFaithful(true, [NEW_ITEM], AFTER_FIRST);
    RetriedIff(NEXT, log, 1);
  }

  lemma SweepFinishes(log: seq<Effect>)
    requires LastSaved(log) == AFTER_FIRST
    ensures Faithful(SWEEP, LastSaved(log)) && Untroubled(SWEEP) && 1 in Ran(SWEEP, log).0.state.done
  {
    ExportsFaithful(false, [OLD_ITEM, NEW_ITEM], AFTER_FIRST);
    RetriedIff(SWEEP, log, 1);
  }

  /** For incremental runs the promise fails: a clean run holds the old mail back, its
      password becomes known, and the next untroubled run does not see the mail. A sweep
      finishes it. */
  lemma HeldBackBehindWindow()
    ensures Faithful(FIRST, NO_STATE) && Clean(FIRST, []) && 1 in HeldAfter(FIRST, [], {})
    ensures Opens(OLD_MAIL, NEXT.cfg.passwords) && OLD_MAIL == NEXT.box[1]
    ensures var log := CutLog(FIRST, []);
      && Faithful(NEXT, LastSaved(log)) && Untroubled(NEXT) && 1 !in Ran(NEXT, log).0.state.done
      && Faithful(SWEEP, LastSaved(log)) && Untroubled(SWEEP) && 1 in Ran(SWEEP, log).0.state.done
  {
    FirstIsClean();
    NextMisses(CutLog(FIRST, []));
    SweepFinishes(CutLog(FIRST, []));
  }
}
