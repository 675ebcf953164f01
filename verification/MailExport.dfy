/** The resumable export of mail attachments
    (tools/cmd/paperless-mail-export/main.go). Everything a run does to the
    outside world is a log of effects: files moved into the outbox, states saved.
    A kill at any point leaves some prefix of that log. */
module MailExport {
  import opened Ordering

  /** The sha256 of an attachment stands for its bytes. */
  type Hash = string

  /** `key` is the password a PDF cannot be read without. */
  datatype Attachment = Attachment(wanted: bool, pdf: bool, hash: Hash, key: Option<string>)

  /** `date` is 0 for a mail without a usable date. */
  datatype Mail = Mail(id: int, date: nat, hasAttachments: bool, attachments: seq<Attachment>)

  datatype State = State(watermark: nat, done: set<int>, seen: set<Hash>)

  const NO_STATE := State(0, {}, {})

  datatype Effect = Moved(hash: Hash) | Saved(state: State)

  /** What can go wrong with one attachment: getting it, or putting it away. */
  datatype Fate = Fine | FetchFails | MoveFails

  /** A listed mail, with everything that will go wrong while it is processed. */
  datatype Item = Item(mail: Mail, detailFails: bool, fates: seq<Fate>, saveFails: bool)

  datatype Reply = ListError | Page(items: seq<Item>, totalPages: int)

  datatype Config = Config(incremental: bool, overlap: nat, passwords: seq<string>, saveEvery: int)

  datatype Counts = Counts(
    scanned: nat, processed: nat, exported: nat, deduped: nat, skipped: nat, failed: nat, locked: nat)

  predicate IsLocked(a: Attachment, passwords: seq<string>) {
    a.pdf && a.key.Some? && a.key.value !in passwords
  }

  // ----- one mail -------------------------------------------------------

  datatype Progress = Progress(
    seen: set<Hash>, log: seq<Effect>,
    exported: nat, deduped: nat, skipped: nat, locked: nat,
    failed: bool)

  function AttachmentStep(p: Progress, a: Attachment, fate: Fate, passwords: seq<string>): Progress {
    if p.failed then p
    else if !a.wanted then p.(skipped := p.skipped + 1)
    else if fate.FetchFails? then p.(failed := true)
    else if a.hash in p.seen then p.(deduped := p.deduped + 1)
    else if IsLocked(a, passwords) then p.(locked := p.locked + 1)
    else if fate.MoveFails? then p.(failed := true)
    else p.(seen := p.seen + {a.hash}, log := p.log + [Moved(a.hash)], exported := p.exported + 1)
  }

  function FateOf(fates: seq<Fate>, i: nat): Fate {
    if i < |fates| then fates[i] else Fine
  }

  function AttachmentsFold(attachments: seq<Attachment>, fates: seq<Fate>, passwords: seq<string>,
                           start: Progress): Progress {
    if attachments == [] then start
    else
      var n := |attachments| - 1;
      AttachmentStep(AttachmentsFold(attachments[..n], fates, passwords, start),
                     attachments[n], FateOf(fates, n), passwords)
  }

  function MailProgress(item: Item, seen: set<Hash>, log: seq<Effect>, passwords: seq<string>): Progress {
    var start := Progress(seen, log, 0, 0, 0, 0, false);
    if item.detailFails then start.(failed := true)
    else AttachmentsFold(item.mail.attachments, item.fates, passwords, start)
  }

  // ----- one run --------------------------------------------------------

  /** A run's own variables. `heldBack` are the mails it reported as locked. */
  datatype Vars = Vars(counts: Counts, heldBack: set<int>, maxSent: nat, sinceSave: int, aborted: bool)

  const NO_VARS := Vars(Counts(0, 0, 0, 0, 0, 0, 0), {}, 0, 0, false)

  datatype Session = Session(state: State, log: seq<Effect>, vars: Vars)

  function Tallied(c: Counts, p: Progress): Counts {
    c.(exported := c.exported + p.exported, deduped := c.deduped + p.deduped, skipped := c.skipped + p.skipped)
  }

  function ItemStep(cfg: Config, s: Session, item: Item): Session {
    if s.vars.aborted then s
    else
      var mail := item.mail;
      var counts := s.vars.counts.(scanned := s.vars.counts.scanned + 1);
      if !mail.hasAttachments || mail.id in s.state.done then s.(vars := s.vars.(counts := counts))
      else
        var p := MailProgress(item, s.state.seen, s.log, cfg.passwords);
        Finished(cfg, item, p.failed, p.locked > 0,
          Session(s.state.(seen := p.seen), p.log, s.vars.(counts := Tallied(counts, p))))
  }

  /** Books a mail whose attachments have been dealt with. */
  function Finished(cfg: Config, item: Item, failed: bool, locked: bool, s: Session): Session {
    var mail, vars := item.mail, s.vars;
    var counts := vars.counts;
    if failed then s.(vars := vars.(counts := counts.(failed := counts.failed + 1)))
    else if locked then
      s.(vars := vars.(counts := counts.(locked := counts.locked + 1), heldBack := vars.heldBack + {mail.id}))
    else
      var t := s.(state := s.state.(done := s.state.done + {mail.id}),
                  vars := vars.(counts := counts.(processed := counts.processed + 1),
                                maxSent := if mail.date > vars.maxSent then mail.date else vars.maxSent,
                                sinceSave := vars.sinceSave + 1));
      if t.vars.sinceSave < cfg.saveEvery then t
      else if item.saveFails then t.(vars := t.vars.(aborted := true))
      else t.(log := t.log + [Saved(t.state)], vars := t.vars.(sinceSave := 0))
  }

  function ItemsFold(cfg: Config, s: Session, items: seq<Item>): Session {
    if items == [] then s
    else
      var n := |items| - 1;
      ItemStep(cfg, ItemsFold(cfg, s, items[..n]), items[n])
  }

  /** The mails the paging loop gets to see from page pg on, and whether it reaches
      the end of the list. */
  function Listed(replies: seq<Reply>, pg: nat): (seq<Item>, bool)
    requires 1 <= pg
    decreases |replies| - pg
  {
    if pg > |replies| || replies[pg - 1].ListError? then ([], false)
    else
      var page := replies[pg - 1];
      if page.items == [] || pg >= page.totalPages then (page.items, true)
      else
        var rest := Listed(replies, pg + 1);
        (page.items + rest.0, rest.1)
  }

  function Advanced(s: Session): State {
    if s.vars.counts.failed == 0 && s.vars.maxSent > s.state.watermark then
      s.state.(watermark := s.vars.maxSent) else s.state
  }

  /** The session at the end of a run, and whether the run reached its final save. */
  function RunSpec(cfg: Config, state: State, log: seq<Effect>, replies: seq<Reply>,
                   finalSaveFails: bool): (Session, bool) {
    var listed := Listed(replies, 1);
    var s := ItemsFold(cfg, Session(state, log, NO_VARS), listed.0);
    if s.vars.aborted || !listed.1 then (s, false)
    else
      var t := s.(state := Advanced(s));
      if finalSaveFails then (t, false) else (t.(log := t.log + [Saved(t.state)]), true)
  }

  const DAY := 86400

  /** The earliest date an incremental run asks for: the watermark minus the
      overlap, cut to the day. Without a watermark, or in a sweep, it asks for all. */
  function WindowStart(incremental: bool, overlap: nat, watermark: nat): int {
    if incremental && watermark > 0 then (watermark - overlap) - (watermark - overlap) % DAY else 0
  }

  // ----- in place -------------------------------------------------------

  lemma {:induction false} FailedStays(attachments: seq<Attachment>, fates: seq<Fate>, passwords: seq<string>,
                                       start: Progress, i: nat)
    requires i <= |attachments|
    requires AttachmentsFold(attachments[..i], fates, passwords, start).failed
    ensures AttachmentsFold(attachments, fates, passwords, start)
         == AttachmentsFold(attachments[..i], fates, passwords, start)
  {
    var n := |attachments|;
    if i == n {
      assert attachments[..i] == attachments;
    } else {
      assert attachments[..n - 1][..i] == attachments[..i];
      FailedStays(attachments[..n - 1], fates, passwords, start, i);
    }
  }

  lemma {:induction false} AbortedStays(cfg: Config, s: Session, items: seq<Item>, i: nat)
    requires i <= |items| && ItemsFold(cfg, s, items[..i]).vars.aborted
    ensures ItemsFold(cfg, s, items) == ItemsFold(cfg, s, items[..i])
  {
    var n := |items|;
    if i == n {
      assert items[..i] == items;
    } else {
      assert items[..n - 1][..i] == items[..i];
      AbortedStays(cfg, s, items[..n - 1], i);
    }
  }

  lemma {:induction false} FoldAppend(cfg: Config, s: Session, a: seq<Item>, b: seq<Item>)
    ensures ItemsFold(cfg, s, a + b) == ItemsFold(cfg, ItemsFold(cfg, s, a), b)
  {
    if b == [] {
      assert a + b == a;
    } else {
      var n := |b| - 1;
      assert (a + b)[..|a + b| - 1] == a + b[..n];
      FoldAppend(cfg, s, a, b[..n]);
    }
  }

  datatype MailError = NoError | Locked | Failed

  class Exporter {
    var watermark: nat
    var done: set<int>
    var seen: set<Hash>
    /** The effects on the outbox directory and the state file, oldest first. */
    var log: seq<Effect>

    constructor (saved: State, log: seq<Effect>)
      ensures Memory() == saved && this.log == log
    {
      watermark, done, seen := saved.watermark, saved.done, saved.seen;
      this.log := log;
    }

    function Memory(): State
      reads this
    {
      State(watermark, done, seen)
    }

    method Save(fails: bool) returns (ok: bool)
      modifies this`log
      ensures ok == !fails
      ensures log == if fails then old(log) else old(log) + [Saved(Memory())]
    {
      ok := !fails;
      if ok {
        log := log + [Saved(Memory())];
      }
    }

    method ProcessMail(item: Item, passwords: seq<string>)
      returns (exported: nat, deduped: nat, skipped: nat, err: MailError)
      modifies this`seen, this`log
      ensures var p := MailProgress(item, old(seen), old(log), passwords);
        && seen == p.seen && log == p.log
        && exported == p.exported && deduped == p.deduped && skipped == p.skipped
        && err == if p.failed then Failed else if p.locked > 0 then Locked else NoError
    {
      exported, deduped, skipped := 0, 0, 0;
      if item.detailFails {
        return 0, 0, 0, Failed;
      }
      var attachments := item.mail.attachments;
      ghost var start := Progress(seen, log, 0, 0, 0, 0, false);
      var locked := 0;
      for i := 0 to |attachments|
        invariant locked >= 0
        invariant Progress(seen, log, exported, deduped, skipped, locked, false)
               == AttachmentsFold(attachments[..i], item.fates, passwords, start)
      {
        var a, fate := attachments[i], FateOf(item.fates, i);
        assert attachments[..i + 1][..i] == attachments[..i];
        if !a.wanted {
          skipped := skipped + 1;
          continue;
        }
        if fate.FetchFails? {
          FailedStays(attachments, item.fates, passwords, start, i + 1);
          return exported, deduped, skipped, Failed;
        }
        if a.hash in seen {
          deduped := deduped + 1;
          continue;
        }
        if IsLocked(a, passwords) {
          locked := locked + 1;
          continue;
        }
        if fate.MoveFails? {
          FailedStays(attachments, item.fates, passwords, start, i + 1);
          return exported, deduped, skipped, Failed;
        }
        log := log + [Moved(a.hash)];
        seen := seen + {a.hash};
        exported := exported + 1;
      }
      assert attachments[..|attachments|] == attachments;
      err := if locked > 0 then Locked else NoError;
    }

    /** Books a processed mail; persists the state every `saveEvery` of them. */
    method Finish(cfg: Config, item: Item, err: MailError, vars0: Vars) returns (vars: Vars)
      requires !vars0.aborted
      modifies this`done, this`log
      ensures Session(Memory(), log, vars)
           == Finished(cfg, item, err == Failed, err == Locked, Session(old(Memory()), old(log), vars0))
    {
      vars := vars0;
      var counts := vars.counts;
      if err == Locked {
        return vars.(counts := counts.(locked := counts.locked + 1), heldBack := vars.heldBack + {item.mail.id});
      }
      if err == Failed {
        return vars.(counts := counts.(failed := counts.failed + 1));
      }
      vars := vars.(counts := counts.(processed := counts.processed + 1));
      done := done + {item.mail.id};
      if item.mail.date > vars.maxSent {
        vars := vars.(maxSent := item.mail.date);
      }
      vars := vars.(sinceSave := vars.sinceSave + 1);
      if vars.sinceSave >= cfg.saveEvery {
        var saved := Save(item.saveFails);
        vars := if saved then vars.(sinceSave := 0) else vars.(aborted := true);
      }
    }

    /** One listed mail: passed over, or processed and booked. */
    method ProcessItem(cfg: Config, item: Item, vars0: Vars) returns (vars: Vars)
      requires !vars0.aborted
      modifies this`done, this`seen, this`log
      ensures Session(Memory(), log, vars) == ItemStep(cfg, Session(old(Memory()), old(log), vars0), item)
    {
      vars := vars0.(counts := vars0.counts.(scanned := vars0.counts.scanned + 1));
      if !item.mail.hasAttachments || item.mail.id in done {
        return;
      }
      var exported, deduped, skipped, err := ProcessMail(item, cfg.passwords);
      var counts := vars.counts;
      vars := vars.(counts := counts.(exported := counts.exported + exported,
                                      deduped := counts.deduped + deduped,
                                      skipped := counts.skipped + skipped));
      vars := Finish(cfg, item, err, vars);
    }

    /** The mails of one page. */
    method ProcessPage(cfg: Config, items: seq<Item>, vars0: Vars) returns (vars: Vars)
      requires !vars0.aborted
      modifies this`done, this`seen, this`log
      ensures Session(Memory(), log, vars) == ItemsFold(cfg, Session(old(Memory()), old(log), vars0), items)
    {
      vars := vars0;
      ghost var start := Session(Memory(), log, vars);
      for i := 0 to |items|
        invariant !vars.aborted && watermark == old(watermark)
        invariant Session(Memory(), log, vars) == ItemsFold(cfg, start, items[..i])
      {
        assert items[..i + 1][..i] == items[..i];
        vars := ProcessItem(cfg, items[i], vars);
        if vars.aborted {
          AbortedStays(cfg, start, items, i + 1);
          return;
        }
      }
      assert items[..|items|] == items;
    }

    /** The paging loop. */
    method ProcessPages(cfg: Config, replies: seq<Reply>) returns (vars: Vars, complete: bool)
      modifies this`done, this`seen, this`log
      ensures Session(Memory(), log, vars)
           == ItemsFold(cfg, Session(old(Memory()), old(log), NO_VARS), Listed(replies, 1).0)
      ensures complete == (!vars.aborted && Listed(replies, 1).1)
    {
      ghost var start := Session(Memory(), log, NO_VARS);
      ghost var listed := Listed(replies, 1);
      ghost var before: seq<Item> := [];
      vars := NO_VARS;
      var pg := 1;
      assert [] + listed.0 == listed.0;
      while true
        invariant 1 <= pg && !vars.aborted && watermark == old(watermark)
        invariant before + Listed(replies, pg).0 == listed.0 && Listed(replies, pg).1 == listed.1
        invariant Session(Memory(), log, vars) == ItemsFold(cfg, start, before)
        decreases |replies| - pg
      {
        if pg > |replies| || replies[pg - 1].ListError? {
          assert before + [] == before;
          return vars, false;
        }
        var page := replies[pg - 1];
        vars := ProcessPage(cfg, page.items, vars);
        PageFolded(cfg, start, replies, pg, before, listed.0);
        if vars.aborted {
          return vars, false;
        }
        before := before + page.items;
        if page.items == [] || pg >= page.totalPages {
          return vars, true;
        }
        pg := pg + 1;
      }
    }

    /** One run: all pages, then the watermark and the final save. */
    method Run(cfg: Config, replies: seq<Reply>, finalSaveFails: bool) returns (vars: Vars, ok: bool)
      modifies this
      ensures (Session(Memory(), log, vars), ok) == RunSpec(cfg, old(Memory()), old(log), replies, finalSaveFails)
    {
      var complete;
      vars, complete := ProcessPages(cfg, replies);
      if !complete {
        return vars, false;
      }
      if vars.counts.failed == 0 && vars.maxSent > watermark {
        watermark := vars.maxSent;
      }
      ok := Save(finalSaveFails);
    }
  }

  lemma PageFolded(cfg: Config, start: Session, replies: seq<Reply>, pg: nat, before: seq<Item>, all: seq<Item>)
    requires 1 <= pg <= |replies| && replies[pg - 1].Page?
    requires before + Listed(replies, pg).0 == all
    ensures var page := replies[pg - 1];
      var read := before + page.items;
      && ItemsFold(cfg, start, read) == ItemsFold(cfg, ItemsFold(cfg, start, before), page.items)
      && (ItemsFold(cfg, start, read).vars.aborted ==> ItemsFold(cfg, start, all) == ItemsFold(cfg, start, read))
      && if page.items == [] || pg >= page.totalPages then read == all && Listed(replies, pg).1
         else read + Listed(replies, pg + 1).0 == all && Listed(replies, pg + 1).1 == Listed(replies, pg).1
  {
    var read := before + replies[pg - 1].items;
    FoldAppend(cfg, start, before, replies[pg - 1].items);
    PageListed(replies, pg, before, all);
    if ItemsFold(cfg, start, read).vars.aborted { AbortedStays(cfg, start, all, |read|); }
  }

  lemma PageListed(replies: seq<Reply>, pg: nat, before: seq<Item>, all: seq<Item>)
    requires 1 <= pg <= |replies| && replies[pg - 1].Page?
    requires before + Listed(replies, pg).0 == all
    ensures var page := replies[pg - 1];
      var read := before + page.items;
      && all[..|read|] == read
      && if page.items == [] || pg >= page.totalPages then read == all && Listed(replies, pg).1
         else read + Listed(replies, pg + 1).0 == all && Listed(replies, pg + 1).1 == Listed(replies, pg).1
  {
  }
}
