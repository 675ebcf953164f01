/** Waiting for the acknowledgement of a command and for the update event that
    follows it (`syncEmitWithUpdateEvent` in
    tools/thirdparty/go-uptime-kuma-client/client.go), under every interleaving of
    arrivals, cancellation and the choices of `select`. */
module KumaWait {

  /** What can happen: the caller registers its listener and emits the command;
      signals arrive; the wait loop takes one that is ready. */
  datatype Event =
    | Register
    | Emit(ok: bool)
    | UpdateArrives(name: string)
    | AckArrives(ok: bool)
    | Cancelled
    | TakeDone
    | TakeAck
    | TakeCancel

  datatype Outcome = Pending | Success | Failure

  /** `done` and `ack` are the two channels: what they hold, and whether the loop
      still listens to them. */
  datatype Wait = Wait(
    registered: bool, emitted: bool,
    doneClosed: bool, doneNil: bool,
    ackHeld: bool, ackOk: bool, ackNil: bool,
    cancelled: bool,
    outcome: Outcome)

  const START := Wait(false, false, false, false, false, false, false, false, Pending)

  /** Arrivals are always possible, the acknowledgement once and only after the
      command; the caller's own steps in their order, the loop's when ready. */
  predicate Enabled(w: Wait, e: Event) {
    match e
    case Register => !w.registered
    case Emit(_) => w.registered && !w.emitted && w.outcome.Pending?
    case UpdateArrives(_) => true
    case AckArrives(_) => w.emitted && !w.ackHeld
    case Cancelled => true
    case TakeDone => Waiting(w) && w.doneClosed && !w.doneNil
    case TakeAck => Waiting(w) && w.ackHeld && !w.ackNil
    case TakeCancel => Waiting(w) && w.cancelled
  }

  predicate Waiting(w: Wait) {
    w.emitted && w.outcome.Pending?
  }

  function Step(w: Wait, e: Event, updateEvent: string): Wait {
    match e
    case Register => w.(registered := true)
    case Emit(ok) => if ok then w.(emitted := true) else w.(outcome := Failure)
    case UpdateArrives(name) => if w.registered && name == updateEvent then w.(doneClosed := true) else w
    case AckArrives(ok) => if w.cancelled then w else w.(ackHeld := true, ackOk := ok)
    case Cancelled => w.(cancelled := true)
    case TakeDone => w.(doneNil := true, outcome := if w.ackNil then Success else Pending)
    case TakeAck =>
      if w.ackOk then w.(ackNil := true, outcome := if w.doneNil then Success else Pending)
      else w.(outcome := Failure)
    case TakeCancel => w.(outcome := Failure)
  }

  function After(log: seq<Event>, updateEvent: string): Wait {
    if log == [] then START else Step(After(log[..|log| - 1], updateEvent), log[|log| - 1], updateEvent)
  }

  /** The log is something that can happen. */
  ghost predicate Possible(log: seq<Event>, updateEvent: string) {
    log != [] ==>
      var n := |log| - 1;
      Possible(log[..n], updateEvent) && Enabled(After(log[..n], updateEvent), log[n])
  }

  ghost predicate UpdatedSince(log: seq<Event>, updateEvent: string) {
    exists r, u :: 0 <= r < u < |log| && log[r] == Register && log[u] == UpdateArrives(updateEvent)
  }

  ghost predicate Acknowledged(log: seq<Event>, ok: bool) {
    exists e, a :: 0 <= e < a < |log| && log[e] == Emit(true) && log[a] == AckArrives(ok)
  }

  lemma LogGrows(log: seq<Event>, updateEvent: string, ok: bool)
    requires log != []
    ensures UpdatedSince(log[..|log| - 1], updateEvent) ==> UpdatedSince(log, updateEvent)
    ensures Acknowledged(log[..|log| - 1], ok) ==> Acknowledged(log, ok)
  {
    var front := log[..|log| - 1];
    if UpdatedSince(front, updateEvent) {
      var r, u :| 0 <= r < u < |front| && front[r] == Register && front[u] == UpdateArrives(updateEvent);
      assert log[r] == Register && log[u] == UpdateArrives(updateEvent);
    }
    if Acknowledged(front, ok) {
      var e, a :| 0 <= e < a < |front| && front[e] == Emit(true) && front[a] == AckArrives(ok);
      assert log[e] == Emit(true) && log[a] == AckArrives(ok);
    }
  }

  /** The channels hold a signal only if it came in, at the right time. */
  predicate Backed(w: Wait, registered: bool, emitted: bool, updated: bool, acked: bool, refused: bool) {
    && (w.registered <==> registered)
    && (w.emitted ==> emitted)
    && (w.doneClosed <==> updated)
    && (w.ackHeld ==> if w.ackOk then acked else refused)
    && (w.doneNil ==> w.doneClosed)
    && (w.ackNil ==> w.ackHeld && w.ackOk)
    && (w.outcome.Success? <==> w.doneNil && w.ackNil)
  }

  lemma BackedStep(w: Wait, e: Event, updateEvent: string,
                   registered: bool, emitted: bool, updated: bool, acked: bool, refused: bool)
    requires Backed(w, registered, emitted, updated, acked, refused) && Enabled(w, e)
    ensures Backed(Step(w, e, updateEvent),
                   registered || e == Register, emitted || e == Emit(true),
                   updated || (e == UpdateArrives(updateEvent) && registered),
                   acked || (e == AckArrives(true) && emitted), refused || (e == AckArrives(false) && emitted))
  {
  }

  /** What every moment of every interleaving keeps. */
  ghost predicate Explained(log: seq<Event>, updateEvent: string) {
    Backed(After(log, updateEvent), Register in log, Emit(true) in log,
           UpdatedSince(log, updateEvent), Acknowledged(log, true), Acknowledged(log, false))
  }

  lemma {:induction false} AlwaysExplained(log: seq<Event>, updateEvent: string)
    requires Possible(log, updateEvent)
    ensures Explained(log, updateEvent)
  {
    if log != [] {
      var n := |log| - 1;
      var front, e := log[..n], log[n];
      AlwaysExplained(front, updateEvent);
      BackedStep(After(front, updateEvent), e, updateEvent, Register in front, Emit(true) in front,
                 UpdatedSince(front, updateEvent), Acknowledged(front, true), Acknowledged(front, false));
      assert log == front + [e];
      assert forall x :: x in log <==> x in front || x == e;
      LogGrows(log, updateEvent, true);
      LogGrows(log, updateEvent, false);
      LastArrival(log, updateEvent);
    }
  }

  /** Whether the last event completes the evidence. */
  lemma LastArrival(log: seq<Event>, updateEvent: string)
    requires log != []
    ensures var front, e := log[..|log| - 1], log[|log| - 1];
      && (UpdatedSince(log, updateEvent) <==>
            UpdatedSince(front, updateEvent) || (e == UpdateArrives(updateEvent) && Register in front))
      && (e.AckArrives? && Emit(true) in front ==> Acknowledged(log, e.ok))
  {
    var n := |log| - 1;
    var front, e := log[..n], log[n];
    LogGrows(log, updateEvent, true);
    if e == UpdateArrives(updateEvent) && Register in front {
      var r :| 0 <= r < n && front[r] == Register;
      assert log[r] == Register && log[n] == UpdateArrives(updateEvent);
    }
    if e.AckArrives? && Emit(true) in front {
      var i :| 0 <= i < n && front[i] == Emit(true);
      assert log[i] == Emit(true) && log[n] == AckArrives(e.ok);
    }
    if UpdatedSince(log, updateEvent) {
      var r, u :| 0 <= r < u < |log| && log[r] == Register && log[u] == UpdateArrives(updateEvent);
      assert front[r] == Register;
      assert u < n ==> front[u] == UpdateArrives(updateEvent);
    }
  }

  /** Success comes only after an OK acknowledgement of the command and a matching
      update event that came after the listener was registered. */
  lemma SuccessNeedsBoth(log: seq<Event>, updateEvent: string)
    requires Possible(log, updateEvent)
    ensures After(log, updateEvent).outcome.Success? ==> UpdatedSince(log, updateEvent) && Acknowledged(log, true)
  {
    AlwaysExplained(log, updateEvent);
  }

  /** A loop that still waits and can take nothing lacks one of the two signals, and
      was not cancelled. */
  lemma BlockedLacksSignal(log: seq<Event>, updateEvent: string)
    requires Possible(log, updateEvent) && Waiting(After(log, updateEvent))
    ensures var w := After(log, updateEvent);
      !Enabled(w, TakeDone) && !Enabled(w, TakeAck) && !Enabled(w, TakeCancel) ==>
        !w.cancelled && (!UpdatedSince(log, updateEvent) || !w.ackHeld)
  {
    AlwaysExplained(log, updateEvent);
  }

  /** Uncancelled and with both signals in, whatever the loop takes leads to success
      in as many steps as it still listens to channels. */
  lemma BothSignalsSucceed(w: Wait, updateEvent: string, e: Event)
    requires Waiting(w) && w.doneClosed && w.ackHeld && w.ackOk && !w.cancelled
    requires !(w.doneNil && w.ackNil)
    requires (e.TakeDone? || e.TakeAck? || e.TakeCancel?) && Enabled(w, e)
    ensures var t := Step(w, e, updateEvent);
      && t.doneClosed && t.ackHeld && t.ackOk && !t.cancelled
      && (if w.doneNil || w.ackNil then t.outcome.Success? else Waiting(t) && t.doneNil != t.ackNil)
  {
  }

  // ----- what a cancelled call leaves behind ----------------------------

  /** The call has returned, and the acknowledgement that was handed in was never taken.
      Returning closes the channel on which its sender waits, and that sender panics. */
  ghost predicate Stranded(log: seq<Event>, updateEvent: string) {
    var w := After(log, updateEvent);
    !w.outcome.Pending? && w.ackHeld && TakeAck !in log
  }

  /** At this place the loop takes the cancellation although an acknowledgement waits. */
  ghost predicate CutsOff(log: seq<Event>, k: nat, updateEvent: string)
    requires k < |log|
  {
    log[k] == TakeCancel && After(log[..k], updateEvent).ackHeld && !After(log[..k], updateEvent).ackNil
  }

  ghost predicate CutOff(log: seq<Event>, updateEvent: string) {
    exists k :: 0 <= k < |log| && CutsOff(log, k, updateEvent)
  }

  lemma CutOffNext(log: seq<Event>, updateEvent: string)
    requires log != []
    ensures var n := |log| - 1;
      CutOff(log, updateEvent) <==> CutOff(log[..n], updateEvent) || CutsOff(log, n, updateEvent)
  {
    var n := |log| - 1;
    forall k | 0 <= k < n ensures CutsOff(log[..n], k, updateEvent) <==> CutsOff(log, k, updateEvent) {
      assert log[..n][..k] == log[..k];
    }
  }

  /** The acknowledgement, whether the loop took it, and whether the call cut it off. */
  predicate AckTold(w: Wait, taken: bool, cut: bool) {
    && (w.ackHeld ==> w.emitted)
    && (w.ackNil ==> taken)
    && (taken ==> w.ackHeld && (w.ackNil || w.outcome.Failure?) && !cut)
    && (w.emitted && !w.outcome.Pending? && !w.ackHeld ==> w.cancelled)
    && (cut <==> !w.outcome.Pending? && w.ackHeld && !taken)
  }

  lemma AckToldStep(w: Wait, e: Event, updateEvent: string, taken: bool, cut: bool)
    requires AckTold(w, taken, cut) && Enabled(w, e)
    ensures AckTold(Step(w, e, updateEvent), taken || e == TakeAck, cut || (e == TakeCancel && w.ackHeld && !w.ackNil))
  {
  }

  lemma {:induction false} AckAlwaysTold(log: seq<Event>, updateEvent: string)
    requires Possible(log, updateEvent)
    ensures AckTold(After(log, updateEvent), TakeAck in log, CutOff(log, updateEvent))
  {
    if log != [] {
      var n := |log| - 1;
      AckAlwaysTold(log[..n], updateEvent);
      AckToldStep(After(log[..n], updateEvent), log[n], updateEvent,
                  TakeAck in log[..n], CutOff(log[..n], updateEvent));
      CutOffNext(log, updateEvent);
      assert log == log[..n] + [log[n]];
    }
  }

  /** A call leaves such a sender behind iff it takes a cancellation while the
      acknowledgement waits to be taken. However else it returns, none is left. */
  lemma StrandedIff(log: seq<Event>, updateEvent: string)
    requires Possible(log, updateEvent)
    ensures Stranded(log, updateEvent) <==> CutOff(log, updateEvent)
  {
    AckAlwaysTold(log, updateEvent);
  }

  // ----- the loop -------------------------------------------------------

  lemma Happens(log: seq<Event>, updateEvent: string, e: Event)
    requires Possible(log, updateEvent) && Enabled(After(log, updateEvent), e)
    ensures Possible(log + [e], updateEvent)
    ensures After(log + [e], updateEvent) == Step(After(log, updateEvent), e, updateEvent)
  {
    assert (log + [e])[..|log|] == log;
  }

  predicate IsArrival(e: Event) {
    e.UpdateArrives? || e.AckArrives? || e.Cancelled?
  }

  /** One signal comes in. */
  method Arrive(e: Event, updateEvent: string, closed: bool, ackHeld: bool, ackOk: bool, cancelled: bool, ghost w: Wait)
    returns (closed': bool, ackHeld': bool, ackOk': bool, cancelled': bool)
    requires IsArrival(e) && w.registered
    requires w.doneClosed == closed && w.ackHeld == ackHeld && w.ackOk == ackOk && w.cancelled == cancelled
    ensures Step(w, e, updateEvent)
         == w.(doneClosed := closed', ackHeld := ackHeld', ackOk := ackOk', cancelled := cancelled')
    ensures ackHeld' ==> ackHeld || e.AckArrives?
  {
    closed', ackHeld', ackOk', cancelled' := closed, ackHeld, ackOk, cancelled;
    match e {
      case UpdateArrives(name) => closed' := closed || name == updateEvent;
      case AckArrives(ok) =>
        if !cancelled {
          ackHeld', ackOk' := true, ok;
        }
      case Cancelled => cancelled' := true;
    }
  }

  /** Registers the listener, and hears what comes in before the command is out. */
  method Listen(updateEvent: string, early: seq<string>) returns (closed: bool, ghost log: seq<Event>)
    ensures Possible(log, updateEvent) && TakeAck !in log
    ensures After(log, updateEvent) == START.(registered := true, doneClosed := closed)
    ensures closed <==> updateEvent in early
  {
    log := [];
    Happens(log, updateEvent, Register);
    log := log + [Register];
    closed := false;
    for i := 0 to |early|
      invariant Possible(log, updateEvent) && TakeAck !in log
      invariant After(log, updateEvent) == START.(registered := true, doneClosed := closed)
      invariant closed <==> updateEvent in early[..i]
    {
      Happens(log, updateEvent, UpdateArrives(early[i]));
      log := log + [UpdateArrives(early[i])];
      assert early[..i + 1] == early[..i] + [early[i]];
      if early[i] == updateEvent {
        closed := true;
      }
    }
    assert early[..|early|] == early;
  }

  /** Registers, emits, and waits for both signals. `early` arrives before the
      command is out, `late` while waiting. If no more signals come the call never
      returns; that is the outcome Pending. `stranded`: the sender of the acknowledgement
      is left waiting on the channel that the return closes. */
  method SyncEmitWithUpdateEvent(updateEvent: string, early: seq<string>, emitOk: bool, late: seq<Event>)
    returns (outcome: Outcome, stranded: bool, ghost log: seq<Event>)
    requires forall i :: 0 <= i < |late| ==> IsArrival(late[i])
    requires forall i, j :: 0 <= i < j < |late| ==> !(late[i].AckArrives? && late[j].AckArrives?)
    ensures Possible(log, updateEvent) && outcome == After(log, updateEvent).outcome
    ensures outcome.Success? ==> UpdatedSince(log, updateEvent) && Acknowledged(log, true)
    ensures !emitOk ==> outcome.Failure?
    ensures outcome.Pending? ==> Waiting(After(log, updateEvent)) && !After(log, updateEvent).cancelled
    ensures stranded <==> Stranded(log, updateEvent)
  {
    var closed;
    closed, log := Listen(updateEvent, early);
    Happens(log, updateEvent, Emit(emitOk));
    log := log + [Emit(emitOk)];
    if !emitOk {
      return Failure, false, log;
    }
    var doneNil, ackNil, ackHeld, ackOk, cancelled := false, false, false, false, false;
    var k := 0;
    while !doneNil || !ackNil
      invariant 0 <= k <= |late| && Possible(log, updateEvent)
      invariant After(log, updateEvent)
             == Wait(true, true, closed, doneNil, ackHeld, ackOk, ackNil, cancelled,
                     if doneNil && ackNil then Success else Pending)
      invariant TakeAck in log <==> ackNil
      invariant ackHeld ==> forall i :: k <= i < |late| ==> !late[i].AckArrives?
      decreases |late| - k, (if doneNil then 0 else 1) + (if ackNil then 0 else 1)
    {
      if {
        case k < |late| =>
          Happens(log, updateEvent, late[k]);
          closed, ackHeld, ackOk, cancelled :=
            Arrive(late[k], updateEvent, closed, ackHeld, ackOk, cancelled, After(log, updateEvent));
          log := log + [late[k]];
          k := k + 1;
        case closed && !doneNil =>
          Happens(log, updateEvent, TakeDone);
          log := log + [TakeDone];
          doneNil := true;
        case ackHeld && !ackNil =>
          Happens(log, updateEvent, TakeAck);
          log := log + [TakeAck];
          if !ackOk {
            return Failure, false, log;
          }
          ackNil := true;
        case cancelled =>
          Happens(log, updateEvent, TakeCancel);
          log := log + [TakeCancel];
          return Failure, ackHeld && !ackNil, log;
        case k == |late| && !(closed && !doneNil) && !(ackHeld && !ackNil) && !cancelled =>
          return Pending, false, log;
      }
    }
    SuccessNeedsBoth(log, updateEvent);
    outcome, stranded := Success, false;
  }

  // ----- what the wait does not promise ---------------------------------

  /** The update may come before the command is out, and the call still succeeds:
      the event says that something was updated, not that this command did it. */
  lemma UpdateMayComeFirst(name: string) returns (log: seq<Event>)
    ensures Possible(log, name) && After(log, name).outcome.Success?
    ensures log == [Register, UpdateArrives(name), Emit(true), AckArrives(true), TakeDone, TakeAck]
  {
    log := [];
    Happens(log, name, Register);
    log := log + [Register];
    Happens(log, name, UpdateArrives(name));
    log := log + [UpdateArrives(name)];
    Happens(log, name, Emit(true));
    log := log + [Emit(true)];
    Happens(log, name, AckArrives(true));
    log := log + [AckArrives(true)];
    Happens(log, name, TakeDone);
    log := log + [TakeDone];
    Happens(log, name, TakeAck);
    log := log + [TakeAck];
  }

  /** The shortest call that strands the sender of its acknowledgement. */
  lemma CancelMayStrand(name: string) returns (log: seq<Event>)
    ensures Possible(log, name) && After(log, name).outcome.Failure? && Stranded(log, name)
    ensures log == [Register, Emit(true), AckArrives(true), Cancelled, TakeCancel]
  {
    log := [];
    Happens(log, name, Register);
    log := log + [Register];
    Happens(log, name, Emit(true));
    log := log + [Emit(true)];
    Happens(log, name, AckArrives(true));
    log := log + [AckArrives(true)];
    Happens(log, name, Cancelled);
    log := log + [Cancelled];
    Happens(log, name, TakeCancel);
    log := log + [TakeCancel];
  }

  /** A matching update arrives at or after position n. */
  ghost predicate UpdatedAfter(log: seq<Event>, n: nat, updateEvent: string) {
    exists u :: n <= u < |log| && log[u] == UpdateArrives(updateEvent)
  }

  /** Every call that goes on from this prefix and succeeds gets a matching update after it. */
  ghost predicate SuccessBringsUpdate(prefix: seq<Event>, updateEvent: string) {
    forall log :: prefix <= log && Possible(log, updateEvent) && After(log, updateEvent).outcome.Success? ==>
      UpdatedAfter(log, |prefix|, updateEvent)
  }

  lemma CancelledStep(w: Wait, e: Event, updateEvent: string)
    requires Enabled(w, e) && w.cancelled && !w.ackHeld
    ensures Step(w, e, updateEvent).cancelled && !Step(w, e, updateEvent).ackHeld
  {
  }

  /** A call that was cancelled before its acknowledgement came can no longer succeed. */
  lemma {:induction false} CancelledNeverAcked(log: seq<Event>, n: nat, updateEvent: string)
    requires Possible(log, updateEvent) && n <= |log|
    requires After(log[..n], updateEvent).cancelled && !After(log[..n], updateEvent).ackHeld
    ensures After(log, updateEvent).cancelled && !After(log, updateEvent).ackHeld
  {
    if n < |log| {
      assert log[..|log| - 1][..n] == log[..n];
      CancelledNeverAcked(log[..|log| - 1], n, updateEvent);
      CancelledStep(After(log[..|log| - 1], updateEvent), log[|log| - 1], updateEvent);
    } else {
      assert log[..n] == log;
    }
  }

  /** The command has just gone out. */
  ghost predicate JustEmitted(prefix: seq<Event>, updateEvent: string) {
    prefix != [] && prefix[|prefix| - 1] == Emit(true) && Possible(prefix, updateEvent)
  }

  predicate Untouched(w: Wait) {
    !w.ackHeld && !w.doneNil && !w.ackNil
  }

  lemma UntouchedStep(w: Wait, e: Event, updateEvent: string)
    requires Enabled(w, e) && (w.emitted || Untouched(w))
    ensures Step(w, e, updateEvent).emitted || Untouched(Step(w, e, updateEvent))
  {
  }

  lemma {:induction false} NothingTakenYet(log: seq<Event>, updateEvent: string)
    requires Possible(log, updateEvent)
    ensures After(log, updateEvent).emitted || Untouched(After(log, updateEvent))
  {
    if log != [] {
      NothingTakenYet(log[..|log| - 1], updateEvent);
      UntouchedStep(After(log[..|log| - 1], updateEvent), log[|log| - 1], updateEvent);
    }
  }

  lemma JustEmittedUntouched(prefix: seq<Event>, updateEvent: string)
    requires JustEmitted(prefix, updateEvent)
    ensures Waiting(After(prefix, updateEvent)) && Untouched(After(prefix, updateEvent))
  {
    NothingTakenYet(prefix[..|prefix| - 1], updateEvent);
  }

  lemma SuccessAfterPrefix(prefix: seq<Event>, updateEvent: string)
    requires JustEmitted(prefix, updateEvent)
    requires UpdatedSince(prefix, updateEvent) && !After(prefix, updateEvent).cancelled
    ensures !SuccessBringsUpdate(prefix, updateEvent)
  {
    AlwaysExplained(prefix, updateEvent);
    JustEmittedUntouched(prefix, updateEvent);
    var acked := prefix + [AckArrives(true)];
    Happens(prefix, updateEvent, AckArrives(true));
    Happens(acked, updateEvent, TakeDone);
    Happens(acked + [TakeDone], updateEvent, TakeAck);
    var log := acked + [TakeDone] + [TakeAck];
    assert prefix <= log;
    assert log[|prefix|] == AckArrives(true) && log[|prefix| + 1] == TakeDone && log[|prefix| + 2] == TakeAck;
  }

  lemma UpdateSplit(prefix: seq<Event>, log: seq<Event>, updateEvent: string)
    requires prefix <= log && UpdatedSince(log, updateEvent)
    ensures UpdatedSince(prefix, updateEvent) || UpdatedAfter(log, |prefix|, updateEvent)
  {
    var r, u :| 0 <= r < u < |log| && log[r] == Register && log[u] == UpdateArrives(updateEvent);
    if u < |prefix| {
      assert prefix[r] == Register && prefix[u] == UpdateArrives(updateEvent);
    }
  }

  /** Exactly when the update that a successful call waited for is known to come after
      the command: iff no matching update came between registering and emitting, or the
      call was cancelled by then and cannot succeed. */
  lemma UpdateFollowsIff(prefix: seq<Event>, updateEvent: string)
    requires JustEmitted(prefix, updateEvent)
    ensures SuccessBringsUpdate(prefix, updateEvent)
       <==> !UpdatedSince(prefix, updateEvent) || After(prefix, updateEvent).cancelled
  {
    var w, n := After(prefix, updateEvent), |prefix|;
    if UpdatedSince(prefix, updateEvent) && !w.cancelled {
      SuccessAfterPrefix(prefix, updateEvent);
    } else {
      forall log | prefix <= log && Possible(log, updateEvent) && After(log, updateEvent).outcome.Success?
        ensures UpdatedAfter(log, n, updateEvent)
      {
        SuccessNeedsLater(prefix, log, updateEvent);
      }
    }
  }

  lemma SuccessNeedsLater(prefix: seq<Event>, log: seq<Event>, updateEvent: string)
    requires JustEmitted(prefix, updateEvent) && prefix <= log && Possible(log, updateEvent)
    requires !UpdatedSince(prefix, updateEvent) || After(prefix, updateEvent).cancelled
    requires After(log, updateEvent).outcome.Success?
    ensures UpdatedAfter(log, |prefix|, updateEvent)
  {
    assert log[..|prefix|] == prefix;
    JustEmittedUntouched(prefix, updateEvent);
    AlwaysExplained(log, updateEvent);
    if After(prefix, updateEvent).cancelled {
      CancelledNeverAcked(log, |prefix|, updateEvent);
      assert false;
    }
    UpdateSplit(prefix, log, updateEvent);
  }
}
