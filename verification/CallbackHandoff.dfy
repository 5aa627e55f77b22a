/** The hand-off of a callback from a notification thread to a Tcl thread, as interleaved steps. */
module CallbackHandoff {
  import opened Basics

  /** The notification thread: TwapiEnqueueCallback, and the owner of the response afterwards. */
  datatype Sender =
    | Creating | Referencing | Linking | Posting
    | Waiting
    | Answered          // the wait has succeeded
    | Holding(err: nat) // returned with the response; to be given up by its owner
    | Dropping(err: nat) // about to drop its reference
    | SenderDeleting(err: nat)
    | SenderDone(err: nat)
    | TimedOut

  /** The Tcl thread: Twapi_TclEventProc. */
  datatype Receiver = Idle | Failing | Signalling | Unhooking | Unreferencing | ReceiverDeleting | ReceiverDone

  /** What the callback left in the record. */
  datatype Response = Untouched | Finished | Cleared

  const BAD_ARGUMENTS := 160

  /** The record, the event, and what has happened to the record: how often it was deleted and
      whether it was used after that; `report` is what the callback has reported. */
  datatype State = State(
    wait: bool, keep: bool, sender: Sender, receiver: Receiver,
    nrefs: int, event: bool, signalled: bool, posted: bool, winerr: nat, response: Response,
    deleted: nat, misused: bool, report: Option<bool>)

  /** A step of either thread. `give` says whether the wait gives up now, `ok` what the callback
      reports. */
  datatype Move = Send(give: bool) | Receive(ok: bool)

  /** A use of the record. */
  function Use(s: State): State {
    s.(misused := s.misused || s.deleted > 0)
  }

  function Initial(wait: bool, keep: bool): State {
    State(wait, keep, Creating, Idle, 0, false, false, false, 0, Untouched, 0, false, None)
  }

  function Step(s: State, m: Move): State {
    match m
    case Send(give) => SendStep(s, give)
    case Receive(ok) => ReceiveStep(s, ok)
  }

  function SendStep(s: State, give: bool): State {
    match s.sender
    case Creating => Use(s).(event := s.wait, sender := Referencing)
    case Referencing => Use(s).(nrefs := s.nrefs + if s.wait then 2 else 1, sender := Linking)
    case Linking => Use(s).(sender := Posting)
    case Posting => s.(posted := true, sender := if s.wait then Waiting else SenderDone(0))
    case Waiting =>
      if s.signalled then s.(signalled := false, sender := Answered)
      else if give then s.(sender := TimedOut)
      else s
    case Answered => Use(s).(sender := if s.keep then Holding(s.winerr) else Dropping(s.winerr))
    case Holding(err) => Use(s).(sender := Dropping(err))
    case Dropping(err) => Use(s).(nrefs := s.nrefs - 1,
        sender := if s.nrefs <= 1 then SenderDeleting(err) else SenderDone(err))
    case SenderDeleting(err) => Use(s).(deleted := s.deleted + 1, sender := SenderDone(err))
    case SenderDone(_) => s
    case TimedOut => s
  }

  function ReceiveStep(s: State, ok: bool): State {
    match s.receiver
    case Idle =>
      if !s.posted then s
      else if ok then Use(s).(response := Finished, report := Some(true), receiver := Signalling)
      else Use(s).(response := Finished, report := Some(false), receiver := Failing)
    case Failing => Use(s).(winerr := BAD_ARGUMENTS, response := Cleared, receiver := Signalling)
    case Signalling => Use(s).(signalled := s.signalled || s.event, receiver := Unhooking)
    case Unhooking => Use(s).(receiver := Unreferencing)
    case Unreferencing => Use(s).(nrefs := s.nrefs - 1,
        receiver := if s.nrefs <= 1 then ReceiverDeleting else ReceiverDone)
    case ReceiverDeleting => Use(s).(deleted := s.deleted + 1, receiver := ReceiverDone)
    case ReceiverDone => s
  }

  function Run(s: State, ms: seq<Move>): State
    decreases |ms|
  {
    if ms == [] then s else Run(Step(s, ms[0]), ms[1..])
  }

  // ----- what every interleaving keeps

  predicate Referenced(s: Sender) {
    !s.Creating? && !s.Referencing?
  }

  predicate Dropped(s: Sender) {
    s.SenderDeleting? || s.SenderDone?
  }

  /** The references held on behalf of a waiting sender, and by the queue and the receiver. */
  function SenderRef(s: State): nat {
    if s.wait && Referenced(s.sender) && !Dropped(s.sender) then 1 else 0
  }

  function QueueRef(s: State): nat {
    if Referenced(s.sender) && !s.receiver.ReceiverDeleting? && !s.receiver.ReceiverDone? then 1 else 0
  }

  predicate Answer(s: State) {
    s.receiver.Unhooking? || s.receiver.Unreferencing? || s.receiver.ReceiverDeleting? || s.receiver.ReceiverDone?
  }

  predicate AfterAnswer(s: Sender) {
    s.Answered? || s.Holding? || s.Dropping? || s.SenderDeleting? || s.SenderDone?
  }

  function SeenError(s: Sender): nat
    requires s.Holding? || s.Dropping? || s.SenderDeleting? || s.SenderDone?
  {
    s.err
  }

  /** Who may do what: the phases of the two threads fit together. */
  predicate PhaseInv(s: State) {
    && s.event == (s.wait && !s.sender.Creating?)
    && s.posted == (Referenced(s.sender) && !s.sender.Linking? && !s.sender.Posting?)
    && (!s.posted ==> s.receiver.Idle?)
    && (!s.wait ==> !Referenced(s.sender) || s.sender.Linking? || s.sender.Posting? || s.sender == SenderDone(0))
  }

  /** The count is the number of references held; one side, and only one, deletes the record once
      both are gone. */
  predicate RefInv(s: State) {
    && !s.misused
    && s.nrefs == SenderRef(s) + QueueRef(s)
    && s.deleted <= 1
    && (s.deleted == 1 ==> s.nrefs == 0 && s.posted && !Deleting(s))
    && (Deleting(s) ==> s.nrefs == 0 && s.deleted == 0 && !(s.sender.SenderDeleting? && s.receiver.ReceiverDeleting?))
    && (s.posted && s.nrefs == 0 ==> s.deleted == 1 || Deleting(s))
  }

  predicate Deleting(s: State) {
    s.sender.SenderDeleting? || s.receiver.ReceiverDeleting?
  }

  /** The answer is final before it is signalled. */
  predicate AnswerInv(s: State) {
    && (s.signalled ==> Answer(s))
    && (s.wait && AfterAnswer(s.sender) ==> Answer(s))
    && (Answer(s) || s.receiver.Signalling? ==> s.response == (if s.winerr == 0 then Finished else Cleared))
    && (s.receiver.Idle? || s.receiver.Failing? ==> s.winerr == 0)
    && (s.receiver.Failing? ==> s.report == Some(false))
    && (Answer(s) || s.receiver.Signalling? ==> s.report == Some(s.winerr == 0) && s.winerr in {0, BAD_ARGUMENTS})
    && (s.wait && Answer(s) && (s.sender.Posting? || s.sender.Waiting?) ==> s.signalled)
    && (s.wait && AfterAnswer(s.sender) && !s.sender.Answered? ==> SeenError(s.sender) == s.winerr)
  }

  predicate Inv(s: State) {
    PhaseInv(s) && RefInv(s) && AnswerInv(s)
  }

  lemma PhaseKeeps(s: State, m: Move)
    requires PhaseInv(s)
    ensures PhaseInv(Step(s, m))
  {
  }

  lemma RefKeepsSend(s: State, give: bool)
    requires PhaseInv(s) && RefInv(s)
    ensures RefInv(SendStep(s, give))
  {
    match s.sender
    case Creating =>
    case Referencing =>
    case Linking =>
    case Posting =>
    case Waiting =>
    case Answered =>
    case Holding(_) =>
    case Dropping(_) =>
    case SenderDeleting(_) =>
    case SenderDone(_) =>
    case TimedOut =>
  }

  lemma RefKeepsReceive(s: State, ok: bool)
    requires PhaseInv(s) && RefInv(s)
    ensures RefInv(ReceiveStep(s, ok))
  {
  }

  lemma AnswerKeepsSend(s: State, give: bool)
    requires PhaseInv(s) && AnswerInv(s)
    ensures AnswerInv(SendStep(s, give))
  {
  }

  lemma AnswerKeepsReceive(s: State, ok: bool)
    requires PhaseInv(s) && AnswerInv(s)
    ensures AnswerInv(ReceiveStep(s, ok))
  {
  }

  lemma StepKeeps(s: State, m: Move)
    requires Inv(s)
    ensures Inv(Step(s, m))
  {
    hide PhaseInv, RefInv, AnswerInv, SendStep, ReceiveStep;
    PhaseKeeps(s, m);
    match m {
      case Send(give) =>
        RefKeepsSend(s, give);
        AnswerKeepsSend(s, give);
      case Receive(ok) =>
        RefKeepsReceive(s, ok);
        AnswerKeepsReceive(s, ok);
    }
  }

  lemma {:induction false} RunKeeps(s: State, ms: seq<Move>)
    requires Inv(s)
    ensures Inv(Run(s, ms))
    decreases |ms|
  {
    hide Step, Inv;
    if ms != [] {
      StepKeeps(s, ms[0]);
      RunKeeps(Step(s, ms[0]), ms[1..]);
    }
  }

  lemma InitialOk(s: State)
    requires s == Initial(s.wait, s.keep)
    ensures PhaseInv(s) && RefInv(s) && AnswerInv(s)
  {
  }

  lemma Reachable(wait: bool, keep: bool, ms: seq<Move>)
    ensures Inv(Run(Initial(wait, keep), ms))
  {
    hide Run, PhaseInv, RefInv, AnswerInv;
    InitialOk(Initial(wait, keep));
    RunKeeps(Initial(wait, keep), ms);
  }

  lemma InvSafe(s: State)
    requires Inv(s)
    ensures !s.misused && s.deleted <= 1
    ensures s.sender.Holding? && s.wait ==>
        s.response == (if s.sender.err == 0 then Finished else Cleared) && s.deleted == 0
        && s.report == Some(s.sender.err == 0) && s.sender.err in {0, BAD_ARGUMENTS}
    ensures s.sender.SenderDone? && s.receiver.ReceiverDone? ==> s.deleted == 1 && s.nrefs == 0
    ensures s.sender.TimedOut? && s.wait ==> s.deleted == 0 && s.nrefs >= 1
    ensures !s.wait ==> !s.sender.Holding? && !s.sender.TimedOut?
  {
  }

  /** In every interleaving: the record is never used after it is deleted, it is deleted at most
      once, and a waiter that was answered has read the final error code of a finished callback: 0 if
      it reported success, and otherwise ERROR_BAD_ARGUMENTS with the response cleared. */
  lemma Safe(wait: bool, keep: bool, ms: seq<Move>)
    ensures var s := Run(Initial(wait, keep), ms);
            && !s.misused && s.deleted <= 1
            && (s.sender.Holding? ==> s.response == (if s.sender.err == 0 then Finished else Cleared) && s.deleted == 0)
            && (s.sender.Holding? ==> s.report == Some(s.sender.err == 0) && s.sender.err in {0, BAD_ARGUMENTS})
  {
    hide Run, Inv, Initial;
    Reachable(wait, keep, ms);
    InvSafe(Run(Initial(wait, keep), ms));
  }

  /** When neither thread has anything left to do, the record has been deleted exactly once, unless
      the wait was given up: then its reference is never dropped and it is never deleted. */
  lemma DeletedExactlyOnce(wait: bool, keep: bool, ms: seq<Move>)
    ensures var s := Run(Initial(wait, keep), ms);
            && (s.sender.SenderDone? && s.receiver.ReceiverDone? ==> s.deleted == 1 && s.nrefs == 0)
            && (s.sender.TimedOut? ==> s.deleted == 0 && s.nrefs >= 1)
  {
    hide Run, Inv, Initial;
    Reachable(wait, keep, ms);
    InvSafe(Run(Initial(wait, keep), ms));
  }

  // ----- no thread is left waiting

  function SenderSteps(s: Sender): nat {
    match s
    case Creating => 10
    case Referencing => 9
    case Linking => 8
    case Posting => 7
    case Waiting => 6
    case Answered => 5
    case Holding(_) => 4
    case Dropping(_) => 3
    case SenderDeleting(_) => 2
    case SenderDone(_) => 0
    case TimedOut => 0
  }

  function ReceiverSteps(r: Receiver): nat {
    match r
    case Idle => 6
    case Failing => 5
    case Signalling => 4
    case Unhooking => 3
    case Unreferencing => 2
    case ReceiverDeleting => 1
    case ReceiverDone => 0
  }

  function StepsLeft(s: State): nat {
    SenderSteps(s.sender) + ReceiverSteps(s.receiver)
  }

  /** A waiter whose answer has been signalled goes on with its next step; until then the other thread
      can go on. */
  lemma SomeoneMoves(s: State) returns (m: Move)
    requires Inv(s) && !s.sender.TimedOut? && StepsLeft(s) > 0
    ensures m.Send? ==> !m.give
    ensures StepsLeft(Step(s, m)) < StepsLeft(s) && !Step(s, m).sender.TimedOut?
  {
    hide PhaseInv, RefInv, AnswerInv, SendStep, ReceiveStep;
    if s.sender.SenderDone? || (s.sender.Waiting? && !s.signalled) {
      m := Receive(true);
      ReceiverFree(s);
      ReceiverMoves(s);
    } else {
      m := Send(false);
      SenderMoves(s);
    }
  }

  lemma SenderMoves(s: State)
    requires !s.sender.SenderDone? && !s.sender.TimedOut? && (s.sender.Waiting? ==> s.signalled)
    ensures var t := SendStep(s, false);
            SenderSteps(t.sender) < SenderSteps(s.sender) && t.receiver == s.receiver && !t.sender.TimedOut?
  {
    match s.sender
    case Creating =>
    case Referencing =>
    case Linking =>
    case Posting =>
    case Waiting =>
    case Answered =>
    case Holding(_) =>
    case Dropping(_) =>
    case SenderDeleting(_) =>
    case SenderDone(_) =>
    case TimedOut =>
  }

  lemma ReceiverMoves(s: State)
    requires s.posted && !s.receiver.ReceiverDone?
    ensures var t := ReceiveStep(s, true);
            ReceiverSteps(t.receiver) < ReceiverSteps(s.receiver) && t.sender == s.sender
  {
  }

  lemma ReceiverFree(s: State)
    requires PhaseInv(s) && AnswerInv(s) && (s.sender.SenderDone? || (s.sender.Waiting? && !s.signalled))
    ensures s.posted && (s.sender.Waiting? ==> !s.receiver.ReceiverDone?)
  {
  }

  /** However far a run has gone, it can be brought to its end, where the record has been deleted exactly
      once, unless a wait was given up. */
  lemma {:induction false} CanFinish(s: State) returns (ms: seq<Move>)
    requires Inv(s) && !s.sender.TimedOut?
    ensures var e := Run(s, ms);
            e.sender.SenderDone? && e.receiver.ReceiverDone? && e.deleted == 1
    decreases StepsLeft(s)
  {
    hide Step;
    if StepsLeft(s) == 0 {
      ms := [];
      InvSafe(s);
    } else {
      var m := SomeoneMoves(s);
      StepKeeps(s, m);
      var rest := CanFinish(Step(s, m));
      ms := [m] + rest;
      assert ms[1..] == rest;
    }
  }

  lemma AnyRunCanFinish(wait: bool, keep: bool, ms: seq<Move>) returns (later: seq<Move>)
    requires !Run(Initial(wait, keep), ms).sender.TimedOut?
    ensures var e := Run(Run(Initial(wait, keep), ms), later);
            e.sender.SenderDone? && e.receiver.ReceiverDone? && e.deleted == 1
  {
    hide Run, Inv, Initial;
    Reachable(wait, keep, ms);
    later := CanFinish(Run(Initial(wait, keep), ms));
  }

  lemma {:induction false} TimeoutIsFinal(s: State, ms: seq<Move>)
    requires s.sender.TimedOut?
    ensures Run(s, ms).sender.TimedOut?
    decreases |ms|
  {
    hide Step;
    if ms != [] {
      TimeoutStays(s, ms[0]);
      TimeoutIsFinal(Step(s, ms[0]), ms[1..]);
    }
  }

  lemma TimeoutStays(s: State, m: Move)
    requires s.sender.TimedOut?
    ensures Step(s, m).sender.TimedOut?
  {
  }

  /** A timed-out wait leaks the record: however both threads go on, it is never deleted. */
  lemma TimedOutNeverDeleted(wait: bool, keep: bool, ms: seq<Move>, later: seq<Move>)
    requires Run(Initial(wait, keep), ms).sender.TimedOut?
    ensures Run(Run(Initial(wait, keep), ms), later).deleted == 0
  {
    hide Run, Inv, Initial;
    var s := Run(Initial(wait, keep), ms);
    Reachable(wait, keep, ms);
    RunKeeps(s, later);
    TimeoutIsFinal(s, later);
    InvSafe(Run(s, later));
  }
}
