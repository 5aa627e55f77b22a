/** One-time initialization by any number of threads, as interleaved atomic steps. */
module OneTimeInit {
  /** The shared word. */
  datatype Word = NotDone | InProgress | Done | Error

  /** Where a thread is: about to enter, spinning on somebody else's initialization, elected to
      call the function, back from the function, or returned with a value. */
  datatype Pc = Entering | Spinning | Elected | Back(ok: bool) | Returned(value: nat)

  /** `calls` counts completed calls of the function, `wins` those that succeeded; `callers` and
      `waiters` are the threads that ever called it or spun. */
  datatype State = State(word: Word, pcs: seq<Pc>, calls: nat, wins: nat, callers: set<nat>, waiters: set<nat>)

  /** One atomic step of thread `t`; `ok` is what the function reports if this step calls it. */
  datatype Move = Move(t: nat, ok: bool)

  /** The thread's new position and the shared word after an interlocked operation on it. */
  function Interlocked(pc: Pc, w: Word): (Pc, Word) {
    match pc
    case Entering => (
      match w
      case Done => (Returned(3), w)
      case InProgress => (Spinning, w)
      case NotDone => (Elected, InProgress)
      case Error => (Returned(0), w))
    case Spinning => (if w == Done then Returned(2) else if w != InProgress then Returned(0) else Spinning, w)
    case Back(ok) => if ok then (Returned(1), Done) else (Returned(0), Error)
    case _ => (pc, w)
  }

  function Step(s: State, m: Move): State {
    if m.t >= |s.pcs| then s
    else if s.pcs[m.t].Elected? then
      s.(pcs := s.pcs[m.t := Back(m.ok)], calls := s.calls + 1, wins := s.wins + if m.ok then 1
          else 0, callers := s.callers + {m.t})
    else
      var (pc, w) := Interlocked(s.pcs[m.t], s.word);
      s.(pcs := s.pcs[m.t := pc], word := w, waiters := if pc.Spinning? then s.waiters + {m.t} else s.waiters)
  }

  function Run(s: State, ms: seq<Move>): (r: State)
    ensures |r.pcs| == |s.pcs|
    decreases |ms|
  {
    if ms == [] then s else Run(Step(s, ms[0]), ms[1..])
  }

  function Initial(n: nat): State {
    State(NotDone, seq(n, _ => Entering), 0, 0, {}, {})
  }

  predicate Owner(pc: Pc) {
    pc.Elected? || pc.Back?
  }

  /** What every interleaving keeps. */
  ghost predicate Inv(s: State) {
    && (s.word.NotDone? ==> s.calls == 0 && s.wins == 0 && forall t :: 0 <= t < |s.pcs| ==> s.pcs[t].Entering?)
    && (s.word.InProgress? ==> exists o :: 0 <= o < |s.pcs| && Owner(s.pcs[o]) && Owned(s, o))
    && (s.word.Done? ==> s.calls == 1 && s.wins == 1)
    && (s.word.Error? ==> s.calls == 1 && s.wins == 0)
    && (s.word.Done? || s.word.Error? ==> forall t :: 0 <= t < |s.pcs| ==> !Owner(s.pcs[t]))
    && forall t :: 0 <= t < |s.pcs| ==> (s.pcs[t].Returned? ==> s.word == if s.pcs[t].value > 0 then Done else Error)
  }

  ghost predicate Owned(s: State, o: nat)
    requires o < |s.pcs|
  {
    && (forall t :: 0 <= t < |s.pcs| && t != o ==> !Owner(s.pcs[t]))
    && (s.pcs[o].Elected? ==> s.calls == 0 && s.wins == 0)
    && (s.pcs[o].Back? ==> s.calls == 1 && s.wins == if s.pcs[o].ok then 1 else 0)
  }

  lemma StepKeeps(s: State, m: Move)
    requires Inv(s)
    ensures Inv(Step(s, m))
  {
    if m.t < |s.pcs| {
      var s' := Step(s, m);
      if s.word.InProgress? {
        var o :| 0 <= o < |s.pcs| && Owner(s.pcs[o]) && Owned(s, o);
        assert s'.word.InProgress? ==> Owner(s'.pcs[o]) && Owned(s', o);
      } else if s'.word.InProgress? {
        assert Owner(s'.pcs[m.t]) && Owned(s', m.t);
      }
    }
  }

  lemma {:induction false} RunKeeps(s: State, ms: seq<Move>)
    requires Inv(s)
    ensures Inv(Run(s, ms))
    decreases |ms|
  {
    if ms != [] {
      StepKeeps(s, ms[0]);
      RunKeeps(Step(s, ms[0]), ms[1..]);
    }
  }

  /** In every interleaving of any number of threads the function is called at most once, and a
      thread has returned success only if that call succeeded, failure only if it failed. */
  lemma AtMostOnce(n: nat, ms: seq<Move>)
    ensures var s := Run(Initial(n), ms);
            && s.calls <= 1 && s.wins <= s.calls
            && forall t :: 0 <= t < |s.pcs| && s.pcs[t].Returned? ==>
                s.calls == 1 && s.wins == if s.pcs[t].value > 0 then 1 else 0
  {
    var s := Run(Initial(n), ms);
    RunKeeps(Initial(n), ms);
    if s.word.InProgress? {
      var o :| 0 <= o < |s.pcs| && Owner(s.pcs[o]) && Owned(s, o);
    }
  }

  /** Only the thread that made the call reports having initialized: at most one returns 1. */
  predicate Claims(pc: Pc) {
    Owner(pc) || pc == Returned(1)
  }

  ghost predicate OneClaim(s: State) {
    forall t, u :: 0 <= t < u < |s.pcs| ==> !(Claims(s.pcs[t]) && Claims(s.pcs[u]))
  }

  lemma {:induction false} OneReturnsOne(s: State, ms: seq<Move>)
    requires Inv(s) && OneClaim(s)
    ensures OneClaim(Run(s, ms))
    decreases |ms|
  {
    if ms != [] {
      var m := ms[0];
      StepKeeps(s, m);
      OneReturnsOne(Step(s, m), ms[1..]);
    }
  }

  /** What a return value tells about the thread that got it. */
  ghost predicate CodesOk(s: State) {
    forall t :: 0 <= t < |s.pcs| ==> CodeOk(s.pcs[t], t in s.callers, t in s.waiters)
  }

  predicate CodeOk(pc: Pc, called: bool, waited: bool) {
    match pc
    case Entering | Elected => !called && !waited
    case Spinning => !called && waited
    case Back(_) => called && !waited
    case Returned(v) =>
      (v == 0 || (v == 1 && called && !waited) || (v == 2 && !called && waited) || (v == 3 && !called && !waited))
  }

  /** In every interleaving: 1 is returned by the thread that made the successful call, 2 after
      waiting for another's, 3 without waiting, and no other success value. */
  lemma {:induction false} ReturnCodes(s: State, ms: seq<Move>)
    requires CodesOk(s)
    ensures CodesOk(Run(s, ms))
    decreases |ms|
  {
    if ms != [] {
      ReturnCodes(Step(s, ms[0]), ms[1..]);
    }
  }

  /** So in every interleaving of any number of threads at most one returns 1, and every return value
      tells the truth. */
  lemma EveryRun(n: nat, ms: seq<Move>)
    ensures OneClaim(Run(Initial(n), ms)) && CodesOk(Run(Initial(n), ms))
  {
    OneReturnsOne(Initial(n), ms);
    ReturnCodes(Initial(n), ms);
  }

  /** DONE and ERROR are final. */
  lemma {:induction false} Absorbing(s: State, ms: seq<Move>)
    requires Inv(s) && (s.word.Done? || s.word.Error?)
    ensures Run(s, ms).word == s.word && Run(s, ms).calls == s.calls
    decreases |ms|
  {
    if ms != [] {
      StepKeeps(s, ms[0]);
      Absorbing(Step(s, ms[0]), ms[1..]);
    }
  }

  /** No thread waits for nobody: while one spins, another one is elected, and after that one's next
      two steps every spinning thread returns at its own next step. */
  lemma NobodyWaitsForever(s: State, t: nat, ok: bool)
    requires Inv(s) && t < |s.pcs| && s.pcs[t].Spinning? && s.word.InProgress?
    ensures exists o :: 0 <= o < |s.pcs| && o != t && Owner(s.pcs[o]) &&
              Run(s, [Move(o, ok), Move(o, ok), Move(t, ok)]).pcs[t].Returned?
  {
    hide Run;
    var o :| 0 <= o < |s.pcs| && Owner(s.pcs[o]) && Owned(s, o);
    OwnerReleases(s, o, t, ok);
  }

  lemma OwnerReleases(s: State, o: nat, t: nat, ok: bool)
    requires o < |s.pcs| && t < |s.pcs| && o != t && Owner(s.pcs[o]) && s.pcs[t].Spinning?
    ensures Run(s, [Move(o, ok), Move(o, ok), Move(t, ok)]).pcs[t].Returned?
  {
    hide Run;
    var s1 := Step(s, Move(o, ok));
    var s2 := Step(s1, Move(o, ok));
    assert [Move(o, ok), Move(o, ok), Move(t, ok)] == [Move(o, ok)] + [Move(o, ok), Move(t, ok)];
    assert [Move(o, ok), Move(t, ok)] == [Move(o, ok)] + [Move(t, ok)];
    Unroll(s, Move(o, ok), [Move(o, ok), Move(t, ok)]);
    Unroll(s1, Move(o, ok), [Move(t, ok)]);
    RunOne(s2, Move(t, ok));
  }

  /** Every thread gets its answer: from any state in order four more steps at most, of the thread itself
      and of the one it waits for, make it return; and an answer is final. */
  lemma EachReturns(s: State, t: nat, ok: bool) returns (o: nat)
    requires Inv(s) && t < |s.pcs|
    ensures o < |s.pcs| && Run(s, [Move(t, ok), Move(o, ok), Move(o, ok), Move(t, ok)]).pcs[t].Returned?
  {
    hide Run, Inv, Step;
    var s1 := Step(s, Move(t, ok));
    StepKeeps(s, Move(t, ok));
    o := t;
    StepSize(s, Move(t, ok));
    if s1.pcs[t].Spinning? && s1.word.InProgress? {
      o := OwnerOf(s1);
    }
    FourSteps(s, t, o, ok);
  }

  lemma OwnerOf(s: State) returns (o: nat)
    requires Inv(s) && s.word.InProgress?
    ensures o < |s.pcs| && Owner(s.pcs[o])
  {
    o :| 0 <= o < |s.pcs| && Owner(s.pcs[o]) && Owned(s, o);
  }

  lemma StepSize(s: State, m: Move)
    ensures |Step(s, m).pcs| == |s.pcs|
  {
  }

  lemma ReturnedStays(s: State, t: nat, m: Move)
    requires t < |s.pcs| && s.pcs[t].Returned?
    ensures Step(s, m).pcs[t] == s.pcs[t]
  {
  }

  lemma FourSteps(s: State, t: nat, o: nat, ok: bool)
    requires Inv(s) && t < |s.pcs| && o < |s.pcs|
    requires var s1 := Step(s, Move(t, ok));
             if s1.pcs[t].Spinning? && s1.word.InProgress? then o != t && Owner(s1.pcs[o]) else o == t
    ensures Run(s, [Move(t, ok), Move(o, ok), Move(o, ok), Move(t, ok)]).pcs[t].Returned?
  {
    hide Run, Inv;
    var a, b := Move(t, ok), Move(o, ok);
    assert [a, b, b, a] == [a] + ([b] + ([b] + [a]));
    var s1 := Step(s, a);
    Unroll(s, a, [b] + ([b] + [a]));
    Unroll(s1, b, [b] + [a]);
    Unroll(Step(s1, b), b, [a]);
    RunOne(Step(Step(s1, b), b), a);
    StepKeeps(s, a);
    WordKnown(s1);
  }

  lemma WordKnown(s: State)
    requires Inv(s)
    ensures s.word.NotDone? ==> forall t :: 0 <= t < |s.pcs| ==> s.pcs[t].Entering?
  {
  }

  lemma RunOne(s: State, m: Move)
    ensures Run(s, [m]) == Step(s, m)
  {
  }

  lemma Unroll(s: State, m: Move, ms: seq<Move>)
    ensures Run(s, [m] + ms) == Run(Step(s, m), ms)
  {
    assert ([m] + ms)[1..] == ms;
  }
}
