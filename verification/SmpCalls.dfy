/**
 Single calls of smp_dispatch_ap (kernel/smp.c): what a call has done when it is back, and when it
 comes back, over every interleaving with the other processor.
 */
module SmpCalls {
  import opened Smp

  // ---- What one call does, from its acceptance to its return ----

  // No other call is accepted on the way.
  predicate OneCall(s: State, cs: seq<Choice>)
    decreases |cs|
  {
    cs == [] || (!(cs[0].Dispatch? && s.bsp == Idle) && OneCall(Next(s, cs[0]), cs[1..]))
  }

  // The flag is up at some point of the run, its end included.
  predicate EverUp(s: State, cs: seq<Choice>)
    decreases |cs|
  {
    s.done || (cs != [] && EverUp(Next(s, cs[0]), cs[1..]))
  }

  // A call accepted in state `from` is under way or has returned; `up` says whether the flag has been
  // up since.
  predicate Calling(from: State, w: Work, wait: bool, up: bool, s: State) {
    && (s.done ==> up) && (from.online ==> s.online)
    && match s.bsp
       case Idle => Returned(from, w, wait, up, s)
       case SendIpi(v, b) => v == w && b == wait && s.online && (wait || up) && s.dispatched == from.dispatched + [w]
       case SpinDone(v) => v == w && wait && s.online && s.dispatched == from.dispatched + [w]
       case Entered(v, b) => v == w && b == wait && s.dispatched == from.dispatched && (from.done ==> s.done)
       case BusyTest(v, b) => v == w && b == wait && s.online && s.dispatched == from.dispatched && (from.done ==> s.done)
       case _ => s.bsp.work == w && s.bsp.wait == wait && s.online && (wait || up) && s.dispatched == from.dispatched
  }

  // What a call leaves behind: its work at the end of what has been dispatched, run already if the
  // call waits, or nothing, for a reason.
  predicate Returned(from: State, w: Work, wait: bool, up: bool, s: State) {
    || (&& s.dispatched == from.dispatched + [w]
        && s.online && (wait || up) && (wait ==> s.executed == s.dispatched))
    || (&& s.dispatched == from.dispatched
        && !(from.online && (wait || from.done)))
  }

  lemma CallStep(from: State, w: Work, wait: bool, up: bool, s: State, c: Choice)
    requires Inv(s) && Calling(from, w, wait, up, s) && !(c.Dispatch? && s.bsp == Idle)
    ensures Calling(from, w, wait, up || Next(s, c).done, Next(s, c))
  {
    if c.BspMoves? {
      match s.bsp {
        case PutFn(_, _) =>
        case _ => hide LastLeft;
      }
    } else if c.ApMoves? {
      ExecutedStays(s);
      hide Inv;
    }
  }

  // With everything run there is nothing left to run.
  lemma ExecutedStays(s: State)
    requires Inv(s)
    ensures s.executed == s.dispatched ==> ApStep(s).executed == s.executed
    ensures ApStep(s).dispatched == s.dispatched && ApStep(s).bsp == s.bsp && (s.online ==> ApStep(s).online) && (s.done ==> ApStep(s).done)
  {
    if s.ap.CallFn? { assert |s.dispatched| == |s.executed| + 1; }
  }

  lemma {:induction false} CallRuns(from: State, w: Work, wait: bool, up: bool, s: State, cs: seq<Choice>)
    requires Inv(s) && Calling(from, w, wait, up, s) && OneCall(s, cs)
    ensures Calling(from, w, wait, up || EverUp(s, cs), Run(s, cs))
    decreases |cs|
  {
    if cs != [] {
      CallStep(from, w, wait, up, s, cs[0]);
      StepKeepsInv(s, cs[0]);
      hide Inv, Calling;
      CallRuns(from, w, wait, up || Next(s, cs[0]).done, Next(s, cs[0]), cs[1..]);
    }
  }

  // Whatever happened before and however the processors interleave: when a call is back, either its
  // work is the last dispatched, and has been run if the call was to wait, or nothing was
  // dispatched.  It is dispatched if the other processor is online and the flag is up or waited for;
  // it is not if the processor stays offline, or if the call does not wait and the flag stays down.
  lemma CallReturns(before: seq<Choice>, w: Work, wait: bool, cs: seq<Choice>)
    requires var s := Run(Start(), before); s.bsp == Idle && OneCall(Next(s, Dispatch(w, wait)), cs)
    requires Run(Next(Run(Start(), before), Dispatch(w, wait)), cs).bsp == Idle
    ensures var s := Run(Start(), before);
      var up := EverUp(Next(s, Dispatch(w, wait)), cs);
      var e := Run(Next(s, Dispatch(w, wait)), cs);
      && (e.dispatched == s.dispatched + [w] || e.dispatched == s.dispatched)
      && (e.dispatched == s.dispatched + [w] && wait ==> e.executed == e.dispatched)
      && (s.online && (wait || s.done) ==> e.dispatched == s.dispatched + [w])
      && (!e.online || (!wait && !up) ==> e.dispatched == s.dispatched)
  {
    var s := Run(Start(), before);
    RunKeepsInv(Start(), before);
    StepKeepsInv(s, Dispatch(w, wait));
    assert Calling(s, w, wait, s.done, Next(s, Dispatch(w, wait)));
    hide Inv;
    CallRuns(s, w, wait, s.done, Next(s, Dispatch(w, wait)), cs);
  }

  // ---- When a call returns ----

  // Only non-null functions are ever called.
  predicate CallsReal(s: State) {
    && (forall k :: 0 <= k < |s.executed| ==> s.executed[k].fn != 0)
    && (s.ap.ReadArg? ==> s.ap.fn != 0)
    && (s.ap.ClearFn? || s.ap.ClearArg? || s.ap.CallFn? ==> s.ap.work.fn != 0)
  }

  lemma RealStep(s: State, c: Choice)
    requires Inv(s) && CallsReal(s)
    ensures CallsReal(Next(s, c))
  {
    hide LastLeft;
  }

  lemma {:induction false} NullNeverRuns(s: State, cs: seq<Choice>)
    requires Inv(s) && CallsReal(s)
    ensures CallsReal(Run(s, cs))
    decreases |cs|
  {
    if cs != [] {
      RealStep(s, cs[0]);
      StepKeepsInv(s, cs[0]);
      hide Inv, CallsReal;
      NullNeverRuns(Next(s, cs[0]), cs[1..]);
    }
  }

  function Alone(n: nat): seq<Choice> {
    seq(n, _ => BspMoves)
  }

  lemma AloneStep(s: State, n: nat)
    requires n > 0
    ensures Run(s, Alone(n)) == Run(BspStep(s), Alone(n - 1)) && Run(s, Alone(0)) == s
  {
    assert Alone(n)[0] == BspMoves && Alone(n)[1..] == Alone(n - 1);
  }

  // A call that does not wait needs nobody else to come back: seven steps if it finds the flag up, two
  // if it finds it down, one if the other processor is offline; in the last two nothing has changed.
  lemma NoWaitReturnsAlone(s: State, w: Work)
    requires s.bsp == Idle
    ensures var e := Run(Next(s, Dispatch(w, false)), Alone(if !s.online then 1 else if s.done then 7 else 2));
      if s.online && s.done
      then e == s.(fn := w.fn, arg := w.arg, done := false, dispatched := s.dispatched + [w])
      else e == s
  {
    var t := Next(s, Dispatch(w, false));
    hide Run;
    if !s.online {
      AloneStep(t, 1);
      AloneStep(BspStep(t), 1);
    } else if !s.done {
      AloneStep(t, 2);
      AloneStep(BspStep(t), 1);
      AloneStep(BspStep(BspStep(t)), 1);
    } else {
      var t1 := BspStep(t);
      var t2 := BspStep(t1);
      var t3 := BspStep(t2);
      var t4 := BspStep(t3);
      var t5 := BspStep(t4);
      var t6 := BspStep(t5);
      AloneStep(t, 7);
      AloneStep(t1, 6);
      AloneStep(t2, 5);
      AloneStep(t3, 4);
      AloneStep(t4, 3);
      AloneStep(t5, 2);
      AloneStep(t6, 1);
      AloneStep(BspStep(t6), 1);
    }
  }

  // A waiting call of a function that is not null, somewhere on its way.
  predicate WaitsForReal(b: Bsp) {
    match b
    case Idle => false
    case SpinDone(w) => w.fn != 0
    case _ => b.wait && b.work.fn != 0
  }

  predicate Blocked(s: State) {
    (s.bsp.SpinFree? || s.bsp.SpinDone?) && !s.done
  }

  function Rank(b: Bsp): nat {
    match b
    case Idle => 0
    case Entered(_, _) => 8
    case BusyTest(_, _) => 7
    case SpinFree(_, _) => 6
    case TakeFlag(_, _) => 5
    case PutArg(_, _) => 4
    case PutFn(_, _) => 3
    case SendIpi(_, _) => 2
    case SpinDone(_) => 1
  }

  function Left(s: State): nat {
    20 * Rank(s.bsp) + if Blocked(s) then Distance(s) else 0
  }

  lemma FinishStep(s: State)
    requires Inv(s) && Alive(s) && s.online && WaitsForReal(s.bsp)
    ensures var t := Next(s, if Blocked(s) then ApMoves else BspMoves);
      Inv(t) && Left(t) < Left(s) && (t.bsp == Idle || (Alive(t) && t.online && WaitsForReal(t.bsp)))
  {
    if Blocked(s) {
      AliveStep(s);
      hide Inv, Alive;
    } else {
      BspKeepsInv(s);
      hide LastLeft;
    }
  }

  lemma {:induction false} Finish(s: State) returns (cs: seq<Choice>)
    requires Inv(s) && Alive(s) && s.online && WaitsForReal(s.bsp)
    ensures Run(s, cs).bsp == Idle && OneCall(s, cs)
    decreases Left(s)
  {
    var c := if Blocked(s) then ApMoves else BspMoves;
    FinishStep(s);
    hide Inv, Alive, Left, Blocked, WaitsForReal;
    var rest := [];
    if Next(s, c).bsp != Idle { rest := Finish(Next(s, c)); }
    cs := [c] + rest;
    assert cs[0] == c && cs[1..] == rest;
  }

  // In a state where the flag can come up, a waiting call can come back if and only if its function
  // is not null.
  lemma WaitReturnsIff(before: seq<Choice>, w: Work)
    requires var s := Run(Start(), before); s.bsp == Idle && s.online && Alive(s)
    ensures var t := Next(Run(Start(), before), Dispatch(w, true));
      (exists cs :: OneCall(t, cs) && Run(t, cs).bsp == Idle) <==> w.fn != 0
  {
    var s := Run(Start(), before);
    var t := Next(s, Dispatch(w, true));
    RunKeepsInv(Start(), before);
    StepKeepsInv(s, Dispatch(w, true));
    if w.fn != 0 {
      assert Alive(t) && t.online && WaitsForReal(t.bsp);
      var cs := Finish(t);
      assert OneCall(t, cs) && Run(t, cs).bsp == Idle;
    } else {
      NullNeverRuns(Start(), before);
      assert CallsReal(t);
      forall cs | OneCall(t, cs) ensures Run(t, cs).bsp != Idle { NullNeverReturns(before, w, cs); }
    }
  }

  lemma NullNeverReturns(before: seq<Choice>, w: Work, cs: seq<Choice>)
    requires Run(Start(), before).bsp == Idle && Run(Start(), before).online && w.fn == 0
    requires OneCall(Next(Run(Start(), before), Dispatch(w, true)), cs)
    ensures Run(Next(Run(Start(), before), Dispatch(w, true)), cs).bsp != Idle
  {
    var s := Run(Start(), before);
    var t := Next(s, Dispatch(w, true));
    RunKeepsInv(Start(), before);
    NullNeverRuns(Start(), before);
    StepKeepsInv(s, Dispatch(w, true));
    assert CallsReal(t);
    hide Inv;
    NullNeverRuns(t, cs);
    var e := Run(t, cs);
    NullNotLast(e, s.dispatched, w);
    if e.bsp == Idle { CallReturns(before, w, true, cs); }
  }

  lemma NullNotLast(e: State, done: seq<Work>, w: Work)
    requires CallsReal(e) && w.fn == 0
    ensures e.executed != done + [w]
  {
    var n := |done|;
    if |e.executed| > n { assert e.executed[n].fn != 0; }
  }
}
