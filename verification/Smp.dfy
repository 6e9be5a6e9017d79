/**
 The work hand-off between the boot processor and one application processor (kernel/smp.c), as
 a machine whose steps are single reads and writes of the shared variables, interleaved in any
 order.  The processor may wake from `hlt` at any time, so no step depends on the interrupt.
 */
module Smp {
  // A function pointer, 0 for null, and its argument.
  datatype Work = Work(fn: nat, arg: int)

  // Where the boot processor is in smp_dispatch_ap.
  datatype Bsp =
    | Idle
    | Entered(work: Work, wait: bool)
    | BusyTest(work: Work, wait: bool)
    | SpinFree(work: Work, wait: bool)
    | TakeFlag(work: Work, wait: bool)
    | PutArg(work: Work, wait: bool)
    | PutFn(work: Work, wait: bool)
    | SendIpi(work: Work, wait: bool)
    | SpinDone(work: Work)

  // Where the application processor is in its loop.
  datatype Ap =
    | Booting
    | Halted
    | TestFn
    | ReadFn
    | ReadArg(fn: nat)
    | ClearFn(work: Work)
    | ClearArg(work: Work)
    | CallFn(work: Work)
    | SetDone

  datatype State = State(
    fn: nat, arg: int, done: bool, online: bool,
    bsp: Bsp, ap: Ap,
    dispatched: seq<Work>, executed: seq<Work>)

  function Start(): State {
    State(0, 0, true, false, Idle, Booting, [], [])
  }

  // ---- Steps ----

  // A dispatch counts from the write that publishes its function.
  function BspStep(s: State): State {
    match s.bsp
    case Idle => s
    case Entered(w, wait) => if s.online then s.(bsp := BusyTest(w, wait)) else s.(bsp := Idle)
    case BusyTest(w, wait) => if !wait && !s.done then s.(bsp := Idle) else s.(bsp := SpinFree(w, wait))
    case SpinFree(w, wait) => if s.done then s.(bsp := TakeFlag(w, wait)) else s
    case TakeFlag(w, wait) => s.(done := false, bsp := PutArg(w, wait))
    case PutArg(w, wait) => s.(arg := w.arg, bsp := PutFn(w, wait))
    case PutFn(w, wait) => s.(fn := w.fn, dispatched := s.dispatched + [w], bsp := SendIpi(w, wait))
    case SendIpi(w, wait) => s.(bsp := if wait then SpinDone(w) else Idle)
    case SpinDone(w) => if s.done then s.(bsp := Idle) else s
  }

  function ApStep(s: State): State {
    match s.ap
    case Booting => s.(online := true, ap := Halted)
    case Halted => s.(ap := TestFn)
    case TestFn => s.(ap := if s.fn != 0 then ReadFn else Halted)
    case ReadFn => s.(ap := ReadArg(s.fn))
    case ReadArg(fn) => s.(ap := ClearFn(Work(fn, s.arg)))
    case ClearFn(w) => s.(fn := 0, ap := ClearArg(w))
    case ClearArg(w) => s.(arg := 0, ap := CallFn(w))
    case CallFn(w) => s.(executed := s.executed + [w], ap := SetDone)
    case SetDone => s.(done := true, ap := Halted)
  }

  // One step of either processor, or the boot processor entering smp_dispatch_ap.
  datatype Choice = Dispatch(work: Work, wait: bool) | BspMoves | ApMoves

  function Next(s: State, c: Choice): State {
    match c
    case Dispatch(w, wait) => if s.bsp == Idle then s.(bsp := Entered(w, wait)) else s
    case BspMoves => BspStep(s)
    case ApMoves => ApStep(s)
  }

  function Run(s: State, cs: seq<Choice>): State
    decreases |cs|
  {
    if cs == [] then s else Run(Next(s, cs[0]), cs[1..])
  }

  // ---- The invariant ----

  predicate Waiting(ap: Ap) {
    ap == Booting || ap == Halted || ap == TestFn
  }

  // The boot processor owns the variables: it has taken the flag and not yet published.
  predicate Preparing(b: Bsp) {
    b.PutArg? || b.PutFn?
  }

  // All but the last piece dispatched has run.
  predicate LastLeft(dispatched: seq<Work>, executed: seq<Work>, w: Work) {
    dispatched == executed + [w]
  }

  predicate Inv(s: State) {
    && (s.bsp.PutFn? ==> s.arg == s.bsp.work.arg)
    // The flag is up only when nothing is pending.
    && (s.done ==> s.fn == 0 && Waiting(s.ap) && s.executed == s.dispatched && !Preparing(s.bsp))
    && (s.bsp.TakeFlag? ==> s.done)
    && (Preparing(s.bsp) ==> !s.done && s.fn == 0 && Waiting(s.ap) && s.executed == s.dispatched)
    // Published work is held by the shared variables, and then by the application processor.
    && (!s.done && !Preparing(s.bsp) && Waiting(s.ap) ==> LastLeft(s.dispatched, s.executed, Work(s.fn, s.arg)))
    && (s.ap == ReadFn ==> s.fn != 0 && LastLeft(s.dispatched, s.executed, Work(s.fn, s.arg)))
    && (s.ap.ReadArg? ==> LastLeft(s.dispatched, s.executed, Work(s.ap.fn, s.arg)))
    && (s.ap.ClearFn? || s.ap.ClearArg? || s.ap.CallFn? ==> LastLeft(s.dispatched, s.executed, s.ap.work))
    && (s.ap.ClearArg? || s.ap.CallFn? || s.ap == SetDone ==> s.fn == 0)
    && (s.ap == SetDone ==> s.dispatched == s.executed)
    // A waiting dispatch waits for the last work published.
    && (s.bsp.SpinDone? || s.bsp.SendIpi? ==> s.dispatched != [] && s.dispatched[|s.dispatched| - 1] == s.bsp.work)
  }

  lemma BspKeepsInv(s: State)
    requires Inv(s)
    ensures Inv(BspStep(s))
  {
  }

  lemma ApKeepsInv(s: State)
    requires Inv(s)
    ensures Inv(ApStep(s))
  {
    if !s.ap.CallFn? { hide LastLeft; }
  }

  lemma StepKeepsInv(s: State, c: Choice)
    requires Inv(s)
    ensures Inv(Next(s, c))
  {
    match c {
      case Dispatch(w, wait) =>
      case BspMoves =>
        BspKeepsInv(s);
        hide Inv;
      case ApMoves =>
        ApKeepsInv(s);
        hide Inv;
    }
  }

  lemma {:induction false} RunKeepsInv(s: State, cs: seq<Choice>)
    requires Inv(s)
    ensures Inv(Run(s, cs))
    decreases |cs|
  {
    if cs != [] {
      StepKeepsInv(s, cs[0]);
      hide Inv;
      RunKeepsInv(Next(s, cs[0]), cs[1..]);
    }
  }

  // ---- What every interleaving guarantees ----

  // What has run is what was dispatched, in order and with its own arguments, but for at most the
  // last piece.
  predicate InStep(s: State) {
    && |s.dispatched| - 1 <= |s.executed| <= |s.dispatched|
    && s.executed == s.dispatched[..|s.executed|]
  }

  lemma InvInStep(s: State)
    requires Inv(s)
    ensures InStep(s)
  {
  }

  lemma NothingLostOrRepeated(cs: seq<Choice>)
    ensures InStep(Run(Start(), cs))
  {
    RunKeepsInv(Start(), cs);
    InvInStep(Run(Start(), cs));
  }

  // A step that ends a waiting dispatch comes after its work has run.
  lemma WaitMeansRun(cs: seq<Choice>, c: Choice)
    ensures var s := Run(Start(), cs);
      s.bsp.SpinDone? && Next(s, c).bsp == Idle ==>
        s.executed == s.dispatched && s.executed != [] && s.executed[|s.executed| - 1] == s.bsp.work
  {
    RunKeepsInv(Start(), cs);
  }

  // New work is published only when all earlier work has run: nothing is overwritten.
  lemma NothingOverwritten(cs: seq<Choice>, c: Choice)
    ensures var s := Run(Start(), cs);
      |Next(s, c).dispatched| > |s.dispatched| ==> s.executed == s.dispatched && s.fn == 0
  {
    RunKeepsInv(Start(), cs);
  }

  // ---- When the flag comes up again ----

  // Somebody will raise the flag: it is up, or the work in hand or in the shared variables is not
  // null, or the application processor already has it.
  predicate Alive(s: State) {
    s.done || if Preparing(s.bsp) then s.bsp.work.fn != 0 else s.fn != 0 || !Waiting(s.ap)
  }

  // How many steps that takes at most.
  function Distance(s: State): nat {
    if s.done then 0
    else if s.bsp.PutArg? then 12
    else if s.bsp.PutFn? then 11
    else match s.ap
      case Booting => 9
      case Halted => 8
      case TestFn => 7
      case ReadFn => 6
      case ReadArg(_) => 5
      case ClearFn(_) => 4
      case ClearArg(_) => 3
      case CallFn(_) => 2
      case SetDone => 1
  }

  lemma AliveStep(s: State)
    requires Inv(s) && Alive(s) && !s.done
    ensures var s' := Next(s, if Preparing(s.bsp) then BspMoves else ApMoves); Inv(s') && Alive(s') && Distance(s') < Distance(s)
  {
  }

  lemma {:induction false} Raise(s: State) returns (cs: seq<Choice>)
    requires Inv(s) && Alive(s)
    ensures Run(s, cs).done && |cs| <= Distance(s)
    decreases Distance(s)
  {
    cs := [];
    if !s.done {
      var c := if Preparing(s.bsp) then BspMoves else ApMoves;
      AliveStep(s);
      hide Inv, Alive, Distance;
      var rest := Raise(Next(s, c));
      cs := [c] + rest;
      assert cs[0] == c && cs[1..] == rest;
    }
  }

  lemma NullStep(s: State, c: Choice)
    requires Inv(s) && !Alive(s)
    ensures Inv(Next(s, c)) && !Alive(Next(s, c)) && Next(s, c).executed == s.executed
  {
    StepKeepsInv(s, c);
  }

  // Once a null function is on its way the flag stays down and nothing more runs.
  lemma {:induction false} NullHangs(s: State, cs: seq<Choice>)
    requires Inv(s) && !Alive(s)
    ensures !Run(s, cs).done && Run(s, cs).executed == s.executed
    decreases |cs|
  {
    if cs != [] {
      NullStep(s, cs[0]);
      hide Inv, Alive;
      NullHangs(Next(s, cs[0]), cs[1..]);
    }
  }

  // In every reachable state the flag can come up again exactly when the state is alive.
  lemma FlagReturnsIff(cs: seq<Choice>)
    ensures var s := Run(Start(), cs); (exists more :: Run(s, more).done) <==> Alive(s)
  {
    var s := Run(Start(), cs);
    RunKeepsInv(Start(), cs);
    hide Inv;
    if Alive(s) {
      var more := Raise(s);
      assert Run(s, more).done;
    } else {
      forall more ensures !Run(s, more).done { NullHangs(s, more); }
    }
  }

  // After any write that publishes, that is, exactly when the published function is not null.
  lemma PublishedReturnsIff(cs: seq<Choice>)
    requires Run(Start(), cs).bsp.PutFn?
    ensures var s := Run(Start(), cs); (exists more :: Run(BspStep(s), more).done) <==> s.bsp.work.fn != 0
  {
    var s := Run(Start(), cs);
    RunKeepsInv(Start(), cs);
    RunThen(Start(), cs, BspMoves);
    FlagReturnsIff(cs + [BspMoves]);
  }

  lemma {:induction false} RunThen(s: State, cs: seq<Choice>, c: Choice)
    ensures Run(s, cs + [c]) == Next(Run(s, cs), c)
    decreases |cs|
  {
    if cs == [] {
      assert cs + [c] == [c] && [c][1..] == [];
    } else {
      assert (cs + [c])[0] == cs[0] && (cs + [c])[1..] == cs[1..] + [c];
      RunThen(Next(s, cs[0]), cs[1..], c);
    }
  }

  function DispatchRun(w: Work, wait: bool): seq<Choice> {
    [ApMoves, Dispatch(w, wait), BspMoves, BspMoves, BspMoves, BspMoves, BspMoves, BspMoves]
  }

  // Any work can be published first, a null function too.
  lemma FirstDispatch(w: Work, wait: bool)
    ensures Run(Start(), DispatchRun(w, wait)) == State(w.fn, w.arg, false, true, SendIpi(w, wait), Halted, [w], [])
  {
    hide Run;
    var cs := DispatchRun(w, wait);
    EntersBusyTest(w, wait);
    RunPrefix(cs, 4);
    RunPrefix(cs, 5);
    RunPrefix(cs, 6);
    RunPrefix(cs, 7);
    assert cs[..8] == cs;
  }

  lemma EntersBusyTest(w: Work, wait: bool)
    ensures Run(Start(), DispatchRun(w, wait)[..4]) == Next(Next(Next(Next(Start(), ApMoves), Dispatch(w, wait)), BspMoves), BspMoves)
  {
    hide Run, Next;
    var cs := DispatchRun(w, wait);
    RunPrefix(cs, 0);
    RunPrefix(cs, 1);
    RunPrefix(cs, 2);
    RunPrefix(cs, 3);
    assert cs[..0] == [];
  }

  lemma RunPrefix(cs: seq<Choice>, i: nat)
    requires i < |cs|
    ensures Run(Start(), cs[..i + 1]) == Next(Run(Start(), cs[..i]), cs[i]) && Run(Start(), []) == Start()
  {
    assert cs[..i + 1] == cs[..i] + [cs[i]];
    RunThen(Start(), cs[..i], cs[i]);
  }

  // So the flag can stay down for good.
  lemma NullDispatchSticks(arg: int, wait: bool)
    ensures var s := Run(Start(), DispatchRun(Work(0, arg), wait)); !(exists more :: Run(s, more).done)
  {
    FirstDispatch(Work(0, arg), wait);
    FlagReturnsIff(DispatchRun(Work(0, arg), wait));
  }
}
