/** When a request's deferred task can be queued while SerialClose disposes of the record that holds it. */
module SerialClose {
  import opened Serial
  import opened SerialProof
  import opened SerialProgress

  /** close() has returned, the record is being disposed of, and the handler has just queued request n. */
  ghost predicate QueuedInTrap(t: State, c: Chan, n: nat)
    requires Shape(t)
  {
    t.ports[PortOf(c)].window == CloseTrap && JustQueued(t, c, n)
  }

  /** A call of SerialClose finds p open. */
  ghost predicate CanClose(s: State, p: Port)
    requires Shape(s)
  {
    s.main == Running && s.ports[p].isOpen && s.ports[p].window == NoWindow
  }

  // ---- Nothing is queued without a pending request ----

  /** SerialClose is in progress on the port of c, which has no request. */
  ghost predicate Requestless(s: State, c: Chan) {
    var p := PortOf(c);
    && Inv(s) && s.chans[c].stage == Free
    && ((s.main == Stopping(p) && s.ports[p].isOpen && s.ports[p].window == NoWindow) || s.ports[p].window == CloseTrap)
  }

  ghost predicate IdleView(main: Main, port: PortState, stage: Stage, p: Port) {
    stage == Free && ((main == Stopping(p) && port.isOpen && port.window == NoWindow) || port.window == CloseTrap)
  }

  lemma IdleByHandler(s: State, c: Chan)
    requires PortKept(s, 0) && PortKept(s, 1) && ChanKept(s, c) && IdleView(s.main, s.ports[PortOf(c)], s.chans[c].stage, PortOf(c))
    requires s.main.Handling?
    ensures var t := HandlerStep(s, s.main.c, s.main.at); IdleView(t.main, t.ports[PortOf(c)], t.chans[c].stage, PortOf(c))
  {
    hide LogOk, Answered, GoodLog, HolderOk, FlagsOk;
  }

  lemma IdleByPrime(s: State, c: Chan)
    requires PortKept(s, 0) && PortKept(s, 1) && ChanKept(s, c) && IdleView(s.main, s.ports[PortOf(c)], s.chans[c].stage, PortOf(c))
    requires s.main.Priming?
    ensures var t := PrimeStep(s, s.main.c, s.main.k); IdleView(t.main, t.ports[PortOf(c)], t.chans[c].stage, PortOf(c))
  {
    hide LogOk, Answered, GoodLog, HolderOk, FlagsOk;
  }

  lemma IdleByOpen(s: State, ok: bool, c: Chan)
    requires PortKept(s, 0) && PortKept(s, 1) && ChanKept(s, c) && IdleView(s.main, s.ports[PortOf(c)], s.chans[c].stage, PortOf(c))
    requires s.main.Opening?
    ensures var t := OpenStep(s, s.main.p, s.main.k, ok); IdleView(t.main, t.ports[PortOf(c)], t.chans[c].stage, PortOf(c))
  {
    hide LogOk, Answered, GoodLog, HolderOk, FlagsOk;
  }

  lemma IdleByEmulator(s: State, ok: bool, c: Chan)
    requires PortKept(s, 0) && PortKept(s, 1) && ChanKept(s, c) && IdleView(s.main, s.ports[PortOf(c)], s.chans[c].stage, PortOf(c))
    ensures var t := EmulatorStep(s, ok); IdleView(t.main, t.ports[PortOf(c)], t.chans[c].stage, PortOf(c))
  {
    hide LogOk, Answered, GoodLog, HolderOk, FlagsOk, HandlerStep, PrimeStep, OpenStep;
    match s.main
    case Handling(_, _) => IdleByHandler(s, c);
    case Priming(_, _) => IdleByPrime(s, c);
    case Opening(_, _) => IdleByOpen(s, ok, c);
    case _ =>
  }

  lemma IdleByServe(s: State, p: Port, c: Chan)
    requires PortKept(s, 0) && PortKept(s, 1) && ChanKept(s, c) && IdleView(s.main, s.ports[PortOf(c)], s.chans[c].stage, PortOf(c))
    requires s.ports[p].mail != NoMail && s.ports[p].task.Serve?
    ensures var t := ServeStep(s, p, s.ports[p].mail.m, s.ports[p].task.k); IdleView(t.main, t.ports[PortOf(c)], t.chans[c].stage, PortOf(c))
  {
    hide LogOk, Answered, GoodLog, HolderOk, FlagsOk;
  }

  lemma IdleByFinish(s: State, p: Port, c: Chan)
    requires PortKept(s, 0) && PortKept(s, 1) && ChanKept(s, c) && IdleView(s.main, s.ports[PortOf(c)], s.chans[c].stage, PortOf(c))
    requires s.ports[p].task.Finish?
    ensures var k := s.ports[p].task;
      var t := FinishStep(s, p, k.c, k.n, k.out, k.k);
      IdleView(t.main, t.ports[PortOf(c)], t.chans[c].stage, PortOf(c))
  {
    hide LogOk, Answered, GoodLog, HolderOk, FlagsOk, ConvError;
  }

  lemma IdleByTask(s: State, p: Port, c: Chan)
    requires PortKept(s, 0) && PortKept(s, 1) && ChanKept(s, c) && IdleView(s.main, s.ports[PortOf(c)], s.chans[c].stage, PortOf(c))
    ensures var t := SerialTaskStep(s, p); IdleView(t.main, t.ports[PortOf(c)], t.chans[c].stage, PortOf(c))
  {
    hide LogOk, Answered, GoodLog, HolderOk, FlagsOk, ServeStep, FinishStep, StageOk, SignalOk, PortOk;
    if s.ports[p].task.Serve? && s.ports[p].mail != NoMail {
      IdleByServe(s, p, c);
    } else if s.ports[p].task.Finish? {
      IdleByFinish(s, p, c);
    }
  }

  lemma IdleByOther(s: State, a: Action, c: Chan)
    requires PortKept(s, 0) && PortKept(s, 1) && ChanKept(s, c) && IdleView(s.main, s.ports[PortOf(c)], s.chans[c].stage, PortOf(c))
    requires !a.MainStep? && !a.TaskStep? && !(a.TrapReturns? && a.p == PortOf(c))
    ensures var t := Next(s, a); IdleView(t.main, t.ports[PortOf(c)], t.chans[c].stage, PortOf(c))
  {
    hide LogOk, Answered, GoodLog, HolderOk, FlagsOk, EmulatorStep, SerialTaskStep, CallStep, TrapStep;
    match a
    case TrapReturns(p, ok) => IdleByTrap(s, p, ok, c);
    case TaskTakes(_) =>
    case TaskGets(_) =>
    case TaskQuits(_) =>
    case DeviceReplies(_, _) =>
    case _ => IdleByCall(s, a, c);
  }

  lemma IdleByTrap(s: State, p: Port, ok: bool, c: Chan)
    requires PortKept(s, 0) && PortKept(s, 1) && IdleView(s.main, s.ports[PortOf(c)], s.chans[c].stage, PortOf(c))
    requires p != PortOf(c)
    ensures var t := TrapStep(s, p, ok); IdleView(t.main, t.ports[PortOf(c)], t.chans[c].stage, PortOf(c))
  {
    hide Forget;
  }

  lemma IdleByCall(s: State, a: Action, c: Chan)
    requires PortKept(s, 0) && PortKept(s, 1) && IdleView(s.main, s.ports[PortOf(c)], s.chans[c].stage, PortOf(c))
    requires a.CallPrime? || a.CallKill? || a.CallOpen? || a.CallClose? || a.CallMask? || a.Interrupt?
    ensures var t := CallStep(s, a); IdleView(t.main, t.ports[PortOf(c)], t.chans[c].stage, PortOf(c))
  {
  }

  lemma IdleStays(s: State, a: Action, c: Chan)
    requires Requestless(s, c) && !(a.TrapReturns? && a.p == PortOf(c))
    ensures Requestless(Next(s, a), c)
  {
    hide EmulatorStep, TrapStep, TakeStep, SerialTaskStep, GetStep, QuitStep, DeviceStep, CallStep;
    StepKeeps(s, a);
    assert PortKept(s, 0) && PortKept(s, 1) && ChanKept(s, c);
    match a
    case MainStep(ok) => IdleByEmulator(s, ok, c);
    case TaskStep(p) => IdleByTask(s, p, c);
    case _ => IdleByOther(s, a, c);
  }

  lemma {:induction false} IdleRuns(s: State, actions: seq<Action>, c: Chan)
    requires Requestless(s, c) && NotBack(actions, PortOf(c))
    ensures Requestless(Run(s, actions), c)
    decreases |actions|
  {
    hide Requestless, Next;
    assert Shape(s) by { IdleShape(s, c); }
    if actions != [] {
      var n := |actions| - 1;
      IdleRuns(s, actions[..n], c);
      IdleStays(Run(s, actions[..n]), actions[n], c);
    }
  }

  lemma IdleShape(s: State, c: Chan)
    requires Requestless(s, c)
    ensures Shape(s)
  {
  }

  lemma IdleNotQueued(t: State, c: Chan, n: nat)
    requires Requestless(t, c)
    ensures Shape(t) && !QueuedInTrap(t, c, n)
  {
    hide LogOk, Answered;
    assert ChanKept(t, c);
  }

  // ---- A pending request can be queued ----

  /** In an open port no call of which is in progress, a pending request can be pursued. */
  lemma PendingIsAlive(s: State, c: Chan)
    requires PortKept(s, 0) && PortKept(s, 1) && ChanKept(s, c) && CanClose(s, PortOf(c))
    ensures var t := Next(s, CallClose(PortOf(c)));
      && (s.chans[c].pending ==> Alive(t, c, s.chans[c].n) && Closing(t, PortOf(c)))
      && (!s.chans[c].pending ==> IdleView(t.main, t.ports[PortOf(c)], t.chans[c].stage, PortOf(c)))
  {
    hide LogOk, Answered;
  }

  /** When SerialClose is called in any state the driver can reach, the deferred task of a channel can be
      queued while the record that holds it is being disposed of exactly when a request is pending on the
      channel at the call; it is that request's. */
  lemma QueuedDuringCloseExactly(parallel: bool -> bool, before: seq<Action>, c: Chan)
    requires CanClose(Run(Initial(parallel), before), PortOf(c))
    ensures var s := Run(Initial(parallel), before);
      var t := Next(s, CallClose(PortOf(c)));
      s.chans[c].pending <==> exists u :: Shape(u) && Leads(t, u, PortOf(c)) && QueuedInTrap(u, c, s.chans[c].n)
  {
    hide Next, Run, Initial, Leads, PortOk, ChanOk, QueuedInTrap, Requestless, Alive, Closing, JustQueued, IdleView;
    var s := Run(Initial(parallel), before);
    Reachable(parallel, before);
    assert PortKept(s, 0) && PortKept(s, 1) && ChanKept(s, c);
    var t := Next(s, CallClose(PortOf(c)));
    StepKeeps(s, CallClose(PortOf(c)));
    PendingIsAlive(s, c);
    LeadsNowhere(t, PortOf(c));
    if s.chans[c].pending {
      var u := Arrives(t, t, c, s.chans[c].n);
      assert QueuedInTrap(u, c, s.chans[c].n) by { QueuedThen(u, c, s.chans[c].n); }
    } else {
      IdleStarts(t, c);
      NeverQueued(t, c, s.chans[c].n);
    }
  }

  lemma QueuedThen(u: State, c: Chan, n: nat)
    requires Shape(u) && JustQueued(u, c, n) && Closing(u, PortOf(c))
    ensures QueuedInTrap(u, c, n)
  {
  }

  lemma IdleStarts(t: State, c: Chan)
    requires Inv(t) && IdleView(t.main, t.ports[PortOf(c)], t.chans[c].stage, PortOf(c))
    ensures Requestless(t, c)
  {
    hide Inv;
  }

  lemma NeverQueued(t: State, c: Chan, n: nat)
    requires Shape(t) && Requestless(t, c)
    ensures forall u :: Shape(u) && Leads(t, u, PortOf(c)) ==> !QueuedInTrap(u, c, n)
  {
    hide Requestless, QueuedInTrap, Run;
    forall u | Shape(u) && Leads(t, u, PortOf(c))
      ensures !QueuedInTrap(u, c, n)
    {
      var actions :| NotBack(actions, PortOf(c)) && Run(t, actions) == u;
      IdleRuns(t, actions, c);
      IdleNotQueued(u, c, n);
    }
  }

  // ---- Such a state exists ----

  /** A run in which a request is pending when SerialClose is called, and is queued during DisposePtr. */
  lemma QueuedWhileDisposed(parallel: bool -> bool)
    ensures exists before, u :: var s := Run(Initial(parallel), before);
      && CanClose(s, 0) && s.chans[0].pending && Shape(u)
      && Leads(Next(s, CallClose(0)), u, 0) && QueuedInTrap(u, 0, s.chans[0].n)
  {
    hide Inv, QueuedInTrap, Run, Initial;
    var i := Initial(parallel);
    var r := OpensPort(parallel);
    var t := SendsPrime(i, r);
    t := SendsRequest(i, t);
    var before :| NotBack(before, 1) && Run(i, before) == t;
    QueuedDuringCloseExactly(parallel, before, 0);
    var u :| Shape(u) && Leads(Next(t, CallClose(0)), u, 0) && QueuedInTrap(u, 0, t.chans[0].n);
  }
}
