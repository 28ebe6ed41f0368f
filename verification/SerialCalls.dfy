/** What the calls of the serial driver do when nothing comes in between, and which settings a result is made with. */
module SerialCalls {
  import opened Serial
  import opened SerialProof

  // ---- Results ----

  /** The stores of count and result, with the settings of the port at that moment. */
  lemma StoresAnswer(s: State, p: Port)
    requires Inv(s) && s.ports[p].task.Finish?
    ensures var k := s.ports[p].task;
      var c, port, t := k.c, s.ports[p], Next(s, TaskStep(p));
      && (k.k == 0 ==> t.chans[c].log == s.chans[c].log + [CountWritten(k.n, k.out.actual)] && t.chans[c].result == s.chans[c].result)
      && (k.k == 1 ==>
            && Reports(k.out.error, port.parallel, port.mask, t.chans[c].result)
            && t.chans[c].log == s.chans[c].log + [ResultWritten(k.n, t.chans[c].result, port.parallel, port.mask)])
      && (k.k == 2 ==> t.chans[c].done && t.chans[c].log == s.chans[c].log && t.chans[c].result == s.chans[c].result)
      && (k.k == 3 ==> t.flag)
  {
    hide ChanOk, PortOk, ConvError, Reports;
    var k, port := s.ports[p].task, s.ports[p];
    ResultReports(k.out.error, port.parallel, port.mask);
    assert PortKept(s, p);
    FinishCounts(s.main, port, p);
  }

  lemma FinishCounts(main: Main, port: PortState, p: Port)
    requires PortOk(main, port, p) && port.task.Finish?
    ensures port.task.k <= 3
  {
  }

  /** The mask changes by SERSetErr's call, and to nothing when the port is opened; the kind of the port never. */
  lemma SettingsChange(s: State, a: Action, p: Port)
    requires Shape(s)
    ensures var was, port := s.ports[p], Next(s, a).ports[p];
      && port.parallel == was.parallel
      && port.mask ==
           if a.CallMask? && a.p == p && s.main == Running then a.mask
           else if a.MainStep? && s.main.Opening? && s.main.p == p && s.main.k >= 4 then Mask(false, false, false, false)
           else was.mask
  {
    hide EmulatorStep, TrapStep, SerialTaskStep, CallStep;
    match a
    case MainStep(ok) => EmulatorSettings(s, ok, p);
    case TrapReturns(q, ok) => TrapSettings(s, q, ok, p);
    case TaskStep(q) => TaskSettings(s, q, p);
    case TaskTakes(_) =>
    case TaskGets(_) =>
    case TaskQuits(_) =>
    case DeviceReplies(_, _) =>
    case _ => CallSettings(s, a, p);
  }

  /** In every run each port keeps the kind it was made with. */
  lemma {:induction false} PortKinds(parallel: bool -> bool, actions: seq<Action>, p: Port)
    ensures Run(Initial(parallel), actions).ports[p].parallel == parallel(p == 1)
    decreases |actions|
  {
    hide Next;
    if actions != [] {
      var n := |actions| - 1;
      PortKinds(parallel, actions[..n], p);
      SettingsChange(Run(Initial(parallel), actions[..n]), actions[n], p);
    }
  }

  lemma EmulatorSettings(s: State, ok: bool, p: Port)
    requires Shape(s)
    ensures var was, port := s.ports[p], EmulatorStep(s, ok).ports[p];
      && port.parallel == was.parallel
      && port.mask ==
           if s.main.Opening? && s.main.p == p && s.main.k >= 4 then Mask(false, false, false, false) else was.mask
  {
    hide HandlerStep, PrimeStep, OpenStep;
    match s.main
    case Handling(c, at) => HandlerSettings(s, c, at);
    case Priming(c, k) => PrimeSettings(s, c, k, p);
    case Opening(q, k) => OpenSettings(s, q, k, ok, p);
    case _ =>
  }

  lemma HandlerSettings(s: State, c: Chan, at: Test)
    requires Shape(s)
    ensures HandlerStep(s, c, at).ports == s.ports
  {
  }

  lemma PrimeSettings(s: State, c: Chan, k: nat, p: Port)
    requires Shape(s)
    ensures var was, port := s.ports[p], PrimeStep(s, c, k).ports[p]; port.parallel == was.parallel && port.mask == was.mask
  {
    hide PrimeEffect;
  }

  lemma OpenSettings(s: State, q: Port, k: nat, ok: bool, p: Port)
    requires Shape(s)
    ensures var was, port := s.ports[p], OpenStep(s, q, k, ok).ports[p];
      && port.parallel == was.parallel
      && port.mask == if q == p && k >= 4 then Mask(false, false, false, false) else was.mask
  {
    hide OpenEffect;
  }

  lemma TrapSettings(s: State, q: Port, ok: bool, p: Port)
    requires Shape(s)
    ensures var was, port := s.ports[p], TrapStep(s, q, ok).ports[p]; port.parallel == was.parallel && port.mask == was.mask
  {
    hide Forget;
  }

  lemma TaskSettings(s: State, q: Port, p: Port)
    requires Shape(s)
    ensures var was, port := s.ports[p], SerialTaskStep(s, q).ports[p]; port.parallel == was.parallel && port.mask == was.mask
  {
    hide KillEffect, KillTarget, FinishEffect;
  }

  lemma CallSettings(s: State, a: Action, p: Port)
    requires Shape(s) && (a.CallPrime? || a.CallKill? || a.CallOpen? || a.CallClose? || a.CallMask? || a.Interrupt?)
    ensures var was, port := s.ports[p], CallStep(s, a).ports[p];
      && port.parallel == was.parallel
      && port.mask == if a.CallMask? && a.p == p && s.main == Running then a.mask else was.mask
  {
  }

  // ---- Calls ----

  function Steps(s: State, k: nat): (t: State)
    requires Shape(s)
    ensures Shape(t)
    decreases k
  {
    if k == 0 then s else Steps(Next(s, MainStep(true)), k - 1)
  }

  /** Prime: a call on an open port whose channel has no request is accepted as the next request, whose
      number goes to the control entry and to the serial task; any other call does nothing. */
  lemma PrimeIsAccepted(s: State, c: Chan)
    requires Inv(s) && s.main == Running
    ensures var t, port, ch := Steps(Next(s, CallPrime(c)), 4), s.ports[PortOf(c)], s.chans[c];
      if port.isOpen && port.window == NoWindow && !ch.pending then
        && t.main == Waiting(PortOf(c)) && t.flag == s.flag
        && t.ports == s.ports[PortOf(c) := port.(mail := Mail(Prime(c, ch.n + 1)))]
        && t.chans[c].pending && !t.chans[c].done && t.chans[c].dce == ch.n + 1 && t.chans[c].n == ch.n + 1
        && t.chans[c].log == ch.log + [Accepted(ch.n + 1)]
        && forall d: Chan :: d != c ==> t.chans[d] == s.chans[d]
      else t == s
  {
    hide ChanOk, PortOk;
    var s0 := Next(s, CallPrime(c));
    if s0.main == Running {
      StepsIdle(s, 4);
    } else {
      StepsFour(s0);
    }
  }

  lemma StepsFour(s: State)
    requires Shape(s)
    ensures Steps(s, 4) == Next(Next(Next(Next(s, MainStep(true)), MainStep(true)), MainStep(true)), MainStep(true))
  {
    hide Next;
    assert Steps(s, 4) == Steps(Next(s, MainStep(true)), 3);
  }

  lemma {:induction false} StepsIdle(s: State, k: nat)
    requires Shape(s) && s.main == Running
    ensures Steps(s, k) == s
    decreases k
  {
    if k > 0 {
      assert Next(s, MainStep(true)) == s;
      StepsIdle(s, k - 1);
    }
  }

  /** Open: a call on a closed port clears all four flags, starts the serial task and goes to the trap; the
      port is open when the trap has made the records. A call on an open port does nothing. */
  lemma OpenOpens(s: State, p: Port)
    requires Inv(s) && s.main == Running
    ensures var t, port := Steps(Next(s, CallOpen(p)), 5), s.ports[p];
      if !port.isOpen && port.window == NoWindow then
        var i, o, u := t.chans[Input(p)], t.chans[Output(p)], Next(t, TrapReturns(p, true));
        && t.main == Running && !i.pending && !i.done && !o.pending && !o.done
        && t.ports[p] == port.(task := Loop, window := OpenTrap, mask := Mask(false, false, false, false))
        && u.ports[p] == t.ports[p].(isOpen := true, window := NoWindow)
      else t == s
  {
    hide ChanOk, PortOk;
    var s0 := Next(s, CallOpen(p));
    if s0.main == Running {
      StepsIdle(s, 5);
    } else {
      var s1 := Next(s0, MainStep(true));
      StepsFour(s1);
      assert Steps(s0, 5) == Steps(s1, 4);
    }
  }

  /** Close ends when its trap comes back: the port is closed, and requests still pending are discarded. */
  lemma CloseForgets(s: State, p: Port, ok: bool)
    requires Inv(s) && s.main == Running && s.ports[p].window == CloseTrap
    ensures var t := Next(s, TrapReturns(p, ok));
      && t.ports[p] == s.ports[p].(isOpen := false, window := NoWindow)
      && forall c: Chan :: PortOf(c) == p && s.chans[c].pending ==> t.chans[c].log == s.chans[c].log + [Discarded(s.chans[c].n)]
  {
    hide ChanOk, PortOk;
    forall c: Chan | PortOf(c) == p && s.chans[c].pending
      ensures Live(s.chans[c].stage)
    {
      assert PortKept(s, p) && ChanKept(s, c);
      PendingIsLive(s.main, s.ports[p], s.flag, s.chans[c], c);
    }
  }

  lemma PendingIsLive(main: Main, port: PortState, flag: bool, ch: ChanState, c: Chan)
    requires PortOk(main, port, PortOf(c)) && ChanOk(main, port, flag, ch, c) && port.window == CloseTrap && ch.pending
    ensures Live(ch.stage)
  {
    hide LogOk, Answered, GoodLog;
  }

  /** The device answers the request it has, with any outcome. */
  lemma DeviceAnswers(s: State, c: Chan, out: Outcome)
    requires Shape(s) && s.chans[c].io.InFlight?
    ensures var n, ch := s.chans[c].io.n, s.chans[c];
      Next(s, DeviceReplies(c, out)) == SetChan(s, c, ch.(io := Reply(n, out), log := ch.log + [Replied(n, out)]))
  {
  }

  // ---- KillIO ----

  function TaskSteps(s: State, p: Port, k: nat): (t: State)
    requires Shape(s)
    ensures Shape(t)
    decreases k
  {
    if k == 0 then s else TaskSteps(Next(s, TaskStep(p)), p, k - 1)
  }

  /** A channel with its request cancelled. */
  function Cancelled(ch: ChanState): ChanState {
    ch.(pending := false, done := false, io := Idle, stage := Free, log := if ch.pending then ch.log + [Discarded(ch.n)] else ch.log)
  }

  /** The task is about to make store k of KillIO; the channels hold i and o. */
  ghost predicate AtStore(s: State, p: Port, k: nat, i: ChanState, o: ChanState) {
    && Shape(s) && s.main == Waiting(p) && s.ports[p].mail == Mail(KillIO) && s.ports[p].task == Serve(k)
    && s.chans[Input(p)] == i && s.chans[Output(p)] == o
  }

  lemma StoreOfKill(s: State, p: Port, k: nat, i: ChanState, o: ChanState)
    requires AtStore(s, p, k, i, o) && k < 6
    ensures var t := Next(s, TaskStep(p));
      && AtStore(t, p, k + 1, if KillTarget(p, k) == Input(p) then KillEffect(i, k) else i, if KillTarget(p, k) == Input(p) then o else KillEffect(o, k))
      && t.flag == s.flag && t.ports == s.ports[p := s.ports[p].(task := Serve(k + 1))]
      && forall d: Chan :: PortOf(d) != p ==> t.chans[d] == s.chans[d]
  {
    hide KillEffect;
  }

  /** Flag and stage of a channel of an open port agree. */
  predicate Agreeing(ch: ChanState) {
    ch.pending == Live(ch.stage) && (ch.stage == WithDevice <==> ch.io != Idle) && ch.stage != Stale
  }

  lemma CancelledBy(ch: ChanState)
    requires Agreeing(ch)
    ensures KillEffect(KillEffect(KillEffect(ch, 0), 2), 4) == Cancelled(ch)
  {
  }

  lemma KillTargets(p: Port)
    ensures KillTarget(p, 0) == KillTarget(p, 3) == KillTarget(p, 5) == Input(p)
    ensures KillTarget(p, 1) == KillTarget(p, 2) == KillTarget(p, 4) == Output(p) != Input(p)
  {
  }

  lemma EffectsPair(ch: ChanState)
    ensures KillEffect(ch, 0) == KillEffect(ch, 1) && KillEffect(ch, 2) == KillEffect(ch, 3) && KillEffect(ch, 4) == KillEffect(ch, 5)
  {
  }

  /** KillIO on an open port whose task is waiting: the requests of both channels leave the device, both flags
      of both are cleared, and a pending request is discarded; the other port is untouched. */
  lemma KillCancels(s: State, p: Port)
    requires Inv(s) && s.main == Running && s.ports[p].isOpen && s.ports[p].window == NoWindow && s.ports[p].task == Loop
    ensures var t := Next(TaskSteps(Next(Next(s, CallKill(p)), TaskTakes(p)), p, 7), MainStep(true));
      && t.main == Running && t.ports == s.ports && t.flag == s.flag
      && t.chans[Input(p)] == Cancelled(s.chans[Input(p)]) && t.chans[Output(p)] == Cancelled(s.chans[Output(p)])
      && forall d: Chan :: PortOf(d) != p ==> t.chans[d] == s.chans[d]
  {
    hide ChanOk, PortOk, Next, Cancelled, KillEffect, AtStore, ThreeSteps, TaskSteps, Agreeing;
    var i, o := s.chans[Input(p)], s.chans[Output(p)];
    IdlePort(s, p);
    var u := Next(Next(s, CallKill(p)), TaskTakes(p));
    var u3 := ThreeSteps(u, p);
    KillFirst(u, p, i, o);
    KillLast(u3, p, KillEffect(i, 0), KillEffect(KillEffect(o, 0), 2));
    var u6 := ThreeSteps(u3, p);
    EffectsPair(i);
    CancelledBy(i);
    CancelledBy(o);
    AllStored(u6, p, Cancelled(i), Cancelled(o));
    KillReturns(u6, p);
    SevenSteps(u, p);
    assert s.ports[p].(task := Loop, mail := NoMail) == s.ports[p];
  }

  function ThreeSteps(s: State, p: Port): (t: State)
    requires Shape(s)
    ensures Shape(t)
  {
    Next(Next(Next(s, TaskStep(p)), TaskStep(p)), TaskStep(p))
  }

  lemma SevenSteps(s: State, p: Port)
    requires Shape(s)
    ensures TaskSteps(s, p, 7) == Next(ThreeSteps(ThreeSteps(s, p), p), TaskStep(p))
  {
    hide Next;
    var u := ThreeSteps(s, p);
    assert TaskSteps(s, p, 7) == TaskSteps(u, p, 4);
    assert TaskSteps(u, p, 4) == TaskSteps(ThreeSteps(u, p), p, 1);
  }

  lemma KillFirst(s: State, p: Port, i: ChanState, o: ChanState)
    requires AtStore(s, p, 0, i, o)
    ensures AtStore(ThreeSteps(s, p), p, 3, KillEffect(i, 0), KillEffect(KillEffect(o, 0), 2))
    ensures var t := ThreeSteps(s, p);
      t.flag == s.flag && t.ports == s.ports[p := s.ports[p].(task := Serve(3))] && forall d: Chan :: PortOf(d) != p ==> t.chans[d] == s.chans[d]
  {
    hide KillEffect, Next, KillTarget;
    KillTargets(p);
    EffectsPair(o);
    StoreOfKill(s, p, 0, i, o);
    var s1 := Next(s, TaskStep(p));
    StoreOfKill(s1, p, 1, KillEffect(i, 0), o);
    StoreOfKill(Next(s1, TaskStep(p)), p, 2, KillEffect(i, 0), KillEffect(o, 0));
  }

  lemma KillLast(s: State, p: Port, i: ChanState, o: ChanState)
    requires AtStore(s, p, 3, i, o)
    ensures AtStore(ThreeSteps(s, p), p, 6, KillEffect(KillEffect(i, 2), 4), KillEffect(o, 4))
    ensures var t := ThreeSteps(s, p);
      t.flag == s.flag && t.ports == s.ports[p := s.ports[p].(task := Serve(6))] && forall d: Chan :: PortOf(d) != p ==> t.chans[d] == s.chans[d]
  {
    hide KillEffect, Next, KillTarget;
    KillTargets(p);
    EffectsPair(i);
    EffectsPair(KillEffect(i, 2));
    StoreOfKill(s, p, 3, i, o);
    var s1 := Next(s, TaskStep(p));
    StoreOfKill(s1, p, 4, KillEffect(i, 2), o);
    StoreOfKill(Next(s1, TaskStep(p)), p, 5, KillEffect(i, 2), KillEffect(o, 4));
  }

  /** What the invariant says of a port whose task waits while Macintosh code runs. */
  lemma IdlePort(s: State, p: Port)
    requires Inv(s) && s.main == Running && s.ports[p].isOpen && s.ports[p].window == NoWindow && s.ports[p].task == Loop
    ensures s.ports[p].mail == NoMail
    ensures Agreeing(s.chans[Input(p)]) && Agreeing(s.chans[Output(p)])
    ensures AtStore(Next(Next(s, CallKill(p)), TaskTakes(p)), p, 0, s.chans[Input(p)], s.chans[Output(p)])
    ensures var u := Next(Next(s, CallKill(p)), TaskTakes(p));
      u.chans == s.chans && u.flag == s.flag && u.ports == s.ports[p := s.ports[p].(mail := Mail(KillIO), task := Serve(0))]
  {
    hide LogOk, Answered, GoodLog, HolderOk, OpeningOk;
    assert PortKept(s, p);
    assert ChanKept(s, Input(p)) && ChanKept(s, Output(p));
  }

  lemma AllStored(s: State, p: Port, i: ChanState, o: ChanState)
    requires AtStore(s, p, 6, i, o)
    ensures Shape(s) && s.main == Waiting(p) && s.ports[p].mail == Mail(KillIO) && s.ports[p].task == Serve(6)
    ensures s.chans[Input(p)] == i && s.chans[Output(p)] == o
  {
  }

  lemma KillReturns(s: State, p: Port)
    requires Shape(s) && s.main == Waiting(p) && s.ports[p].mail == Mail(KillIO) && s.ports[p].task == Serve(6)
    ensures Next(Next(s, TaskStep(p)), MainStep(true)) == s.(main := Running, ports := s.ports[p := s.ports[p].(task := Loop, mail := NoMail)])
  {
  }
}
