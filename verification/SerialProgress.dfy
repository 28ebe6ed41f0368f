/** Which requests can still be queued: a schedule of the tasks that queues them, and the ones that none does. */
module SerialProgress {
  import opened Serial
  import opened SerialProof

  // ---- Continuations ----

  /** SerialOpen or SerialClose of p does not come back from its trap. */
  predicate NotBack(actions: seq<Action>, p: Port) {
    forall i :: 0 <= i < |actions| ==> !(actions[i].TrapReturns? && actions[i].p == p)
  }

  ghost predicate Leads(s: State, t: State, p: Port)
    requires Shape(s)
  {
    exists actions :: NotBack(actions, p) && Run(s, actions) == t
  }

  lemma LeadsNowhere(s: State, p: Port)
    requires Shape(s)
    ensures Leads(s, s, p)
  {
    assert NotBack([], p) && Run(s, []) == s;
  }

  lemma {:induction false} LeadsOn(s: State, t: State, a: Action, p: Port)
    requires Shape(s) && Shape(t) && Leads(s, t, p) && !(a.TrapReturns? && a.p == p)
    ensures Leads(s, Next(t, a), p)
  {
    hide Next;
    var actions :| NotBack(actions, p) && Run(s, actions) == t;
    var longer := actions + [a];
    assert longer[..|longer| - 1] == actions;
    assert NotBack(longer, p) && Run(s, longer) == Next(t, a);
  }

  /** One more step of a run that started at s. */
  lemma Go(s: State, t: State, a: Action, p: Port) returns (u: State)
    requires Shape(s) && Inv(t) && Leads(s, t, p) && !(a.TrapReturns? && a.p == p)
    ensures u == Next(t, a) && Inv(u) && Leads(s, u, p)
  {
    hide Next, Leads, PortKept, ChanKept;
    LeadsOn(s, t, a, p);
    StepKeeps(t, a);
    u := Next(t, a);
  }

  // ---- The schedule ----

  /** The device and the serial task bring the request of c on; then the interrupt is taken. */
  function Serving(t: State, c: Chan): Action
    requires Shape(t)
  {
    if t.chans[c].stage.Done? && t.flag then Interrupt
    else if t.chans[c].io.InFlight? then DeviceReplies(c, Outcome(0, Clean))
    else if t.ports[PortOf(c)].task == Loop then TaskGets(c)
    else TaskStep(PortOf(c))
  }

  /** The next action of a schedule that queues the request of c. It makes no call and ends no trap. */
  function Choice(t: State, c: Chan): (a: Action)
    requires Shape(t)
    ensures !a.TrapReturns?
  {
    match t.main
    case Running => Serving(t, c)
    case Waiting(q) =>
      if t.ports[q].mail == NoMail then MainStep(false)
      else if t.ports[q].task == Loop then TaskTakes(q) else TaskStep(q)
    case Stopping(q) =>
      if q == PortOf(c) && !t.chans[c].stage.Done? then Serving(t, c)
      else if t.ports[q].task.Finish? then TaskStep(q)
      else if t.ports[q].task == Loop && t.ports[q].quit then TaskQuits(q)
      else MainStep(false)
    case _ => MainStep(false)
  }

  /** Request n of c is neither cancelled nor cut off from the serial task. */
  ghost predicate Alive(t: State, c: Chan, n: nat) {
    && Shape(t)
    && var port, ch := t.ports[PortOf(c)], t.chans[c];
    && port.isOpen && ch.pending && ch.n == n && ch.stage != Queued && ch.stage != Dropped
    && port.mail != Mail(KillIO) && (port.task == Off ==> ch.stage.Done?)
  }

  /** The handler has just queued request n. */
  ghost predicate JustQueued(t: State, c: Chan, n: nat)
    requires Shape(t)
  {
    var log := t.chans[c].log;
    t.main == Handling(c, ClearDone) && log != [] && log[|log| - 1].Enqueued? && log[|log| - 1].n == n
  }

  /** SerialClose has been called and has not come back. */
  ghost predicate Closing(t: State, p: Port)
    requires Shape(t)
  {
    && t.ports[p].isOpen
    && ((t.main == Stopping(p) && t.ports[p].window == NoWindow) || t.ports[p].window == CloseTrap)
  }

  // ---- The schedule comes to an end ----

  function Less(a: nat, b: nat): nat { if a > b then a - b else 0 }

  /** Stores the task has yet to make for the reply it is working on. */
  function TaskLeft(task: Task): nat { if task.Finish? then Less(4, task.k) else 0 }

  function StageRank(port: PortState, ch: ChanState): nat {
    match ch.stage
    case Preparing => 30
    case Sent => 25
    case WithDevice => (if ch.io.InFlight? then 12 else 6) + TaskLeft(port.task)
    case Finishing => 1 + TaskLeft(port.task)
    case _ => 0
  }

  /** How many more tests and stores the handler makes, at most. */
  function StepsLeft(main: Main): nat {
    if !main.Handling? then 0
    else
      var at := match main.at
        case TestOpen => 6 case TestPending => 5 case TestDone => 4 case Enqueue => 3 case ClearDone => 2 case ClearPending => 1;
      6 * (3 - main.c) + at
  }

  function WaitRank(port: PortState): nat {
    if port.mail == NoMail then 1
    else match port.task
      case Serve(k) => Less(9, k)
      case _ => 10 + TaskLeft(port.task)
  }

  function StopRank(port: PortState): nat {
    if port.task == Off then 1 else if port.quit && port.task == Loop then 2 else 3 + TaskLeft(port.task)
  }

  /** How far the emulator task is from running Macintosh code, with the serial task it waits for. */
  function MainRank(s: State): nat
    requires Shape(s)
  {
    match s.main
    case Running => 0
    case Priming(_, k) => Less(20, k)
    case Waiting(q) => WaitRank(s.ports[q])
    case Opening(_, k) => Less(6, k)
    case Stopping(q) => StopRank(s.ports[q])
    case FlagSeen => 30
    case Handling(_, _) => StepsLeft(s.main)
  }

  function Rank(s: State, c: Chan): nat
    requires Shape(s)
  {
    var port, ch := s.ports[PortOf(c)], s.chans[c];
    if !ch.stage.Done? then 100 * StageRank(port, ch) + MainRank(s)
    else if YetToTest(s.main, c) || Enqueuing(s.main, c) then StepsLeft(s.main)
    else if s.main == FlagSeen then 30
    else 40 + MainRank(s) + TaskLeft(port.task)
  }

  /** An action of the schedule queues the request, or brings it nearer to that. */
  ghost predicate Nearer(t: State, u: State, c: Chan, n: nat)
    requires Shape(t) && Shape(u)
  {
    && (JustQueued(u, c, n) || (Alive(u, c, n) && Rank(u, c) < Rank(t, c)))
    && (Closing(t, PortOf(c)) ==> Closing(u, PortOf(c)))
  }

  ghost predicate Pursued(t: State, c: Chan, n: nat) {
    Shape(t) && PortKept(t, 0) && PortKept(t, 1) && ChanKept(t, c) && Alive(t, c, n)
  }

  lemma PursuedShape(t: State, c: Chan, n: nat)
    requires Pursued(t, c, n)
    ensures Shape(t)
  {
  }

  lemma NearerByPrime(t: State, c: Chan, n: nat)
    requires Pursued(t, c, n) && t.main.Priming?
    ensures Nearer(t, PrimeStep(t, t.main.c, t.main.k), c, n)
  {
    hide ChanOk, StepsLeft;
    PrimeStage(t, c, n);
  }

  lemma PrimeStage(t: State, c: Chan, n: nat)
    requires Pursued(t, c, n) && t.main.Priming?
    ensures t.main.c == c ==> t.main.k >= 2 && t.chans[c].stage == Preparing
    ensures t.main.k <= 3 && (PortOf(t.main.c) == PortOf(c) ==> t.ports[PortOf(c)].window == NoWindow)
  {
    hide LogOk, Answered, GoodLog, HolderOk, SignalOk;
  }

  lemma NearerByOpen(t: State, c: Chan, n: nat)
    requires Pursued(t, c, n) && t.main.Opening?
    ensures Nearer(t, OpenStep(t, t.main.p, t.main.k, false), c, n)
  {
    hide LogOk, Answered, GoodLog;
  }

  lemma HandlerDescends(s: State)
    requires PortKept(s, 0) && PortKept(s, 1) && s.main.Handling?
    ensures var c, at := s.main.c, s.main.at;
      StepsLeft(HandlerNext(s.ports[PortOf(c)], s.chans[c], c, at)) < StepsLeft(s.main)
  {
  }

  /** The handler looks at another channel. */
  lemma HandlerPasses(t: State, c: Chan)
    requires PortKept(t, 0) && PortKept(t, 1) && t.main.Handling? && t.main.c != c && t.ports[PortOf(c)].isOpen
    ensures var d := t.main.c; var main := HandlerNext(t.ports[PortOf(d)], t.chans[d], d, t.main.at);
      && (YetToTest(t.main, c) ==> YetToTest(main, c)) && (main.Running? || main.Handling?)
      && (YetToTest(main, c) ==> YetToTest(t.main, c)) && !Enqueuing(main, c)
  {
  }

  lemma NearerElsewhere(t: State, u: State, c: Chan, n: nat)
    requires Shape(t) && Shape(u) && Alive(t, c, n) && t.main.Handling? && t.main.c != c
    requires u.ports == t.ports && u.chans[c] == t.chans[c] && (u.main == Running || u.main.Handling?)
    requires (YetToTest(u.main, c) <==> YetToTest(t.main, c)) && !Enqueuing(u.main, c)
    requires StepsLeft(u.main) < StepsLeft(t.main)
    ensures Nearer(t, u, c, n)
  {
    hide StepsLeft, YetToTest;
  }

  lemma NearerHere(t: State, c: Chan, n: nat)
    requires Pursued(t, c, n) && t.main.Handling? && t.main.c == c
    requires StepsLeft(HandlerNext(t.ports[PortOf(c)], t.chans[c], c, t.main.at)) < StepsLeft(t.main)
    ensures Nearer(t, HandlerStep(t, c, t.main.at), c, n)
  {
    hide LogOk, Answered, GoodLog, StepsLeft;
  }

  lemma NearerByHandler(t: State, c: Chan, n: nat)
    requires Pursued(t, c, n) && t.main.Handling?
    ensures Nearer(t, HandlerStep(t, t.main.c, t.main.at), c, n)
  {
    hide PortOk, ChanOk, HandlerNext, HandlerEffect, StepsLeft, Nearer, YetToTest, Enqueuing;
    HandlerDescends(t);
    if t.main.c == c {
      NearerHere(t, c, n);
    } else {
      HandlerPasses(t, c);
      NearerElsewhere(t, HandlerStep(t, t.main.c, t.main.at), c, n);
    }
  }

  lemma NearerByReturn(t: State, c: Chan, n: nat)
    requires Pursued(t, c, n) && (t.main == FlagSeen || (t.main.Waiting? && t.ports[t.main.p].mail == NoMail))
    ensures Nearer(t, EmulatorStep(t, false), c, n)
  {
    hide LogOk, Answered, GoodLog, HolderOk, FlagsOk, OpeningOk, StageOk;
  }

  lemma NearerByStop(t: State, c: Chan, n: nat)
    requires Pursued(t, c, n) && Choice(t, c) == MainStep(false) && t.main.Stopping?
    ensures Nearer(t, EmulatorStep(t, false), c, n)
  {
    hide ChanOk, StageRank;
    var port := t.ports[t.main.p];
    assert port.task == Off || (port.task == Loop && !port.quit);
  }

  lemma NearerByMain(t: State, c: Chan, n: nat)
    requires Pursued(t, c, n) && Choice(t, c) == MainStep(false)
    ensures Nearer(t, EmulatorStep(t, false), c, n)
  {
    hide PortOk, ChanOk, HandlerStep, PrimeStep, OpenStep, Nearer;
    match t.main
    case Priming(_, _) => NearerByPrime(t, c, n);
    case Opening(_, _) => NearerByOpen(t, c, n);
    case Handling(_, _) => NearerByHandler(t, c, n);
    case Stopping(_) => NearerByStop(t, c, n);
    case _ => NearerByReturn(t, c, n);
  }

  /** The task of the other port does something that the emulator task waits for. */
  lemma NearerBeside(t: State, u: State, c: Chan, n: nat)
    requires Shape(t) && Shape(u) && Alive(t, c, n) && (t.main.Waiting? || t.main.Stopping?)
    requires u.main == t.main && u.ports[PortOf(c)] == t.ports[PortOf(c)] && u.chans[c] == t.chans[c]
    requires MainRank(u) < MainRank(t)
    ensures Nearer(t, u, c, n)
  {
    hide MainRank, TaskLeft, StageRank;
  }

  lemma NearerByServe(t: State, q: Port, c: Chan, n: nat)
    requires Pursued(t, c, n) && t.main == Waiting(q) && t.ports[q].mail != NoMail && t.ports[q].task.Serve?
    ensures Nearer(t, ServeStep(t, q, t.ports[q].mail.m, t.ports[q].task.k), c, n)
  {
    hide LogOk, Answered, GoodLog, Nearer, KillEffect, KillTarget;
    var u := ServeStep(t, q, t.ports[q].mail.m, t.ports[q].task.k);
    if q == PortOf(c) {
      NearerByPrimeMessage(t, c, n);
    } else {
      ServeElsewhere(t, q, c);
      NearerBeside(t, u, c, n);
    }
  }

  /** The serial task handles a message of the port of c: it is a Prime, for c or for the other channel. */
  lemma NearerByPrimeMessage(t: State, c: Chan, n: nat)
    requires Pursued(t, c, n)
    requires var p := PortOf(c); t.main == Waiting(p) && t.ports[p].mail != NoMail && t.ports[p].task.Serve?
    ensures var p := PortOf(c); Nearer(t, ServeStep(t, p, t.ports[p].mail.m, t.ports[p].task.k), c, n)
  {
    hide ChanOk, PortOk, StageRank;
    PrimeMessage(t, c, n);
  }

  lemma PrimeMessage(t: State, c: Chan, n: nat)
    requires Pursued(t, c, n)
    requires var p := PortOf(c); t.main == Waiting(p) && t.ports[p].mail != NoMail && t.ports[p].task.Serve?
    ensures var port, ch := t.ports[PortOf(c)], t.chans[c];
      && port.mail.m.Prime? && port.task.k <= 1
      && (port.mail.m.c == c && port.task.k == 0 ==>
            && ch.stage == Sent
            && StageRank(port.(task := Serve(1)), ch.(io := InFlight(port.mail.m.n), stage := WithDevice)) < StageRank(port, ch))
      && StageRank(port.(task := Serve(1)), ch) == StageRank(port.(task := Loop, mail := NoMail), ch) == StageRank(port, ch)
  {
    hide LogOk, Answered, GoodLog, SignalOk, OpeningOk, HolderOk;
  }

  lemma ServeElsewhere(t: State, q: Port, c: Chan)
    requires PortKept(t, q) && q != PortOf(c)
    requires t.main == Waiting(q) && t.ports[q].mail != NoMail && t.ports[q].task.Serve?
    ensures var u := ServeStep(t, q, t.ports[q].mail.m, t.ports[q].task.k);
      && u.main == t.main && u.ports[PortOf(c)] == t.ports[PortOf(c)] && u.chans[c] == t.chans[c]
      && MainRank(u) < MainRank(t)
  {
    hide KillEffect;
  }

  lemma NearerByFinish(t: State, q: Port, c: Chan, n: nat)
    requires Pursued(t, c, n) && Choice(t, c) == TaskStep(q) && t.ports[q].task.Finish?
    ensures var k := t.ports[q].task; Nearer(t, FinishStep(t, q, k.c, k.n, k.out, k.k), c, n)
  {
    hide LogOk, Answered, GoodLog, Nearer, FinishEffect, ChanOk;
    if q == PortOf(c) {
      if t.ports[q].task.c == c {
        NearerByOwnFinish(t, c, n);
      } else {
        NearerByOtherFinish(t, c, n);
      }
    } else {
      var k := t.ports[q].task;
      FinishElsewhere(t, q, c);
      NearerBeside(t, FinishStep(t, q, k.c, k.n, k.out, k.k), c, n);
    }
  }

  lemma FinishElsewhere(t: State, q: Port, c: Chan)
    requires PortKept(t, q) && q != PortOf(c)
    requires (t.main == Waiting(q) && t.ports[q].mail != NoMail) || t.main == Stopping(q)
    requires t.ports[q].task.Finish?
    ensures var k := t.ports[q].task; var u := FinishStep(t, q, k.c, k.n, k.out, k.k);
      && u.main == t.main && u.ports[PortOf(c)] == t.ports[PortOf(c)] && u.chans[c] == t.chans[c]
      && MainRank(u) < MainRank(t)
  {
    hide FinishEffect;
  }

  lemma FinishRanks(t: State, q: Port)
    requires PortKept(t, q) && t.ports[q].task.Finish?
    ensures var k := t.ports[q].task; var u := FinishStep(t, q, k.c, k.n, k.out, k.k);
      && (t.ports[q].mail != NoMail ==> WaitRank(u.ports[q]) < WaitRank(t.ports[q]))
      && StopRank(u.ports[q]) < StopRank(t.ports[q])
      && TaskLeft(u.ports[q].task) == TaskLeft(k) - 1
  {
    hide FinishEffect;
  }

  lemma FinishStage(t: State, c: Chan, n: nat)
    requires Pursued(t, c, n) && t.ports[PortOf(c)].task.Finish?
    ensures var k := t.ports[PortOf(c)].task; k.k <= 3 && (k.c == c && k.k <= 2 <==> t.chans[c].stage == Finishing)
    ensures t.chans[c].stage == Sent ==> t.main == Waiting(PortOf(c))
    ensures t.chans[c].stage == Preparing ==> t.main.Priming?
    ensures t.chans[c].stage != Free && t.chans[c].stage != Stale
  {
    hide LogOk, Answered, GoodLog, SignalOk, OpeningOk;
  }

  lemma NearerByOwnFinish(t: State, c: Chan, n: nat)
    requires Pursued(t, c, n) && Choice(t, c) == TaskStep(PortOf(c))
    requires t.ports[PortOf(c)].task.Finish? && t.ports[PortOf(c)].task.c == c
    ensures var k := t.ports[PortOf(c)].task; Nearer(t, FinishStep(t, PortOf(c), c, k.n, k.out, k.k), c, n)
  {
    hide PortOk, ChanOk, ConvError, StopRank, WaitRank, StepsLeft;
    FinishRanks(t, PortOf(c));
    FinishStage(t, c, n);
  }

  lemma NearerByOtherFinish(t: State, c: Chan, n: nat)
    requires Pursued(t, c, n) && Choice(t, c) == TaskStep(PortOf(c))
    requires t.ports[PortOf(c)].task.Finish? && t.ports[PortOf(c)].task.c != c
    ensures var k := t.ports[PortOf(c)].task; Nearer(t, FinishStep(t, PortOf(c), k.c, k.n, k.out, k.k), c, n)
  {
    hide PortOk, ChanOk, ConvError, StopRank, WaitRank, StepsLeft, FinishEffect;
    FinishRanks(t, PortOf(c));
    FinishStage(t, c, n);
  }

  lemma ChoiceServes(t: State, q: Port, c: Chan, n: nat)
    requires Pursued(t, c, n) && Choice(t, c) == TaskStep(q)
    ensures t.ports[q].task.Finish? || (t.ports[q].task.Serve? && t.main == Waiting(q) && t.ports[q].mail != NoMail)
  {
    hide LogOk, Answered, GoodLog;
  }

  lemma NearerByTask(t: State, q: Port, c: Chan, n: nat)
    requires Pursued(t, c, n) && Choice(t, c) == TaskStep(q)
    ensures Nearer(t, SerialTaskStep(t, q), c, n)
  {
    hide Pursued, Choice, ServeStep, FinishStep, Nearer;
    ChoiceServes(t, q, c, n);
    assert Shape(t) by { PursuedShape(t, c, n); }
    if t.ports[q].task.Serve? {
      NearerByServe(t, q, c, n);
    } else {
      NearerByFinish(t, q, c, n);
    }
  }

  lemma NearerByInterrupt(t: State, c: Chan, n: nat)
    requires Pursued(t, c, n) && Choice(t, c) == Interrupt
    ensures Nearer(t, Next(t, Interrupt), c, n)
  {
    hide LogOk, Answered, GoodLog, HolderOk, StageOk, OpeningOk;
  }

  lemma NearerByReply(t: State, c: Chan, out: Outcome, n: nat)
    requires Pursued(t, c, n) && Choice(t, c) == DeviceReplies(c, out)
    ensures Nearer(t, DeviceStep(t, c, out), c, n)
  {
    hide LogOk, Answered, GoodLog, SignalOk, HolderOk, OpeningOk, PortOk, TaskLeft, WaitRank, StopRank, StepsLeft;
  }

  lemma NearerByGet(t: State, c: Chan, n: nat)
    requires Pursued(t, c, n) && Choice(t, c) == TaskGets(c)
    ensures Nearer(t, GetStep(t, c), c, n)
  {
    hide LogOk, Answered, GoodLog, OpeningOk;
  }

  lemma NearerByTake(t: State, q: Port, c: Chan, n: nat)
    requires Pursued(t, c, n) && Choice(t, c) == TaskTakes(q)
    ensures Nearer(t, TakeStep(t, q), c, n)
  {
    hide LogOk, Answered, GoodLog, ChanOk;
  }

  lemma NearerByQuit(t: State, q: Port, c: Chan, n: nat)
    requires Pursued(t, c, n) && Choice(t, c) == TaskQuits(q)
    ensures Nearer(t, QuitStep(t, q), c, n)
  {
    hide LogOk, Answered, GoodLog, OpeningOk, HolderOk, SignalOk, StageRank, StepsLeft, WaitRank;
    if q != PortOf(c) {
      QuitElsewhere(t, q, c);
      NearerBeside(t, QuitStep(t, q), c, n);
    }
  }

  lemma QuitElsewhere(t: State, q: Port, c: Chan)
    requires Shape(t) && q != PortOf(c) && t.main == Stopping(q) && t.ports[q].task == Loop && t.ports[q].quit
    ensures var u := QuitStep(t, q);
      && u.main == t.main && u.ports[PortOf(c)] == t.ports[PortOf(c)] && u.chans[c] == t.chans[c]
      && MainRank(u) < MainRank(t)
  {
  }

  lemma NearerByOther(t: State, c: Chan, n: nat)
    requires Pursued(t, c, n) && !Choice(t, c).MainStep? && !Choice(t, c).TaskStep?
    ensures Nearer(t, Next(t, Choice(t, c)), c, n)
  {
    hide PortOk, ChanOk, Nearer, Alive, GetStep, QuitStep, TakeStep, DeviceStep;
    match Choice(t, c)
    case Interrupt => NearerByInterrupt(t, c, n);
    case DeviceReplies(_, out) => NearerByReply(t, c, out, n);
    case TaskGets(_) => NearerByGet(t, c, n);
    case TaskTakes(q) => NearerByTake(t, q, c, n);
    case TaskQuits(q) => NearerByQuit(t, q, c, n);
    case _ =>
  }

  lemma ChoiceIsNearer(t: State, c: Chan, n: nat)
    requires Inv(t) && Alive(t, c, n)
    ensures Nearer(t, Next(t, Choice(t, c)), c, n)
  {
    hide Alive, Nearer, PortOk, ChanOk, EmulatorStep, SerialTaskStep;
    assert Pursued(t, c, n) by { assert PortKept(t, 0) && PortKept(t, 1) && ChanKept(t, c); }
    match Choice(t, c)
    case MainStep(_) => NearerByMain(t, c, n);
    case TaskStep(q) => NearerByTask(t, q, c, n);
    case _ => NearerByOther(t, c, n);
  }

  /** The schedule queues the request. */
  lemma {:induction false} Arrives(s: State, t: State, c: Chan, n: nat) returns (u: State)
    requires Shape(s) && Inv(t) && Leads(s, t, PortOf(c)) && Alive(t, c, n)
    ensures Shape(u) && Leads(s, u, PortOf(c)) && JustQueued(u, c, n)
    ensures Closing(t, PortOf(c)) ==> Closing(u, PortOf(c))
    decreases Rank(t, c)
  {
    hide Leads, Alive, Closing, JustQueued, PortKept, ChanKept, Rank, Choice;
    ChoiceIsNearer(t, c, n);
    u := Go(s, t, Choice(t, c), PortOf(c));
    if !JustQueued(u, c, n) {
      u := Arrives(s, u, c, n);
    }
  }

  // ---- Requests that no schedule queues ----

  /** KillIO has been sent to the serial task, or the task has ended without finishing the request. */
  predicate Doomed(port: PortState, ch: ChanState) {
    port.mail == Mail(KillIO) || (port.task == Off && !ch.done)
  }

  predicate Discarding(port: PortState, ch: ChanState) { Live(ch.stage) && ch.stage != Queued && Doomed(port, ch) }

  /** A step leaves the current request of c without hope, or discards it. */
  ghost predicate StillLost(t: State, u: State, c: Chan)
    requires Shape(t) && Shape(u)
  {
    var n, ch := t.chans[c].n, u.chans[c];
    (ch.n == n && Discarding(u.ports[PortOf(c)], ch)) || Discarded(n) in ch.log
  }

  ghost predicate Hopeless(t: State, c: Chan) {
    && Shape(t) && PortKept(t, 0) && PortKept(t, 1) && ChanKept(t, c)
    && Discarding(t.ports[PortOf(c)], t.chans[c])
  }

  lemma LostByHandler(t: State, c: Chan)
    requires Hopeless(t, c) && t.main.Handling?
    ensures StillLost(t, HandlerStep(t, t.main.c, t.main.at), c)
  {
    hide LogOk, Answered, GoodLog, HolderOk, OpeningOk;
  }

  lemma LostByPrime(t: State, c: Chan)
    requires Hopeless(t, c) && t.main.Priming?
    ensures StillLost(t, PrimeStep(t, t.main.c, t.main.k), c)
  {
    hide LogOk, Answered, GoodLog, HolderOk, SignalOk;
  }

  lemma LostByOpen(t: State, ok: bool, c: Chan)
    requires Hopeless(t, c) && t.main.Opening?
    ensures StillLost(t, OpenStep(t, t.main.p, t.main.k, ok), c)
  {
    hide LogOk, Answered, GoodLog, HolderOk, SignalOk;
  }

  lemma LostByMain(t: State, ok: bool, c: Chan)
    requires Hopeless(t, c)
    ensures StillLost(t, EmulatorStep(t, ok), c)
  {
    hide ChanOk, HandlerStep, PrimeStep, OpenStep;
    match t.main
    case Handling(_, _) => LostByHandler(t, c);
    case Priming(_, _) => LostByPrime(t, c);
    case Opening(_, _) => LostByOpen(t, ok, c);
    case _ =>
  }

  lemma LostByKill(t: State, q: Port, c: Chan)
    requires Hopeless(t, c) && t.ports[q].mail == Mail(KillIO) && t.ports[q].task.Serve?
    ensures StillLost(t, KillStep(t, q, t.ports[q].task.k), c)
  {
    hide LogOk, Answered, GoodLog, HolderOk, SignalOk, OpeningOk, FlagsOk;
  }

  lemma LostByServe(t: State, q: Port, c: Chan)
    requires Hopeless(t, c) && t.ports[q].mail != NoMail && t.ports[q].task.Serve?
    ensures StillLost(t, ServeStep(t, q, t.ports[q].mail.m, t.ports[q].task.k), c)
  {
    hide LogOk, Answered, GoodLog, HolderOk, SignalOk, OpeningOk, KillStep;
    if t.ports[q].mail.m == KillIO {
      LostByKill(t, q, c);
    }
  }

  lemma LostByFinish(t: State, q: Port, c: Chan)
    requires Hopeless(t, c) && t.ports[q].task.Finish?
    ensures var k := t.ports[q].task; StillLost(t, FinishStep(t, q, k.c, k.n, k.out, k.k), c)
  {
    hide LogOk, Answered, GoodLog, HolderOk, SignalOk, OpeningOk, ConvError;
  }

  lemma LostByTask(t: State, q: Port, c: Chan)
    requires Hopeless(t, c)
    ensures StillLost(t, SerialTaskStep(t, q), c)
  {
    hide PortOk, ChanOk, ServeStep, FinishStep;
    if t.ports[q].task.Serve? && t.ports[q].mail != NoMail {
      LostByServe(t, q, c);
    } else if t.ports[q].task.Finish? {
      LostByFinish(t, q, c);
    }
  }

  lemma LostByTrap(t: State, q: Port, ok: bool, c: Chan)
    requires Hopeless(t, c)
    ensures StillLost(t, TrapStep(t, q, ok), c)
  {
    hide ChanOk;
  }

  lemma LostByCall(t: State, a: Action, c: Chan)
    requires Hopeless(t, c) && (a.CallPrime? || a.CallKill? || a.CallOpen? || a.CallClose? || a.CallMask? || a.Interrupt?)
    ensures StillLost(t, CallStep(t, a), c)
  {
    hide ChanOk;
  }

  lemma LostByQuit(t: State, q: Port, c: Chan)
    requires Hopeless(t, c)
    ensures StillLost(t, QuitStep(t, q), c)
  {
    hide ChanOk;
  }

  lemma LostByOther(t: State, a: Action, c: Chan)
    requires Hopeless(t, c) && (a.TaskTakes? || a.TaskGets? || a.DeviceReplies?)
    ensures StillLost(t, Next(t, a), c)
  {
    hide LogOk, Answered, GoodLog, HolderOk, SignalOk, OpeningOk;
  }

  lemma LostStays(t: State, a: Action, c: Chan)
    requires Inv(t) && Discarding(t.ports[PortOf(c)], t.chans[c])
    ensures StillLost(t, Next(t, a), c)
  {
    hide PortOk, ChanOk, StillLost, Discarding, EmulatorStep, SerialTaskStep, TrapStep, CallStep, GetStep, QuitStep, TakeStep, DeviceStep;
    assert Hopeless(t, c) by { assert PortKept(t, 0) && PortKept(t, 1) && ChanKept(t, c); }
    match a
    case MainStep(ok) => LostByMain(t, ok, c);
    case TaskStep(q) => LostByTask(t, q, c);
    case TrapReturns(q, ok) => LostByTrap(t, q, ok, c);
    case TaskTakes(_) => LostByOther(t, a, c);
    case TaskGets(_) => LostByOther(t, a, c);
    case TaskQuits(q) => LostByQuit(t, q, c);
    case DeviceReplies(_, _) => LostByOther(t, a, c);
    case _ => LostByCall(t, a, c);
  }

  /** A step appends to a log, or leaves it as it is. */
  ghost predicate Grows(t: State, u: State, c: Chan)
    requires Shape(t) && Shape(u)
  {
    forall e :: e in t.chans[c].log ==> e in u.chans[c].log
  }

  lemma GrowsByHandler(t: State, d: Chan, at: Test, c: Chan)
    requires Shape(t)
    ensures Grows(t, HandlerStep(t, d, at), c)
  {
    hide HandlerNext;
  }

  lemma GrowsByPrime(t: State, d: Chan, k: nat, c: Chan)
    requires Shape(t)
    ensures Grows(t, PrimeStep(t, d, k), c)
  {
  }

  lemma GrowsByOpen(t: State, p: Port, k: nat, ok: bool, c: Chan)
    requires Shape(t)
    ensures Grows(t, OpenStep(t, p, k, ok), c)
  {
    hide Started;
  }

  lemma GrowsByMain(t: State, ok: bool, c: Chan)
    requires Shape(t)
    ensures Grows(t, EmulatorStep(t, ok), c)
  {
    hide HandlerStep, PrimeStep, OpenStep;
    match t.main
    case Handling(d, at) => GrowsByHandler(t, d, at, c);
    case Priming(d, k) => GrowsByPrime(t, d, k, c);
    case Opening(p, k) => GrowsByOpen(t, p, k, ok, c);
    case _ =>
  }

  lemma GrowsByTask(t: State, q: Port, c: Chan)
    requires Shape(t)
    ensures Grows(t, SerialTaskStep(t, q), c)
  {
    hide ConvError;
  }

  lemma GrowsByTrap(t: State, q: Port, ok: bool, c: Chan)
    requires Shape(t)
    ensures Grows(t, TrapStep(t, q, ok), c)
  {
  }

  lemma LogGrows(t: State, a: Action, c: Chan)
    requires Shape(t)
    ensures Grows(t, Next(t, a), c)
  {
    hide EmulatorStep, SerialTaskStep, TrapStep;
    match a
    case MainStep(ok) => GrowsByMain(t, ok, c);
    case TaskStep(q) => GrowsByTask(t, q, c);
    case TrapReturns(q, ok) => GrowsByTrap(t, q, ok, c);
    case _ =>
  }

  /** Request n of c was discarded, or can only be. */
  ghost predicate Lost(t: State, c: Chan, n: nat) {
    && Inv(t)
    && (Discarded(n) in t.chans[c].log || (t.chans[c].n == n && Discarding(t.ports[PortOf(c)], t.chans[c])))
  }

  lemma {:induction false} LostForGood(s: State, actions: seq<Action>, c: Chan, n: nat)
    requires Lost(s, c, n)
    ensures Lost(Run(s, actions), c, n)
    decreases |actions|
  {
    hide Next, PortKept, ChanKept, Discarding;
    if actions != [] {
      var i := |actions| - 1;
      LostForGood(s, actions[..i], c, n);
      var t := Run(s, actions[..i]);
      StepKeeps(t, actions[i]);
      LogGrows(t, actions[i], c);
      if Discarded(n) !in t.chans[c].log {
        LostStays(t, actions[i], c);
      }
    }
  }

  lemma LostNotQueued(t: State, c: Chan, n: nat)
    requires Lost(t, c, n)
    ensures Shape(t) && !WasEnqueued(t.chans[c].log, n)
  {
    hide PortOk, StageOk, FlagsOk, OpeningOk, HolderOk, SignalOk, GoodEvent;
    assert ChanKept(t, c);
    var log := t.chans[c].log;
    if WasEnqueued(log, n) && Discarded(n) in log {
      var i :| 0 <= i < |log| && log[i].Enqueued? && log[i].n == n;
      var j :| 0 <= j < |log| && log[j] == Discarded(n);
      EndsOnce(log, if i < j then i else j, if i < j then j else i);
    }
  }

  // ---- Exactly when ----

  lemma AliveOrLost(s: State, c: Chan, n: nat)
    requires Inv(s) && Accepted(n) in s.chans[c].log && !Ended(s.chans[c].log, n)
    ensures if Doomed(s.ports[PortOf(c)], s.chans[c]) then Lost(s, c, n) else Alive(s, c, n)
  {
    hide GoodLog, Ended, Answered, HolderOk;
    assert PortKept(s, PortOf(c)) && ChanKept(s, c);
  }

  /** In every state the driver can reach, a request that was accepted and has not ended can still be
      queued, exactly when no KillIO is on its way to the serial task and the task runs or has set done.
      So the driver never comes to a standstill with a request waiting, and what is cancelled stays so. */
  lemma CanBeQueuedExactly(parallel: bool -> bool, before: seq<Action>, c: Chan, n: nat)
    requires var ch := Run(Initial(parallel), before).chans[c]; Accepted(n) in ch.log && !Ended(ch.log, n)
    ensures var s := Run(Initial(parallel), before);
      (exists actions :: WasEnqueued(Run(s, actions).chans[c].log, n)) <==> !Doomed(s.ports[PortOf(c)], s.chans[c])
  {
    hide Run, Initial, Inv, Ended, WasEnqueued, Doomed, Alive, JustQueued, Closing, Lost;
    Reachable(parallel, before);
    var s := Run(Initial(parallel), before);
    AliveOrLost(s, c, n);
    if Doomed(s.ports[PortOf(c)], s.chans[c]) {
      forall actions
        ensures !WasEnqueued(Run(s, actions).chans[c].log, n)
      {
        LostForGood(s, actions, c, n);
        LostNotQueued(Run(s, actions), c, n);
      }
    } else {
      LeadsNowhere(s, PortOf(c));
      var u := Arrives(s, s, c, n);
      QueuedIsRecorded(u, c, n);
      var actions :| NotBack(actions, PortOf(c)) && Run(s, actions) == u;
      assert WasEnqueued(Run(s, actions).chans[c].log, n);
    }
  }

  lemma QueuedIsRecorded(u: State, c: Chan, n: nat)
    requires Shape(u) && JustQueued(u, c, n)
    ensures WasEnqueued(u.chans[c].log, n)
  {
  }

  // ---- Two runs ----

  /** Port 0 has been opened, and its task waits for messages. */
  ghost predicate JustOpen(s: State) {
    && Shape(s) && s.main == Running && s.ports[0].isOpen && s.ports[0].window == NoWindow && s.ports[0].task == Loop && s.ports[0].mail == NoMail && !s.ports[0].quit
  }

  lemma OpensPort(parallel: bool -> bool) returns (t: State)
    ensures Inv(t) && Leads(Initial(parallel), t, 1) && JustOpen(t) && !t.chans[0].pending
  {
    hide Leads, Inv;
    var s := Initial(parallel);
    StartsGood(parallel);
    LeadsNowhere(s, 1);
    t := Go(s, s, CallOpen(0), 1);
    t := Go(s, t, MainStep(true), 1);
    t := Go(s, t, MainStep(true), 1);
    t := Go(s, t, MainStep(true), 1);
    t := Go(s, t, MainStep(true), 1);
    t := Go(s, t, MainStep(true), 1);
    t := Go(s, t, TrapReturns(0, true), 1);
  }

  lemma SendsPrime(s: State, r: State) returns (t: State)
    requires Shape(s) && Inv(r) && Leads(s, r, 1) && JustOpen(r) && !r.chans[0].pending
    ensures Inv(t) && Leads(s, t, 1) && Shape(t) && t.main == Waiting(0) && t.chans[0].pending
    ensures t.ports == r.ports[0 := r.ports[0].(mail := Mail(Prime(0, t.chans[0].n)))]
  {
    hide Leads, Inv;
    t := Go(s, r, CallPrime(0), 1);
    t := Go(s, t, MainStep(true), 1);
    t := Go(s, t, MainStep(true), 1);
    t := Go(s, t, MainStep(true), 1);
    t := Go(s, t, MainStep(true), 1);
  }

  /** The serial task takes the message of a Prime and sends the request to the device. */
  lemma SendsRequest(s: State, r: State) returns (t: State)
    requires Shape(s) && Inv(r) && Leads(s, r, 1) && Shape(r) && r.main == Waiting(0) && r.chans[0].pending
    requires r.ports[0].task == Loop && r.ports[0].mail.Mail? && r.ports[0].mail.m.Prime? && r.ports[0].mail.m.c == 0
    requires r.ports[0].isOpen && r.ports[0].window == NoWindow && !r.ports[0].quit
    ensures Inv(t) && Leads(s, t, 1) && JustOpen(t) && t.chans[0].pending && t.chans[0].io.InFlight?
  {
    hide Leads, Inv;
    t := Go(s, r, TaskTakes(0), 1);
    t := Go(s, t, TaskStep(0), 1);
    t := Go(s, t, TaskStep(0), 1);
    t := Go(s, t, MainStep(true), 1);
  }

  /** The device replies, and the serial task gets the reply. */
  lemma GetsReply(s: State, r: State) returns (t: State)
    requires Shape(s) && Inv(r) && Leads(s, r, 1) && JustOpen(r) && r.chans[0].io.InFlight?
    ensures Inv(t) && Leads(s, t, 1) && Storing(t, 0)
  {
    hide Leads, Inv;
    t := Go(s, r, DeviceReplies(0, Outcome(0, Clean)), 1);
    t := Go(s, t, TaskGets(0), 1);
  }

  /** The task of port 0 has made k of the stores for a reply to its input. */
  ghost predicate Storing(t: State, k: nat) {
    && Shape(t) && t.main == Running && t.ports[0].isOpen && t.ports[0].window == NoWindow
    && t.ports[0].mail == NoMail && !t.ports[0].quit
    && t.ports[0].task.Finish? && t.ports[0].task.c == 0 && t.ports[0].task.k == k
  }

  /** It stores count and result. */
  lemma StoresAnswer(s: State, r: State) returns (t: State)
    requires Shape(s) && Inv(r) && Leads(s, r, 1) && Storing(r, 0)
    ensures Inv(t) && Leads(s, t, 1) && Storing(t, 2)
  {
    hide Leads, Inv, ConvError;
    t := Go(s, r, TaskStep(0), 1);
    t := Go(s, t, TaskStep(0), 1);
  }

  /** It stores done and the interrupt flag. */
  lemma StoresDone(s: State, r: State) returns (t: State)
    requires Shape(s) && Inv(r) && Leads(s, r, 1) && Storing(r, 2)
    ensures Inv(t) && Leads(s, t, 1) && JustOpen(t) && t.chans[0].done
  {
    hide Leads, Inv, ConvError;
    t := Go(s, r, TaskStep(0), 1);
    t := Go(s, t, TaskStep(0), 1);
  }

  /** KillIO is called and aborts both requests. */
  lemma KillStarts(s: State, r: State) returns (t: State)
    requires Shape(s) && Inv(r) && Leads(s, r, 1) && JustOpen(r) && r.chans[0].done
    ensures Inv(t) && Shape(t) && Leads(s, t, 1) && t.chans[0].done
    ensures t.ports[0].isOpen && t.ports[0].task == Serve(2) && t.ports[0].mail == Mail(KillIO)
  {
    hide Leads, Inv;
    t := Go(s, r, CallKill(0), 1);
    t := Go(s, t, TaskTakes(0), 1);
    t := Go(s, t, TaskStep(0), 1);
    t := Go(s, t, TaskStep(0), 1);
  }

  /** It clears the pending flag of the output, and then that of the input. */
  lemma KillClearsPending(s: State, r: State) returns (t: State)
    requires Shape(s) && Inv(r) && Shape(r) && Leads(s, r, 1) && r.chans[0].done
    requires r.ports[0].isOpen && r.ports[0].task == Serve(2) && r.ports[0].mail == Mail(KillIO)
    ensures Shape(t) && Leads(s, t, 1) && t.ports[0].isOpen && t.chans[0].done && !t.chans[0].pending
  {
    hide Leads, Inv;
    t := Go(s, r, TaskStep(0), 1);
    t := Go(s, t, TaskStep(0), 1);
  }

  /** A run that comes to an open port with done set and pending clear: KillIO clears pending first. */
  lemma DoneWithoutPending(parallel: bool -> bool)
    ensures exists actions :: var s := Run(Initial(parallel), actions);
      s.ports[0].isOpen && s.chans[0].done && !s.chans[0].pending
  {
    hide Inv, Run, Initial;
    var i := Initial(parallel);
    var t := OpensPort(parallel);
    t := SendsPrime(i, t);
    t := SendsRequest(i, t);
    t := GetsReply(i, t);
    t := StoresAnswer(i, t);
    t := StoresDone(i, t);
    t := KillStarts(i, t);
    t := KillClearsPending(i, t);
    var actions :| NotBack(actions, 1) && Run(i, actions) == t;
  }
}
