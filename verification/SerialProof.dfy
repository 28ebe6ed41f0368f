/** What the serial completion protocol guarantees in every interleaving. */
module SerialProof {
  import opened Serial

  // ---- Growing a log ----

  lemma WasEnqueuedGrows(log: Log, e: Event, n: nat)
    ensures WasEnqueued(log + [e], n) <==> WasEnqueued(log, n) || (e.Enqueued? && e.n == n)
  {
    var l := log + [e];
    if WasEnqueued(log, n) {
      var i :| 0 <= i < |log| && log[i].Enqueued? && log[i].n == n;
      assert l[i] == log[i];
    }
    if e.Enqueued? && e.n == n {
      assert l[|log|] == e;
    }
  }

  lemma EndedGrows(log: Log, e: Event, n: nat)
    ensures Ended(log + [e], n) <==> Ended(log, n) || ((e.Enqueued? || e.Discarded?) && e.n == n)
  {
    hide WasEnqueued;
    WasEnqueuedGrows(log, e, n);
  }

  lemma GoodGrows(log: Log, e: Event)
    requires GoodLog(log) && GoodEvent(log, e)
    ensures GoodLog(log + [e])
  {
    hide GoodEvent;
    var l := log + [e];
    forall i | 0 <= i < |l|
      ensures GoodEvent(l[..i], l[i])
    {
      assert l[..i] == log[..i];
      assert i == |log| ==> log[..i] == log;
    }
  }

  /** A log with n requests; all but possibly the last have ended. */
  ghost predicate LogOk(log: Log, n: nat, open: bool) {
    && GoodLog(log) && Settled(log, n, if open && n > 0 then n - 1 else n)
    && (open ==> n >= 1 && Accepted(n) in log && !Ended(log, n))
  }

  lemma Accepts(log: Log, n: nat)
    requires LogOk(log, n, false)
    ensures LogOk(log + [Accepted(n + 1)], n + 1, true)
  {
    hide GoodLog, Ended;
    var e := Accepted(n + 1);
    GoodGrows(log, e);
    forall m: nat
      ensures Ended(log + [e], m) == Ended(log, m)
    {
      EndedGrows(log, e, m);
    }
    if Ended(log, n + 1) {
      EndedInLog(log, n + 1);
    }
  }

  lemma EndedInLog(log: Log, n: nat)
    requires Ended(log, n)
    ensures exists x :: x in log && x.n == n
  {
    if Discarded(n) in log {
    } else {
      var i :| 0 <= i < |log| && log[i].Enqueued? && log[i].n == n;
      assert log[i] in log;
    }
  }

  lemma Notes(log: Log, n: nat, e: Event)
    requires LogOk(log, n, true) && e.n == n && (e.Replied? || e.CountWritten? || e.ResultWritten?)
    ensures LogOk(log + [e], n, true)
  {
    hide GoodLog, Ended;
    GoodGrows(log, e);
    forall m: nat
      ensures Ended(log + [e], m) == Ended(log, m)
    {
      EndedGrows(log, e, m);
    }
  }

  lemma Ends(log: Log, n: nat, e: Event)
    requires LogOk(log, n, true) && e.n == n && (e.Enqueued? || e.Discarded?)
    requires e.Enqueued? ==> exists out :: Answered(log, n, out, e.result)
    ensures LogOk(log + [e], n, false)
  {
    hide GoodLog, Ended;
    GoodGrows(log, e);
    forall m: nat
      ensures Ended(log + [e], m) == (Ended(log, m) || m == n)
    {
      EndedGrows(log, e, m);
    }
  }

  // ---- The invariant ----

  /** Port state against the emulator task. */
  predicate PortOk(main: Main, port: PortState, p: Port) {
    && (port.mail != NoMail ==>
          && main == Waiting(p) && port.task != Off
          && (port.mail.m.Prime? ==> PortOf(port.mail.m.c) == p))
    && (port.task.Serve? ==> port.mail != NoMail && port.task.k <= (if port.mail.m.Prime? then 1 else 6))
    && (port.task.Finish? ==> PortOf(port.task.c) == p && port.task.k <= 3)
    && (port.quit ==> main == Stopping(p))
    && (port.task == Off ==> !port.quit)
    && (port.window == OpenTrap ==> !port.isOpen && (main != Stopping(p) ==> port.task != Off))
    && (port.window == CloseTrap ==> port.isOpen && port.task == Off)
    && (!port.isOpen && port.window == NoWindow ==> port.task == Off)
    && (port.isOpen && port.window == NoWindow && main != Stopping(p) ==> port.task != Off)
    && (main == Waiting(p) ==> port.isOpen && port.window == NoWindow)
    && (main == Stopping(p) ==> port.window == (if port.isOpen then NoWindow else OpenTrap))
    && (main.Priming? && PortOf(main.c) == p ==> main.k <= 3 && port.isOpen && port.window == NoWindow)
    && (main.Opening? && main.p == p ==> main.k <= 4 && !port.isOpen && port.window == NoWindow)
    && (main.Handling? && main.at == TestOpen ==> !IsOutput(main.c))
    && (main.Handling? && main.at != TestOpen && PortOf(main.c) == p ==> port.isOpen)
  }

  /** SerialInterrupt has cleared the flag and will still look at c. */
  predicate YetToTest(main: Main, c: Chan) {
    main.Handling? && (main.c < c || (main.c == c && (main.at == TestOpen || main.at == TestPending || main.at == TestDone)))
  }

  /** The port's task is between setting the done flag of c and setting the interrupt flag. */
  predicate AboutToSignal(port: PortState, c: Chan) { port.task.Finish? && port.task.c == c && port.task.k == 3 }

  predicate Enqueuing(main: Main, c: Chan) { main == Handling(c, Enqueue) }

  predicate Killing(port: PortState, lo: nat, hi: nat) {
    port.task.Serve? && port.mail == Mail(KillIO) && lo <= port.task.k <= hi
  }

  /** Between the stores of KillIO: pending is cleared already and done is not. */
  predicate KillStores(port: PortState, c: Chan) { if IsOutput(c) then Killing(port, 3, 4) else Killing(port, 4, 5) }

  predicate CancelsOrStopped(port: PortState, c: Chan) {
    port.task == Off || (if IsOutput(c) then Killing(port, 2, 2) else Killing(port, 1, 3))
  }

  /** Each stage says what the shared variables hold and which task has the request. */
  predicate StageOk(main: Main, port: PortState, ch: ChanState, c: Chan) {
    && (ch.stage == Preparing <==> main.Priming? && main.c == c && main.k >= 2)
    && (ch.stage == Sent <==> port.mail != NoMail && port.mail.m.Prime? && port.mail.m.c == c && port.task != Serve(1))
    && (ch.stage == WithDevice <==> ch.io != Idle)
    && (ch.stage == WithDevice ==> port.task != Off && !Killing(port, if IsOutput(c) then 2 else 1, 6))
    && (ch.stage == Finishing <==> port.task.Finish? && port.task.c == c && port.task.k <= 2)
    && (ch.stage == Queued <==> main == Handling(c, ClearDone) || main == Handling(c, ClearPending))
    && (Killing(port, if IsOutput(c) then 3 else 4, 6) ==> ch.stage == Free)
    && (ch.stage == Dropped ==> CancelsOrStopped(port, c))
    && (ch.stage == Stale ==> !port.isOpen && port.window == NoWindow)
    && (Live(ch.stage) ==> port.isOpen)
  }

  /** The flags, given the stage. */
  predicate FlagsOk(main: Main, port: PortState, ch: ChanState, c: Chan) {
    && (ch.stage != Stale ==> ch.pending == Live(ch.stage))
    && (ch.stage.Done? || main == Handling(c, ClearDone) ==> ch.done)
    && (ch.done && ch.stage != Stale ==>
          ch.stage.Done? || main == Handling(c, ClearDone) || (ch.stage == Free && KillStores(port, c)))
  }

  /** Stores of SerialOpen made so far. */
  predicate OpeningOk(main: Main, ch: ChanState, c: Chan) {
    && (main.Opening? && main.p == PortOf(c) ==>
          && !Live(ch.stage)
          && (main.k >= (if IsOutput(c) then 1 else 2) ==> !ch.pending)
          && (main.k >= (if IsOutput(c) then 3 else 4) ==> !ch.done))
    && (main.Priming? && main.c == c && main.k <= 1 ==> ch.stage == Free)
    && (main.Priming? && main.c == c && main.k == 1 ==> !ch.done)
  }

  /** The request each holder has is the channel's current one. */
  ghost predicate HolderOk(main: Main, port: PortState, ch: ChanState, c: Chan) {
    && (ch.stage == Preparing && main.Priming? && main.k == 3 ==> ch.dce == ch.n)
    && (ch.stage == Sent && port.mail != NoMail && port.mail.m.Prime? ==> ch.dce == ch.n == port.mail.m.n)
    && (ch.io != Idle ==> ch.dce == ch.io.n == ch.n)
    && (ch.io.Reply? ==> Replied(ch.n, ch.io.out) in ch.log)
    && (ch.stage == Finishing && port.task.Finish? ==>
          && ch.dce == port.task.n == ch.n
          && Replied(ch.n, port.task.out) in ch.log
          && (port.task.k >= 1 ==> CountWritten(ch.n, port.task.out.actual) in ch.log)
          && (port.task.k >= 2 ==> Answered(ch.log, ch.n, port.task.out, ch.result)))
    && (ch.stage.Done? ==> ch.dce == ch.n && Answered(ch.log, ch.n, ch.stage.out, ch.result))
  }

  /** No completion is lost. */
  predicate SignalOk(main: Main, port: PortState, flag: bool, ch: ChanState, c: Chan) {
    && (ch.stage.Done? ==> flag || AboutToSignal(port, c) || YetToTest(main, c) || Enqueuing(main, c))
    && (main == Handling(c, TestDone) ==> Live(ch.stage))
    && (Enqueuing(main, c) ==> ch.stage.Done?)
    && (main == FlagSeen ==> flag)
  }

  predicate Open(g: Stage) { Live(g) && g != Queued }

  ghost predicate ChanOk(main: Main, port: PortState, flag: bool, ch: ChanState, c: Chan) {
    && StageOk(main, port, ch, c)
    && FlagsOk(main, port, ch, c)
    && OpeningOk(main, ch, c)
    && HolderOk(main, port, ch, c)
    && SignalOk(main, port, flag, ch, c)
    && LogOk(ch.log, ch.n, Open(ch.stage))
  }

  ghost predicate PortKept(s: State, q: Port) { Shape(s) && PortOk(s.main, s.ports[q], q) }

  ghost predicate ChanKept(s: State, c: Chan) {
    Shape(s) && ChanOk(s.main, s.ports[PortOf(c)], s.flag, s.chans[c], c)
  }

  ghost predicate Inv(s: State) {
    && Shape(s)
    && (forall p: Port :: PortKept(s, p))
    && (forall c: Chan :: ChanKept(s, c))
  }

  // ---- Every step keeps it ----

  ghost predicate Local(s: State, c: Chan) {
    && Shape(s)
    && PortKept(s, 0) && PortKept(s, 1) && ChanKept(s, c)
  }

  // Each step seen from one channel: first the stores, then the rest of the state around them.

  lemma HandlerOwn(port: PortState, flag: bool, ch: ChanState, c: Chan, at: Test)
    requires PortOk(Handling(c, at), port, PortOf(c)) && ChanOk(Handling(c, at), port, flag, ch, c)
    ensures ChanOk(HandlerNext(port, ch, c, at), port, flag, HandlerEffect(ch, at), c)
  {
    hide LogOk, Answered;
    if at == Enqueue {
      Ends(ch.log, ch.n, Enqueued(ch.dce, ch.result));
    }
  }

  lemma HandlerOther(at: Test, portC: PortState, chC: ChanState, c: Chan, port: PortState, flag: bool, ch: ChanState, d: Chan)
    requires c != d && (PortOf(c) == PortOf(d) ==> port == portC)
    requires PortOk(Handling(c, at), port, PortOf(d)) && ChanOk(Handling(c, at), port, flag, ch, d)
    ensures ChanOk(HandlerNext(portC, chC, c, at), port, flag, ch, d)
  {
    hide LogOk, Answered;
  }

  lemma HandlerKeeps(s: State, d: Chan)
    requires Local(s, d) && s.main.Handling?
    ensures ChanKept(HandlerStep(s, s.main.c, s.main.at), d)
  {
    hide ChanOk, PortOk, HandlerEffect, HandlerNext;
    var c, at, port, ch := s.main.c, s.main.at, s.ports[PortOf(d)], s.chans[d];
    if c == d {
      HandlerOwn(port, s.flag, ch, c, at);
    } else {
      HandlerOther(at, s.ports[PortOf(c)], s.chans[c], c, port, s.flag, ch, d);
    }
  }

  lemma PrimeOwn(port: PortState, flag: bool, ch: ChanState, c: Chan, k: nat)
    requires PortOk(Priming(c, k), port, PortOf(c)) && ChanOk(Priming(c, k), port, flag, ch, c)
    ensures k < 3 ==> ChanOk(Priming(c, k + 1), port, flag, PrimeEffect(ch, k), c)
    ensures k == 3 ==> ChanOk(Waiting(PortOf(c)), port.(mail := Mail(Prime(c, ch.n))), flag, PrimeEffect(ch, k), c)
  {
    hide LogOk, Answered;
    if k == 1 {
      Accepts(ch.log, ch.n);
    }
  }

  lemma PrimeOther(c: Chan, k: nat, n: nat, port: PortState, flag: bool, ch: ChanState, d: Chan)
    requires c != d && PortOk(Priming(c, k), port, PortOf(d)) && ChanOk(Priming(c, k), port, flag, ch, d)
    ensures ChanOk(Priming(c, k + 1), port, flag, ch, d)
    ensures var port' := if PortOf(d) == PortOf(c) then port.(mail := Mail(Prime(c, n))) else port;
      ChanOk(Waiting(PortOf(c)), port', flag, ch, d)
  {
    hide LogOk, Answered;
  }

  lemma PrimeKeeps(s: State, d: Chan)
    requires Local(s, d) && s.main.Priming? && s.main.k <= 3
    ensures ChanKept(PrimeStep(s, s.main.c, s.main.k), d)
  {
    hide ChanOk, PortOk, PrimeEffect;
    var c, k, port, ch := s.main.c, s.main.k, s.ports[PortOf(d)], s.chans[d];
    if c == d {
      PrimeOwn(port, s.flag, ch, c, k);
    } else {
      PrimeOther(c, k, s.chans[c].n, port, s.flag, ch, d);
    }
  }

  lemma OpenStores(p: Port, k: nat, port: PortState, flag: bool, ch: ChanState, d: Chan)
    requires k < 4 && PortOk(Opening(p, k), port, PortOf(d)) && ChanOk(Opening(p, k), port, flag, ch, d)
    ensures ChanOk(Opening(p, k + 1), port, flag, if d == OpenTarget(p, k) then OpenEffect(ch, k) else ch, d)
  {
    hide LogOk, Answered;
  }

  lemma OpenEnds(p: Port, port: PortState, ok: bool, flag: bool, ch: ChanState, d: Chan)
    requires PortOk(Opening(p, 4), port, PortOf(d)) && ChanOk(Opening(p, 4), port, flag, ch, d)
    ensures PortOf(d) == p ==> ChanOk(Running, Started(port, ok), flag, ch.(stage := Free), d)
    ensures PortOf(d) != p ==> ChanOk(Running, port, flag, ch, d)
  {
    hide LogOk, Answered;
  }

  lemma OpenKeeps(s: State, ok: bool, d: Chan)
    requires Local(s, d) && s.main.Opening? && s.main.k <= 4
    ensures ChanKept(OpenStep(s, s.main.p, s.main.k, ok), d)
  {
    hide ChanOk, PortOk, OpenEffect, Started;
    var p, k, port, ch := s.main.p, s.main.k, s.ports[PortOf(d)], s.chans[d];
    if k < 4 {
      OpenStores(p, k, port, s.flag, ch, d);
    } else {
      OpenEnds(p, port, ok, s.flag, ch, d);
    }
  }

  lemma KillOwn(main: Main, port: PortState, flag: bool, ch: ChanState, d: Chan, k: nat)
    requires port.mail == Mail(KillIO) && port.task == Serve(k) && k < 6
    requires PortOk(main, port, PortOf(d)) && ChanOk(main, port, flag, ch, d)
    ensures var ch' := if d == KillTarget(PortOf(d), k) then KillEffect(ch, k) else ch;
      ChanOk(main, port.(task := Serve(k + 1)), flag, ch', d)
  {
    hide LogOk, Answered;
    if Open(ch.stage) {
      Ends(ch.log, ch.n, Discarded(ch.n));
    }
  }

  lemma MessageEnds(main: Main, port: PortState, flag: bool, ch: ChanState, d: Chan)
    requires port.mail != NoMail && port.task == Serve(if port.mail.m.Prime? then 1 else 6)
    requires PortOk(main, port, PortOf(d)) && ChanOk(main, port, flag, ch, d)
    ensures ChanOk(main, port.(task := Loop, mail := NoMail), flag, ch, d)
  {
    hide LogOk, Answered;
  }

  lemma KillKeeps(s: State, p: Port, d: Chan)
    requires Local(s, d) && s.ports[p].mail == Mail(KillIO) && s.ports[p].task.Serve? && s.ports[p].task.k <= 6
    ensures ChanKept(KillStep(s, p, s.ports[p].task.k), d)
  {
    hide ChanOk, PortOk, KillEffect;
    var port, ch := s.ports[PortOf(d)], s.chans[d];
    if PortOf(d) == p {
      if port.task.k < 6 {
        KillOwn(s.main, port, s.flag, ch, d, port.task.k);
      } else {
        MessageEnds(s.main, port, s.flag, ch, d);
      }
    }
  }

  lemma Sends(main: Main, port: PortState, flag: bool, ch: ChanState, d: Chan)
    requires port.mail != NoMail && port.mail.m.Prime? && port.task == Serve(0)
    requires PortOk(main, port, PortOf(d)) && ChanOk(main, port, flag, ch, d)
    ensures var ch' := if d == port.mail.m.c then ch.(io := InFlight(port.mail.m.n), stage := WithDevice) else ch;
      ChanOk(main, port.(task := Serve(1)), flag, ch', d)
  {
    hide LogOk, Answered;
  }

  lemma ServePrimeKeeps(s: State, p: Port, d: Chan)
    requires Local(s, d) && s.ports[p].mail != NoMail && s.ports[p].mail.m.Prime?
    requires s.ports[p].task.Serve? && s.ports[p].task.k <= 1 && PortOf(s.ports[p].mail.m.c) == p
    ensures ChanKept(ServeStep(s, p, s.ports[p].mail.m, s.ports[p].task.k), d)
  {
    hide ChanOk, PortOk;
    var port, ch := s.ports[PortOf(d)], s.chans[d];
    if PortOf(d) == p {
      if port.task.k == 0 {
        Sends(s.main, port, s.flag, ch, d);
      } else {
        MessageEnds(s.main, port, s.flag, ch, d);
      }
    }
  }

  /** The store of the result completes the answer. */
  lemma NotedAnswer(log: Log, n: nat, out: Outcome, result: int, parallel: bool, mask: Mask)
    ensures var l := log + [ResultWritten(n, result, parallel, mask)];
      Replied(n, out) in log && CountWritten(n, out.actual) in log && Reports(out.error, parallel, mask, result) ==> Answered(l, n, out, result)
  {
    hide Reports;
    var e := ResultWritten(n, result, parallel, mask);
    assert (log + [e])[|log|] == e;
  }

  lemma FinishBeside(main: Main, port: PortState, flag: bool, ch: ChanState, d: Chan, t: Task)
    requires port.task == t && t.Finish? && t.k < 2 && t.c != d
    requires PortOk(main, port, PortOf(d)) && ChanOk(main, port, flag, ch, d)
    ensures ChanOk(main, port.(task := Finish(t.c, t.n, t.out, t.k + 1)), flag, ch, d)
  {
    hide LogOk, Answered;
  }

  lemma FinishCount(main: Main, port: PortState, flag: bool, ch: ChanState, t: Task)
    requires port.task == t && t.Finish? && t.k == 0
    requires PortOk(main, port, PortOf(t.c)) && ChanOk(main, port, flag, ch, t.c)
    ensures ChanOk(main, port.(task := Finish(t.c, t.n, t.out, 1)), flag, Record(ch, CountWritten(t.n, t.out.actual)), t.c)
  {
    hide LogOk, Answered;
    Notes(ch.log, ch.n, CountWritten(t.n, t.out.actual));
  }

  lemma FinishResult(main: Main, port: PortState, flag: bool, ch: ChanState, t: Task, result: int)
    requires port.task == t && t.Finish? && t.k == 1 && Reports(t.out.error, port.parallel, port.mask, result)
    requires PortOk(main, port, PortOf(t.c)) && ChanOk(main, port, flag, ch, t.c)
    ensures ChanOk(main, port.(task := Finish(t.c, t.n, t.out, 2)), flag,
                   Record(ch, ResultWritten(t.n, result, port.parallel, port.mask)).(result := result), t.c)
  {
    hide LogOk, Answered, Reports;
    NotedAnswer(ch.log, t.n, t.out, result, port.parallel, port.mask);
    Notes(ch.log, ch.n, ResultWritten(t.n, result, port.parallel, port.mask));
  }

  lemma FinishNotes(main: Main, port: PortState, flag: bool, ch: ChanState, d: Chan, t: Task)
    requires port.task == t && t.Finish? && t.k < 2
    requires PortOk(main, port, PortOf(d)) && ChanOk(main, port, flag, ch, d)
    ensures var ch' := if d == t.c then FinishEffect(port, ch, t.n, t.out, t.k) else ch;
      ChanOk(main, port.(task := Finish(t.c, t.n, t.out, t.k + 1)), flag, ch', d)
  {
    hide PortOk, ChanOk, ConvError, Reports;
    if t.c != d {
      FinishBeside(main, port, flag, ch, d, t);
    } else if t.k == 0 {
      FinishCount(main, port, flag, ch, t);
    } else {
      ResultReports(t.out.error, port.parallel, port.mask);
      FinishResult(main, port, flag, ch, t, ConvError(t.out.error, port.parallel, port.mask));
    }
  }

  /** conv_error. */
  lemma ResultReports(error: DeviceError, parallel: bool, mask: Mask)
    ensures Reports(error, parallel, mask, ConvError(error, parallel, mask))
  {
  }

  lemma FinishDone(main: Main, port: PortState, flag: bool, ch: ChanState, d: Chan, t: Task)
    requires port.task == t && t.Finish? && t.k == 2
    requires PortOk(main, port, PortOf(d)) && ChanOk(main, port, flag, ch, d)
    ensures var ch' := if d == t.c then FinishEffect(port, ch, t.n, t.out, t.k) else ch;
      ChanOk(main, port.(task := Finish(t.c, t.n, t.out, t.k + 1)), flag, ch', d)
  {
    hide LogOk, Answered, ConvError;
  }

  lemma FinishStores(main: Main, port: PortState, flag: bool, ch: ChanState, d: Chan, t: Task)
    requires port.task == t && t.Finish? && t.k < 3
    requires PortOk(main, port, PortOf(d)) && ChanOk(main, port, flag, ch, d)
    ensures var ch' := if d == t.c then FinishEffect(port, ch, t.n, t.out, t.k) else ch;
      ChanOk(main, port.(task := Finish(t.c, t.n, t.out, t.k + 1)), flag, ch', d)
  {
    hide PortOk, ChanOk, FinishEffect;
    if t.k < 2 {
      FinishNotes(main, port, flag, ch, d, t);
    } else {
      FinishDone(main, port, flag, ch, d, t);
    }
  }

  lemma FinishSignals(main: Main, port: PortState, flag: bool, ch: ChanState, d: Chan)
    requires port.task.Finish? && port.task.k == 3
    requires PortOk(main, port, PortOf(d)) && ChanOk(main, port, flag, ch, d)
    ensures ChanOk(main, port.(task := Loop), true, ch, d)
  {
    hide LogOk, Answered;
  }

  lemma FlagSet(main: Main, port: PortState, flag: bool, ch: ChanState, d: Chan)
    requires ChanOk(main, port, flag, ch, d)
    ensures ChanOk(main, port, true, ch, d)
  {
    hide LogOk, Answered, HolderOk, OpeningOk, StageOk, FlagsOk;
  }

  lemma FinishKeeps(s: State, p: Port, d: Chan)
    requires Local(s, d) && s.ports[p].task.Finish? && s.ports[p].task.k <= 3 && PortOf(s.ports[p].task.c) == p
    ensures var t := s.ports[p].task; ChanKept(FinishStep(s, p, t.c, t.n, t.out, t.k), d)
  {
    hide ChanOk, PortOk, FinishEffect;
    var port, ch := s.ports[PortOf(d)], s.chans[d];
    if PortOf(d) == p {
      if port.task.k < 3 {
        FinishStores(s.main, port, s.flag, ch, d, port.task);
      } else {
        FinishSignals(s.main, port, s.flag, ch, d);
      }
    } else {
      FlagSet(s.main, port, s.flag, ch, d);
    }
  }

  lemma DeviceOwn(main: Main, port: PortState, flag: bool, ch: ChanState, d: Chan, out: Outcome)
    requires ch.io.InFlight? && PortOk(main, port, PortOf(d)) && ChanOk(main, port, flag, ch, d)
    ensures ChanOk(main, port, flag, Record(ch, Replied(ch.io.n, out)).(io := Reply(ch.io.n, out)), d)
  {
    hide LogOk, Answered;
    Notes(ch.log, ch.n, Replied(ch.n, out));
  }

  lemma DeviceKeeps(s: State, c: Chan, out: Outcome, d: Chan)
    requires Local(s, d)
    ensures ChanKept(DeviceStep(s, c, out), d)
  {
    hide ChanOk, PortOk;
    if c == d && s.chans[d].io.InFlight? {
      DeviceOwn(s.main, s.ports[PortOf(d)], s.flag, s.chans[d], d, out);
    }
  }

  lemma TakesOwn(main: Main, port: PortState, flag: bool, ch: ChanState, d: Chan)
    requires port.task == Loop && port.mail != NoMail
    requires PortOk(main, port, PortOf(d)) && ChanOk(main, port, flag, ch, d)
    ensures ChanOk(main, port.(task := Serve(0)), flag, ch, d)
  {
    hide LogOk, Answered;
  }

  lemma TakeKeeps(s: State, p: Port, d: Chan)
    requires Local(s, d)
    ensures ChanKept(TakeStep(s, p), d)
  {
    hide ChanOk, PortOk;
    var port := s.ports[PortOf(d)];
    if PortOf(d) == p && port.task == Loop && port.mail != NoMail {
      TakesOwn(s.main, port, s.flag, s.chans[d], d);
    }
  }

  lemma GetsOwn(main: Main, port: PortState, flag: bool, ch: ChanState, d: Chan, c: Chan, io: Io)
    requires port.task == Loop && io.Reply? && PortOf(c) == PortOf(d) && (c == d ==> ch.io == io)
    requires PortOk(main, port, PortOf(d)) && ChanOk(main, port, flag, ch, d)
    ensures var ch' := if c == d then ch.(io := Idle, stage := Finishing) else ch;
      ChanOk(main, port.(task := Finish(c, io.n, io.out, 0)), flag, ch', d)
  {
    hide LogOk, Answered;
  }

  lemma GetKeeps(s: State, c: Chan, d: Chan)
    requires Local(s, d)
    ensures ChanKept(GetStep(s, c), d)
  {
    hide ChanOk, PortOk;
    var port := s.ports[PortOf(d)];
    if PortOf(d) == PortOf(c) && port.task == Loop && s.chans[c].io.Reply? {
      GetsOwn(s.main, port, s.flag, s.chans[d], d, c, s.chans[c].io);
    }
  }

  lemma QuitsOwn(main: Main, port: PortState, flag: bool, ch: ChanState, d: Chan)
    requires port.task == Loop && port.quit
    requires PortOk(main, port, PortOf(d)) && ChanOk(main, port, flag, ch, d)
    ensures ChanOk(main, port.(task := Off, quit := false), flag, Abort(ch), d)
  {
    hide LogOk, Answered;
  }

  lemma QuitKeeps(s: State, p: Port, d: Chan)
    requires Local(s, d)
    ensures ChanKept(QuitStep(s, p), d)
  {
    hide ChanOk, PortOk, Abort;
    var port := s.ports[PortOf(d)];
    if PortOf(d) == p && port.task == Loop && port.quit {
      QuitsOwn(s.main, port, s.flag, s.chans[d], d);
    }
  }

  lemma CallsOwn(port: PortState, flag: bool, ch: ChanState, d: Chan)
    requires PortOk(Running, port, PortOf(d)) && ChanOk(Running, port, flag, ch, d)
    ensures forall c: Chan :: (c == d ==> !ch.pending && port.isOpen) ==> ChanOk(Priming(c, 0), port, flag, ch, d)
    ensures forall p: Port :: ChanOk(Waiting(p), port, flag, ch, d) && ChanOk(Stopping(p), port, flag, ch, d)
    ensures ChanOk(Waiting(PortOf(d)), port.(mail := Mail(KillIO)), flag, ch, d)
    ensures forall p: Port :: (PortOf(d) == p ==> !port.isOpen) ==> ChanOk(Opening(p, 0), port, flag, ch, d)
    ensures forall mask :: ChanOk(Running, port.(mask := mask), flag, ch, d)
    ensures flag ==> ChanOk(FlagSeen, port, flag, ch, d)
  {
    hide LogOk, Answered;
  }

  lemma CallKeeps(s: State, a: Action, d: Chan)
    requires Local(s, d) && (a.CallPrime? || a.CallKill? || a.CallOpen? || a.CallClose? || a.CallMask? || a.Interrupt?)
    ensures ChanKept(CallStep(s, a), d)
  {
    hide ChanOk, PortOk;
    if s.main == Running {
      CallsOwn(s.ports[PortOf(d)], s.flag, s.chans[d], d);
    }
  }

  lemma TrapsOwn(port: PortState, flag: bool, ch: ChanState, d: Chan)
    requires PortOk(Running, port, PortOf(d)) && ChanOk(Running, port, flag, ch, d)
    ensures port.window == OpenTrap ==> ChanOk(Running, port.(isOpen := true, window := NoWindow), flag, ch, d)
    ensures forall p: Port :: ChanOk(Stopping(p), port, flag, ch, d)
    ensures port.window == CloseTrap ==> ChanOk(Running, port.(isOpen := false, window := NoWindow), flag, Forget(ch), d)
  {
    hide LogOk, Answered;
    if Live(ch.stage) {
      Ends(ch.log, ch.n, Discarded(ch.n));
    }
  }

  lemma TrapKeeps(s: State, p: Port, ok: bool, d: Chan)
    requires Local(s, d)
    ensures ChanKept(TrapStep(s, p, ok), d)
  {
    hide ChanOk, PortOk, Forget;
    if s.main == Running {
      TrapsOwn(s.ports[PortOf(d)], s.flag, s.chans[d], d);
    }
  }

  lemma MainEnds(main: Main, port: PortState, flag: bool, ch: ChanState, d: Chan)
    requires PortOk(main, port, PortOf(d)) && ChanOk(main, port, flag, ch, d)
    ensures main == FlagSeen ==> ChanOk(Handling(0, TestOpen), port, false, ch, d)
    ensures main == Waiting(PortOf(d)) && port.mail == NoMail ==> ChanOk(Running, port, flag, ch, d)
    ensures main.Waiting? && main.p != PortOf(d) ==> ChanOk(Running, port, flag, ch, d)
    ensures ChanOk(main, port.(quit := true), flag, ch, d)
    ensures main == Stopping(PortOf(d)) && port.task == Off ==>
      ChanOk(Running, port.(window := if port.isOpen then CloseTrap else NoWindow), flag, ch, d)
    ensures main.Stopping? && main.p != PortOf(d) ==> ChanOk(Running, port, flag, ch, d)
  {
    hide LogOk, Answered;
  }

  lemma EmulatorKeeps(s: State, ok: bool, d: Chan)
    requires Local(s, d)
    ensures ChanKept(EmulatorStep(s, ok), d)
  {
    hide ChanOk, PrimeStep, OpenStep, HandlerStep;
    match s.main
    case Priming(c, k) => PrimeKeeps(s, d);
    case Opening(p, k) => OpenKeeps(s, ok, d);
    case Handling(c, at) => HandlerKeeps(s, d);
    case _ => MainEnds(s.main, s.ports[PortOf(d)], s.flag, s.chans[d], d);
  }

  lemma TaskKeeps(s: State, p: Port, d: Chan)
    requires Local(s, d)
    ensures ChanKept(SerialTaskStep(s, p), d)
  {
    hide ChanOk, KillStep, ServeStep, FinishStep;
    var port := s.ports[p];
    if port.task.Serve? {
      if port.mail.m.Prime? {
        ServePrimeKeeps(s, p, d);
      } else {
        KillKeeps(s, p, d);
        ServeKill(s, p, port.task.k);
      }
    } else if port.task.Finish? {
      FinishKeeps(s, p, d);
    }
  }

  lemma ServeKill(s: State, p: Port, k: nat)
    requires Shape(s)
    ensures ServeStep(s, p, KillIO, k) == KillStep(s, p, k)
  {
  }

  // The ports

  lemma PortAfterHandler(s: State, q: Port)
    requires Shape(s) && s.main.Handling? && (forall p: Port :: PortKept(s, p))
    ensures PortKept(HandlerStep(s, s.main.c, s.main.at), q)
  {
    assert PortKept(s, 0) && PortKept(s, 1);
  }

  lemma PortAfterOpen(s: State, ok: bool, q: Port)
    requires s.main.Opening? && PortKept(s, q)
    ensures PortKept(OpenStep(s, s.main.p, s.main.k, ok), q)
  {
  }

  lemma PortAfterPrime(s: State, q: Port)
    requires s.main.Priming? && PortKept(s, q)
    ensures PortKept(PrimeStep(s, s.main.c, s.main.k), q)
  {
  }

  lemma PortAfterEmulator(s: State, ok: bool, q: Port)
    requires Shape(s) && (forall p: Port :: PortKept(s, p))
    ensures PortKept(EmulatorStep(s, ok), q)
  {
    hide HandlerStep, OpenStep, PrimeStep;
    assert PortKept(s, 0) && PortKept(s, 1);
    if s.main.Priming? {
      PortAfterPrime(s, q);
    } else if s.main.Handling? {
      PortAfterHandler(s, q);
    } else if s.main.Opening? {
      PortAfterOpen(s, ok, q);
    }
  }

  lemma PortAfterServe(s: State, p: Port, q: Port)
    requires PortKept(s, q) && s.ports[p].mail != NoMail && s.ports[p].task.Serve?
    ensures PortKept(ServeStep(s, p, s.ports[p].mail.m, s.ports[p].task.k), q)
  {
    hide KillEffect, KillTarget;
  }

  lemma PortAfterFinish(s: State, p: Port, q: Port)
    requires PortKept(s, q) && s.ports[p].task.Finish?
    ensures var t := s.ports[p].task; PortKept(FinishStep(s, p, t.c, t.n, t.out, t.k), q)
  {
    hide FinishEffect;
  }

  lemma PortAfterTask(s: State, p: Port, q: Port)
    requires PortKept(s, q)
    ensures PortKept(SerialTaskStep(s, p), q)
  {
    hide ServeStep, FinishStep, PortOk;
    var port := s.ports[p];
    if port.task.Serve? && port.mail != NoMail {
      PortAfterServe(s, p, q);
    } else if port.task.Finish? {
      PortAfterFinish(s, p, q);
    }
  }

  lemma PortAfterCall(s: State, a: Action, q: Port)
    requires PortKept(s, q) && (a.CallPrime? || a.CallKill? || a.CallOpen? || a.CallClose? || a.CallMask? || a.Interrupt?)
    ensures PortKept(CallStep(s, a), q)
  {
  }

  lemma PortAfterTrap(s: State, p: Port, ok: bool, q: Port)
    requires PortKept(s, q)
    ensures PortKept(TrapStep(s, p, ok), q)
  {
    hide Forget;
  }

  lemma PortAfterOther(s: State, a: Action, q: Port)
    requires PortKept(s, q) && !a.MainStep? && !a.TaskStep?
    ensures PortKept(Next(s, a), q)
  {
    hide EmulatorStep, SerialTaskStep, TrapStep, CallStep;
    match a
    case TrapReturns(p, ok) => PortAfterTrap(s, p, ok, q);
    case TaskTakes(p) =>
    case TaskGets(c) =>
    case TaskQuits(p) =>
    case DeviceReplies(c, out) =>
    case _ => PortAfterCall(s, a, q);
  }

  // ---- Every run ----

  lemma StepKeeps(s: State, a: Action)
    requires Inv(s)
    ensures Inv(Next(s, a))
  {
    hide PortOk, ChanOk, EmulatorStep, TrapStep, TakeStep, SerialTaskStep, GetStep, QuitStep, DeviceStep, CallStep;
    forall q: Port
      ensures PortKept(Next(s, a), q)
    {
      match a
      case MainStep(ok) => PortAfterEmulator(s, ok, q);
      case TaskStep(p) => PortAfterTask(s, p, q);
      case _ => PortAfterOther(s, a, q);
    }
    forall d: Chan
      ensures ChanKept(Next(s, a), d)
    {
      assert Local(s, d);
      match a
      case MainStep(ok) => EmulatorKeeps(s, ok, d);
      case TrapReturns(p, ok) => TrapKeeps(s, p, ok, d);
      case TaskTakes(p) => TakeKeeps(s, p, d);
      case TaskStep(p) => TaskKeeps(s, p, d);
      case TaskGets(c) => GetKeeps(s, c, d);
      case TaskQuits(p) => QuitKeeps(s, p, d);
      case DeviceReplies(c, out) => DeviceKeeps(s, c, out, d);
      case _ => CallKeeps(s, a, d);
    }
  }

  lemma StartsGood(parallel: bool -> bool)
    ensures Inv(Initial(parallel))
  {
  }

  lemma {:induction false} Reachable(parallel: bool -> bool, actions: seq<Action>)
    ensures Inv(Run(Initial(parallel), actions))
    decreases |actions|
  {
    hide Inv, Initial, Next;
    if actions == [] {
      StartsGood(parallel);
    } else {
      var n := |actions| - 1;
      Reachable(parallel, actions[..n]);
      StepKeeps(Run(Initial(parallel), actions[..n]), actions[n]);
    }
  }

  // ---- What it means ----

  /** No request is queued or discarded before it was accepted or twice, a discarded request is never
      queued, and a queued deferred task names the request whose count and result were stored. */
  lemma CompletionsAreExact(parallel: bool -> bool, actions: seq<Action>, c: Chan)
    ensures GoodLog(Run(Initial(parallel), actions).chans[c].log)
  {
    hide Run, Initial, StageOk, FlagsOk, OpeningOk, HolderOk, SignalOk;
    Reachable(parallel, actions);
    assert ChanKept(Run(Initial(parallel), actions), c);
  }

  /** Nothing more is recorded for a request that was queued or discarded. */
  lemma EndsOnce(log: Log, i: nat, j: nat)
    requires GoodLog(log) && i < j < |log|
    requires log[i].Enqueued? || log[i].Discarded?
    ensures log[j].n != log[i].n
  {
    var before := log[..j];
    assert GoodEvent(before, log[j]);
    assert before[i] == log[i];
    assert before[i] in before;
  }

  /** Every accepted request but one still pending has been queued or discarded. */
  lemma NothingForgotten(parallel: bool -> bool, actions: seq<Action>, c: Chan, n: nat)
    requires var s := Run(Initial(parallel), actions);
      && Accepted(n) in s.chans[c].log
      && !(n == s.chans[c].n && s.chans[c].pending && s.ports[PortOf(c)].isOpen)
    ensures Ended(Run(Initial(parallel), actions).chans[c].log, n)
  {
    hide Run, Initial, Ended, GoodLog, HolderOk, SignalOk;
    Reachable(parallel, actions);
    var s := Run(Initial(parallel), actions);
    assert PortKept(s, PortOf(c)) && ChanKept(s, c);
  }

  /** On an open port done implies pending, exactly outside of the stores of KillIO between the two flags. */
  lemma DoneImpliesPending(parallel: bool -> bool, actions: seq<Action>, c: Chan)
    ensures var s := Run(Initial(parallel), actions);
      var ch, port := s.chans[c], s.ports[PortOf(c)];
      port.isOpen && ch.done ==> (ch.pending <==> !KillStores(port, c))
  {
    hide LogOk, Answered, Run, Initial;
    Reachable(parallel, actions);
    var s := Run(Initial(parallel), actions);
    assert PortKept(s, PortOf(c)) && ChanKept(s, c);
  }

  /** No completion is lost: while both flags are set the interrupt flag is set, or the port's task is
      about to set it, or the handler that cleared it has yet to look at this channel. */
  lemma NoLostCompletion(parallel: bool -> bool, actions: seq<Action>, c: Chan)
    ensures var s := Run(Initial(parallel), actions);
      var ch, port := s.chans[c], s.ports[PortOf(c)];
      port.isOpen && ch.pending && ch.done ==>
        || s.flag || AboutToSignal(port, c) || YetToTest(s.main, c) || Enqueuing(s.main, c)
        || s.main == Handling(c, ClearDone)
  {
    hide LogOk, Answered, Run, Initial;
    Reachable(parallel, actions);
    var s := Run(Initial(parallel), actions);
    assert PortKept(s, PortOf(c)) && ChanKept(s, c);
  }

  /** So nothing waits for a handler run that will never come. */
  lemma QuietMeansDelivered(parallel: bool -> bool, actions: seq<Action>, c: Chan)
    requires var s := Run(Initial(parallel), actions);
      s.main == Running && !s.flag && !AboutToSignal(s.ports[PortOf(c)], c)
    ensures var s := Run(Initial(parallel), actions);
      !(s.ports[PortOf(c)].isOpen && s.chans[c].pending && s.chans[c].done)
  {
    NoLostCompletion(parallel, actions, c);
  }

  /** The serial task sends an IORequest only when it is not in use. */
  lemma RequestBlockIsFree(parallel: bool -> bool, actions: seq<Action>, p: Port)
    requires var port := Run(Initial(parallel), actions).ports[p];
      port.task == Serve(0) && port.mail != NoMail && port.mail.m.Prime?
    ensures var s := Run(Initial(parallel), actions);
      var m := s.ports[p].mail.m;
      s.chans[m.c].io == Idle && s.chans[m.c].dce == m.n && s.chans[m.c].pending && !s.chans[m.c].done
  {
    hide LogOk, Answered, Run, Initial;
    Reachable(parallel, actions);
    var s := Run(Initial(parallel), actions);
    assert PortKept(s, p) && ChanKept(s, s.ports[p].mail.m.c);
  }
}
