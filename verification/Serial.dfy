/** The completion protocol of the serial driver: the emulator task (src/serial.cpp and the interrupt
    handler of src/emul_op.cpp) and one serial task per port (src/AmigaOS-4/serial_amiga.cpp) share
    pending and done flags, a deferred-task record per direction and one interrupt flag. Every store
    and every test of a shared variable is a step of its own, and steps interleave freely. */
module Serial {
  /** Channel 2p is the input and channel 2p+1 the output of port p. */
  type Port = p: int | 0 <= p < 2
  type Chan = c: int | 0 <= c < 4

  // ---- Results ----

  datatype DeviceError = Clean | DetectedBreak | ParityErr | BufOverflow | LineErr | OtherErr
  datatype Outcome = Outcome(actual: int, error: DeviceError)
  datatype Mask = Mask(parity: bool, swOverrun: bool, hwOverrun: bool, framing: bool)

  const RCVR_ERR := -89
  const BREAK_RECD := -90

  /** The Macintosh result that conv_error stores. */
  function ConvError(error: DeviceError, parallel: bool, mask: Mask): int {
    if error == Clean then 0
    else if parallel then if mask.framing then RCVR_ERR else 0
    else match error
      case DetectedBreak => BREAK_RECD
      case ParityErr => if mask.parity then RCVR_ERR else 0
      case BufOverflow => if mask.swOverrun then RCVR_ERR else 0
      case LineErr => if mask.hwOverrun then RCVR_ERR else 0
      case _ => if mask.framing then RCVR_ERR else 0
  }

  // ---- What happened to the requests of one channel ----

  /** The n-th request accepted on a channel is named by n. Enqueued gives what the deferred task
      holds when it is queued: the request its device control entry names, and the result. */
  datatype Event =
    | Accepted(n: nat)
    | Replied(n: nat, out: Outcome)
    | CountWritten(n: nat, count: int)
    | ResultWritten(n: nat, result: int, parallel: bool, mask: Mask) // with the port's settings at that store
    | Enqueued(n: nat, result: int)
    | Discarded(n: nat)

  type Log = seq<Event>

  predicate WasEnqueued(log: Log, n: nat) { exists i :: 0 <= i < |log| && log[i].Enqueued? && log[i].n == n }

  predicate Ended(log: Log, n: nat) { WasEnqueued(log, n) || Discarded(n) in log }

  /** The device errors that the settings of a port make a receiver error of. */
  predicate Selected(error: DeviceError, parallel: bool, mask: Mask) {
    && error != Clean
    && if parallel then mask.framing
       else
         || (error == ParityErr && mask.parity) || (error == BufOverflow && mask.swOverrun)
         || (error == LineErr && mask.hwOverrun) || (error == OtherErr && mask.framing)
  }

  /** What a Macintosh program is told: nothing went wrong (0), a receiver error (-89) or a break (-90). */
  predicate Reports(error: DeviceError, parallel: bool, mask: Mask, result: int) {
    && (result == 0 || result == -89 || result == -90)
    && (result == -89 <==> Selected(error, parallel, mask))
    && (result == -90 <==> error == DetectedBreak && !parallel)
  }

  /** The device's answer to n and the two values it stands for have been stored. */
  ghost predicate Answered(log: Log, n: nat, out: Outcome, result: int) {
    && Replied(n, out) in log && CountWritten(n, out.actual) in log
    && exists parallel, mask :: ResultWritten(n, result, parallel, mask) in log && Reports(out.error, parallel, mask, result)
  }

  /** A request ends at most once, after it was accepted, and is queued with its own answer only. */
  ghost predicate GoodEvent(before: Log, e: Event) {
    match e
    case Accepted(n) => forall x :: x in before ==> x.n < n
    case Enqueued(n, result) =>
      && Accepted(n) in before && !Ended(before, n)
      && exists out :: Answered(before, n, out, result)
    case Discarded(n) => Accepted(n) in before && !Ended(before, n)
    case _ => Accepted(e.n) in before && !Ended(before, e.n)
  }

  ghost predicate GoodLog(log: Log) { forall i :: 0 <= i < |log| ==> GoodEvent(log[..i], log[i]) }

  /** Requests 1 to n are all there are, and those up to `ended` have ended. */
  predicate Settled(log: Log, n: nat, ended: nat) {
    && (forall x :: x in log ==> 1 <= x.n <= n)
    && (forall m :: 1 <= m <= ended ==> Ended(log, m))
  }

  // ---- The state ----

  datatype Message = Prime(c: Chan, n: nat) | KillIO

  datatype Task =
    | Off
    | Loop                                              // between two items of the main loop
    | Serve(k: nat)                                     // handling the message in the mailbox
    | Finish(c: Chan, n: nat, out: Outcome, k: nat)     // handling a replied request

  /** Execute68kTrap runs Macintosh code in the middle of SerialOpen and SerialClose. */
  datatype Window = NoWindow | OpenTrap | CloseTrap

  datatype PortState = PortState(
    isOpen: bool, window: Window, task: Task, mail: Message?, quit: bool, parallel: bool, mask: Mask)
  datatype Message? = NoMail | Mail(m: Message)

  /** The IORequest of a channel. */
  datatype Io = Idle | InFlight(n: nat) | Reply(n: nat, out: Outcome)

  /** Where the current request is. No step of the driver tests it. */
  datatype Stage =
    | Free | Preparing | Sent | WithDevice | Finishing | Done(out: Outcome) | Queued
    | Dropped                                           // aborted, but not yet discarded
    | Stale                                             // flags left over by a closed port

  predicate Live(g: Stage) { g != Free && g != Stale }

  datatype ChanState = ChanState(
    pending: bool, done: bool, io: Io, dce: nat, result: int, // the shared variables
    n: nat, stage: Stage, log: Log)                           // the history

  datatype Test = TestOpen | TestPending | TestDone | Enqueue | ClearDone | ClearPending

  datatype Main =
    | Running                                           // Macintosh code
    | Priming(c: Chan, k: nat)
    | Waiting(p: Port)                                  // send_to_proc
    | Opening(p: Port, k: nat)
    | Stopping(p: Port)                                 // close: signals the task and waits for its end
    | FlagSeen                                          // tested, not yet cleared
    | Handling(c: Chan, at: Test)                       // SerialInterrupt

  datatype State = State(main: Main, ports: seq<PortState>, chans: seq<ChanState>, flag: bool)

  ghost predicate Shape(s: State) { |s.ports| == 2 && |s.chans| == 4 }

  function PortOf(c: Chan): Port { if c < 2 then 0 else 1 }
  function Input(p: Port): Chan { if p == 0 then 0 else 2 }
  function Output(p: Port): Chan { if p == 0 then 1 else 3 }
  predicate IsOutput(c: Chan) { c == 1 || c == 3 }

  function Initial(parallel: bool -> bool): (s: State)
    ensures Shape(s)
  {
    var port := (b: bool) => PortState(false, NoWindow, Off, NoMail, false, parallel(b), Mask(false, false, false, false));
    State(Running, [port(false), port(true)],
          seq(4, _ => ChanState(false, false, Idle, 0, 0, 0, Free, [])), false)
  }

  // ---- Steps ----

  datatype Action =
    | CallPrime(c: Chan) | CallKill(p: Port) | CallOpen(p: Port) | CallClose(p: Port) | CallMask(p: Port, mask: Mask)
    | Interrupt                                         // the emulator polls the interrupt flag
    | MainStep(ok: bool)                                // next store or test of the emulator task; ok: open() works
    | TrapReturns(p: Port, ok: bool)                    // Execute68kTrap comes back; ok: it allocated the records
    | TaskTakes(p: Port)                                // GetMsg on the command port
    | TaskStep(p: Port)                                 // next store of the serial task
    | TaskGets(c: Chan)                                 // GetMsg on the I/O port
    | TaskQuits(p: Port)
    | DeviceReplies(c: Chan, out: Outcome)

  function SetChan(s: State, c: Chan, ch: ChanState): State
    requires Shape(s)
  {
    s.(chans := s.chans[c := ch])
  }

  function SetPort(s: State, p: Port, port: PortState): State
    requires Shape(s)
  {
    s.(ports := s.ports[p := port])
  }

  function Record(ch: ChanState, e: Event): ChanState { ch.(log := ch.log + [e]) }

  /** serial_irq tests input before output and port 0 before port 1. */
  function NextTest(c: Chan): Main {
    if c == 3 then Running
    else if !IsOutput(c) then Handling(c + 1, TestPending)
    else Handling(c + 1, TestOpen)
  }

  function HandlerNext(port: PortState, ch: ChanState, c: Chan, at: Test): Main {
    match at
    case TestOpen =>
      if port.isOpen then Handling(c, TestPending) else if c < 2 then Handling(2, TestOpen) else Running
    case TestPending => if ch.pending then Handling(c, TestDone) else NextTest(c)
    case TestDone => if ch.done then Handling(c, Enqueue) else NextTest(c)
    case Enqueue => Handling(c, ClearDone)
    case ClearDone => Handling(c, ClearPending)
    case ClearPending => NextTest(c)
  }

  function HandlerEffect(ch: ChanState, at: Test): ChanState {
    match at
    case Enqueue => Record(ch, Enqueued(ch.dce, ch.result)).(stage := Queued)
    case ClearDone => ch.(done := false)
    case ClearPending => ch.(pending := false, stage := Free)
    case _ => ch
  }

  function HandlerStep(s: State, c: Chan, at: Test): (t: State)
    requires Shape(s)
    ensures Shape(t)
  {
    var ch := s.chans[c];
    SetChan(s.(main := HandlerNext(s.ports[PortOf(c)], ch, c, at)), c, HandlerEffect(ch, at))
  }

  /** The stores of prime_in and prime_out, and the message. */
  function PrimeEffect(ch: ChanState, k: nat): ChanState {
    match k
    case 0 => ch.(done := false)
    case 1 => Record(ch, Accepted(ch.n + 1)).(pending := true, n := ch.n + 1, stage := Preparing)
    case 2 => ch.(dce := ch.n)
    case _ => ch.(stage := Sent)
  }

  function PrimeStep(s: State, c: Chan, k: nat): (t: State)
    requires Shape(s)
    ensures Shape(t)
  {
    var ch, p := s.chans[c], PortOf(c);
    var s' := SetChan(s, c, PrimeEffect(ch, k));
    if k < 3 then s'.(main := Priming(c, k + 1))
    else SetPort(s', p, s.ports[p].(mail := Mail(Prime(c, ch.n)))).(main := Waiting(p))
  }

  /** SerialOpen clears pending and then done, output before input. */
  function OpenTarget(p: Port, k: nat): Chan { if k == 0 || k == 2 then Output(p) else Input(p) }

  function OpenEffect(ch: ChanState, k: nat): ChanState { if k < 2 then ch.(pending := false) else ch.(done := false) }

  /** open() when the flags are clear. */
  function Started(port: PortState, ok: bool): PortState {
    var p := port.(mask := Mask(false, false, false, false));
    if ok then p.(task := Loop, window := OpenTrap) else p
  }

  function SetBoth(s: State, p: Port, i: ChanState, o: ChanState): State
    requires Shape(s)
  {
    SetChan(SetChan(s, Input(p), i), Output(p), o)
  }

  function OpenStep(s: State, p: Port, k: nat, ok: bool): (t: State)
    requires Shape(s)
    ensures Shape(t)
  {
    if k < 4 then
      var c := OpenTarget(p, k);
      SetChan(s.(main := Opening(p, k + 1)), c, OpenEffect(s.chans[c], k))
    else
      var i, o := s.chans[Input(p)].(stage := Free), s.chans[Output(p)].(stage := Free);
      SetBoth(SetPort(s.(main := Running), p, Started(s.ports[p], ok)), p, i, o)
  }

  function EmulatorStep(s: State, ok: bool): (t: State)
    requires Shape(s)
    ensures Shape(t)
  {
    match s.main
    case Running => s
    case Priming(c, k) => PrimeStep(s, c, k)
    case Waiting(p) => if s.ports[p].mail == NoMail then s.(main := Running) else s
    case Opening(p, k) => OpenStep(s, p, k, ok)
    case Stopping(p) =>
      if s.ports[p].task != Off then SetPort(s, p, s.ports[p].(quit := true))
      else SetPort(s.(main := Running), p, s.ports[p].(window := if s.ports[p].isOpen then CloseTrap else NoWindow))
    case FlagSeen => s.(main := Handling(0, TestOpen), flag := false)
    case Handling(c, at) => HandlerStep(s, c, at)
  }

  /** SerialClose forgets a request that is still pending. */
  function Forget(ch: ChanState): ChanState {
    (if Live(ch.stage) then Record(ch, Discarded(ch.n)) else ch).(stage := Stale)
  }

  function TrapStep(s: State, p: Port, ok: bool): (t: State)
    requires Shape(s)
    ensures Shape(t)
  {
    var port := s.ports[p];
    if s.main != Running then s
    else match port.window
      case NoWindow => s
      case OpenTrap =>
        if ok then SetPort(s, p, port.(isOpen := true, window := NoWindow)) else s.(main := Stopping(p))
      case CloseTrap =>
        var i, o := Forget(s.chans[Input(p)]), Forget(s.chans[Output(p)]);
        SetBoth(SetPort(s, p, port.(isOpen := false, window := NoWindow)), p, i, o)
  }

  /** AbortIO and WaitIO: the request leaves the device and its reply leaves the I/O port. */
  function Abort(ch: ChanState): ChanState {
    if ch.io == Idle then ch else ch.(io := Idle, stage := Dropped)
  }

  function KillTarget(p: Port, k: nat): Chan { if k == 0 || k == 3 || k == 5 then Input(p) else Output(p) }

  function KillEffect(ch: ChanState, k: nat): ChanState {
    if k < 2 then Abort(ch)
    else if k < 4 then (if Live(ch.stage) then Record(ch, Discarded(ch.n)).(stage := Free) else ch).(pending := false)
    else ch.(done := false)
  }

  function KillStep(s: State, p: Port, k: nat): (t: State)
    requires Shape(s)
    ensures Shape(t)
  {
    var port := s.ports[p];
    if k < 6 then
      var c := KillTarget(p, k);
      SetChan(SetPort(s, p, port.(task := Serve(k + 1))), c, KillEffect(s.chans[c], k))
    else SetPort(s, p, port.(task := Loop, mail := NoMail))
  }

  function ServeStep(s: State, p: Port, m: Message, k: nat): (t: State)
    requires Shape(s)
    ensures Shape(t)
  {
    match m
    case KillIO => KillStep(s, p, k)
    case Prime(c, n) =>
      var port, ch := s.ports[p], s.chans[c];
      if k == 0 then SetChan(SetPort(s, p, port.(task := Serve(1))), c, ch.(io := InFlight(n), stage := WithDevice))
      else SetPort(s, p, port.(task := Loop, mail := NoMail))
  }

  /** The stores made for a replied request. */
  function FinishEffect(port: PortState, ch: ChanState, n: nat, out: Outcome, k: nat): ChanState {
    match k
    case 0 => Record(ch, CountWritten(n, out.actual))
    case 1 =>
      var result := ConvError(out.error, port.parallel, port.mask);
      Record(ch, ResultWritten(n, result, port.parallel, port.mask)).(result := result)
    case _ => ch.(done := true, stage := Done(out))
  }

  function FinishStep(s: State, p: Port, c: Chan, n: nat, out: Outcome, k: nat): (t: State)
    requires Shape(s)
    ensures Shape(t)
  {
    var port := s.ports[p];
    if k < 3 then
      SetChan(SetPort(s, p, port.(task := Finish(c, n, out, k + 1))), c, FinishEffect(port, s.chans[c], n, out, k))
    else SetPort(s, p, port.(task := Loop)).(flag := true)
  }

  function SerialTaskStep(s: State, p: Port): (t: State)
    requires Shape(s)
    ensures Shape(t)
  {
    var port := s.ports[p];
    match port.task
    case Serve(k) => if port.mail == NoMail then s else ServeStep(s, p, port.mail.m, k)
    case Finish(c, n, out, k) => FinishStep(s, p, c, n, out, k)
    case _ => s
  }

  function CallStep(s: State, a: Action): (t: State)
    requires Shape(s)
    ensures Shape(t)
  {
    if s.main != Running then s
    else match a
      case CallPrime(c) =>
        var port := s.ports[PortOf(c)];
        if port.window != NoWindow || !port.isOpen || s.chans[c].pending then s else s.(main := Priming(c, 0))
      case CallKill(p) =>
        var port := s.ports[p];
        if port.window != NoWindow || !port.isOpen then s
        else SetPort(s, p, port.(mail := Mail(KillIO))).(main := Waiting(p))
      case CallOpen(p) =>
        var port := s.ports[p];
        if port.window != NoWindow || port.isOpen then s else s.(main := Opening(p, 0))
      case CallClose(p) =>
        var port := s.ports[p];
        if port.window != NoWindow || !port.isOpen then s else s.(main := Stopping(p))
      case CallMask(p, mask) => SetPort(s, p, s.ports[p].(mask := mask))
      case _ => if s.flag then s.(main := FlagSeen) else s
  }

  function DeviceStep(s: State, c: Chan, out: Outcome): (t: State)
    requires Shape(s)
    ensures Shape(t)
  {
    var ch := s.chans[c];
    if !ch.io.InFlight? then s
    else SetChan(s, c, Record(ch, Replied(ch.io.n, out)).(io := Reply(ch.io.n, out)))
  }

  function TakeStep(s: State, p: Port): (t: State)
    requires Shape(s)
    ensures Shape(t)
  {
    var port := s.ports[p];
    if port.task == Loop && port.mail != NoMail then SetPort(s, p, port.(task := Serve(0))) else s
  }

  function GetStep(s: State, c: Chan): (t: State)
    requires Shape(s)
    ensures Shape(t)
  {
    var port, ch := s.ports[PortOf(c)], s.chans[c];
    if port.task == Loop && ch.io.Reply? then
      SetChan(SetPort(s, PortOf(c), port.(task := Finish(c, ch.io.n, ch.io.out, 0))), c, ch.(io := Idle, stage := Finishing))
    else s
  }

  function QuitStep(s: State, p: Port): (t: State)
    requires Shape(s)
    ensures Shape(t)
  {
    var port := s.ports[p];
    if port.task == Loop && port.quit then
      SetBoth(SetPort(s, p, port.(task := Off, quit := false)), p, Abort(s.chans[Input(p)]), Abort(s.chans[Output(p)]))
    else s
  }

  function Next(s: State, a: Action): (t: State)
    requires Shape(s)
    ensures Shape(t)
  {
    match a
    case MainStep(ok) => EmulatorStep(s, ok)
    case TrapReturns(p, ok) => TrapStep(s, p, ok)
    case TaskTakes(p) => TakeStep(s, p)
    case TaskStep(p) => SerialTaskStep(s, p)
    case TaskGets(c) => GetStep(s, c)
    case TaskQuits(p) => QuitStep(s, p)
    case DeviceReplies(c, out) => DeviceStep(s, c, out)
    case _ => CallStep(s, a)
  }

  function Run(s: State, actions: seq<Action>): (t: State)
    requires Shape(s)
    ensures Shape(t)
    decreases |actions|
  {
    if actions == [] then s else Next(Run(s, actions[..|actions| - 1]), actions[|actions| - 1])
  }
}
