/** The Time Manager: src/timer.cpp, with the time conversions of src/AmigaOS-4/timer_amigaos4.cpp.
    Times are microseconds since the epoch of the host. */
module Timer {
  import opened Machine

  // ---- Macintosh time values ----

  /** What a Macintosh time value means: positive milliseconds or negative microseconds. */
  function Denoted(m: int): nat { if m > 0 then 1000 * m else -m }

  /** A 32-bit value as the host's signed integers hold it. */
  function Wrap32(v: int): int { (v + TWO31) % TWO32 - TWO31 }

  datatype TimeVal = TimeVal(seconds: nat, micros: nat)

  /** timer_mac2host_time. */
  function MacToHost(m: int): TimeVal
    requires -TWO31 <= m < TWO31
  {
    if m > 0 then TimeVal(m / 1000, m % 1000 * 1000)
    else
      var n := Wrap32(-m);
      TimeVal(Quot(n, 1_000_000) % TWO32, Rem(n, 1_000_000) % TWO32)
  }

  function Micros(t: TimeVal): nat { t.seconds * 1_000_000 + t.micros }

  /** timer_host2mac_time. The seconds are unsigned, so the test for negative times never holds. */
  function HostToMac(t: TimeVal): int {
    var n: int := Micros(t);
    if n > TWO31 - 1 then Wrap32(n / 1000) else -n
  }

  lemma MillisecondsKept(m: int)
    requires 0 < m < TWO31
    ensures Micros(MacToHost(m)) == 1000 * m && Denoted(HostToMac(MacToHost(m))) == 1000 * m
  {
    hide HostToMac;
    var t := MacToHost(m);
    assert t == TimeVal(m / 1000, m % 1000 * 1000);
    assert Micros(t) == 1000 * m;
    if 1000 * m < TWO31 {
      SmallTime(t);
    } else {
      LargeTime(t, m);
    }
  }

  lemma LargeTime(t: TimeVal, m: int)
    requires Micros(t) == 1000 * m >= TWO31 && m < TWO31
    ensures HostToMac(t) == m
  {
    assert 1000 * m / 1000 == m;
  }

  lemma MicrosecondsKept(m: int)
    requires -TWO31 < m <= 0
    ensures Micros(MacToHost(m)) == -m && Denoted(HostToMac(MacToHost(m))) == -m
  {
    hide HostToMac;
    assert Wrap32(-m) == -m;
    var t := MacToHost(m);
    assert t == TimeVal(-m / 1_000_000, -m % 1_000_000);
    assert Micros(t) == -m;
    SmallTime(t);
  }

  lemma SmallTime(t: TimeVal)
    requires Micros(t) < TWO31
    ensures HostToMac(t) == -(Micros(t) as int)
  {
  }

  lemma LeastLost()
    ensures Denoted(HostToMac(MacToHost(-TWO31))) != TWO31
  {
    assert Wrap32(TWO31) == -TWO31;
    assert Quot(-TWO31, 1_000_000) == -2147 && Rem(-TWO31, 1_000_000) == -483648;
    assert MacToHost(-TWO31) == TimeVal(4_294_965_149, 4_294_483_648);
  }

  /** Converting to host time and back keeps the meaning of every value but the least one. */
  lemma ConversionKeepsMeaning(m: int)
    requires -TWO31 <= m < TWO31
    ensures Denoted(HostToMac(MacToHost(m))) == Denoted(m) <==> m != -TWO31
    ensures m != -TWO31 ==> Micros(MacToHost(m)) == Denoted(m)
  {
    hide MacToHost, HostToMac, Micros;
    if m > 0 {
      MillisecondsKept(m);
    } else if m > -TWO31 {
      MicrosecondsKept(m);
    } else {
      LeastLost();
    }
  }

  // ---- The state ----

  const NUM_DESCS := 64

  datatype TMDesc = TMDesc(task: nat, wakeup: nat, inUse: bool)

  /** The fields of a TMTask in Macintosh memory: bits 15, 14 and 13 of qType and the rest of it,
      tmWakeUp and tmCount. */
  datatype TMTask = TMTask(active: bool, extended: bool, revised: bool, low: nat, wakeUp: nat, count: int)

  datatype Event =
    | Inserted(tm: nat)
    | Removed(tm: nat)
    | Primed(tm: nat, delay: nat, wakeup: nat, now: nat, continued: bool)
    | Fired(tm: nat, now: nat)
    | Reset

  /** An interrupt in progress: the time it read and the next descriptor it looks at. */
  datatype Frame = Frame(now: nat, i: nat)

  datatype State = State(desc: seq<TMDesc>, tasks: map<nat, TMTask>, stack: seq<Frame>, log: seq<Event>)

  function Task(tasks: map<nat, TMTask>, tm: nat): TMTask {
    if tm in tasks then tasks[tm] else TMTask(false, false, false, 0, 0, 0)
  }

  function FirstFree(desc: seq<TMDesc>): (i: nat)
    ensures i <= |desc| && (i < |desc| ==> !desc[i].inUse) && forall j :: 0 <= j < i ==> desc[j].inUse
  {
    if desc == [] || !desc[0].inUse then 0 else FirstFree(desc[1..]) + 1
  }

  predicate Owns(d: TMDesc, tm: nat) { d.inUse && d.task == tm }

  function FindDesc(desc: seq<TMDesc>, tm: nat): (i: nat)
    ensures i <= |desc| && (i < |desc| ==> Owns(desc[i], tm)) && forall j :: 0 <= j < i ==> !Owns(desc[j], tm)
  {
    if desc == [] || Owns(desc[0], tm) then 0 else FindDesc(desc[1..], tm) + 1
  }

  // ---- The operations ----

  function Mark(s: State, e: Event): State { s.(log := s.log + [e]) }

  function InsTask(t: TMTask, trap: nat): TMTask {
    t.(active := false, extended := trap / 0x400 % 2 == 1, revised := trap / 0x200 % 2 == 1)
  }

  function InsTime(s: State, tm: nat, trap: nat): State {
    var t := s.(tasks := s.tasks[tm := InsTask(Task(s.tasks, tm), trap)]);
    if FindDesc(s.desc, tm) < |s.desc| then Mark(t, Inserted(tm))
    else
      var i := FirstFree(s.desc);
      Mark(if i < |s.desc| then t.(desc := s.desc[i := s.desc[i].(task := tm, inUse := true)]) else t, Inserted(tm))
  }

  /** What RmvTime leaves of a task: not active, and the time that remained. When the wakeup time has
      passed the subtraction goes below zero, and what is stored means nothing. */
  function RmvTask(t: TMTask, wakeup: nat, now: nat, nonsense: int): TMTask {
    if !t.active then t.(count := 0)
    else if wakeup >= now then t.(active := false, count := HostToMac(TimeVal((wakeup - now) / 1_000_000, (wakeup - now) % 1_000_000)))
    else t.(active := false, count := nonsense)
  }

  function RmvTime(s: State, tm: nat, now: nat, nonsense: int): State {
    var i := FindDesc(s.desc, tm);
    if i == |s.desc| then s
    else
      Mark(s.(desc := s.desc[i := s.desc[i].(inUse := false)],
              tasks := s.tasks[tm := RmvTask(Task(s.tasks, tm), s.desc[i].wakeup, now, nonsense)]),
           Removed(tm))
  }

  const SCHEDULED := 0x1234_5678

  function Continues(t: TMTask): bool { t.extended && t.wakeUp != 0 }

  function PrimeTime(s: State, tm: nat, time: int, now: nat): State
    requires -TWO31 <= time < TWO31
  {
    var i := FindDesc(s.desc, tm);
    if i == |s.desc| then s
    else
      var t, delay := Task(s.tasks, tm), Micros(MacToHost(time));
      var wakeup := if Continues(t) then s.desc[i].wakeup + delay else now + delay;
      Mark(s.(desc := s.desc[i := s.desc[i].(wakeup := wakeup)],
              tasks := s.tasks[tm := t.(active := true, wakeUp := if t.extended then SCHEDULED else t.wakeUp)]),
           Primed(tm, delay, wakeup, now, Continues(t)))
  }

  function TimerReset(s: State): State {
    Mark(s.(desc := seq(|s.desc|, i requires 0 <= i < |s.desc| => s.desc[i].(inUse := false))), Reset)
  }

  /** TimerInterrupt looks at the descriptors one by one; a callback runs between two looks. */
  function Scan(s: State): State
    requires s.stack != []
  {
    var top := |s.stack| - 1;
    var f := s.stack[top];
    if f.i >= |s.desc| then s.(stack := s.stack[..top])
    else
      var t := s.(stack := s.stack[top := f.(i := f.i + 1)]);
      var d := s.desc[f.i];
      if d.inUse && Task(s.tasks, d.task).active && d.wakeup < f.now then
        Mark(t.(tasks := s.tasks[d.task := Task(s.tasks, d.task).(active := false)]), Fired(d.task, f.now))
      else t
  }

  /** Steps of the emulator and of Macintosh code. Callbacks may do anything, be interrupted
      themselves, and set tmWakeUp. */
  datatype Action =
    | Ins(tm: nat, trap: nat)
    | Rmv(tm: nat, now: nat, nonsense: int)
    | Prime(tm: nat, time: int, now: nat)
    | Interrupt(now: nat)
    | Look
    | SetWakeUp(tm: nat, wakeUp: nat)
    | ResetAll

  function Next(s: State, a: Action): State {
    match a
    case Ins(tm, trap) => InsTime(s, tm, trap)
    case Rmv(tm, now, nonsense) => RmvTime(s, tm, now, nonsense)
    case Prime(tm, time, now) => if -TWO31 <= time < TWO31 then PrimeTime(s, tm, time, now) else s
    case Interrupt(now) => s.(stack := s.stack + [Frame(now, 0)])
    case Look => if s.stack == [] then s else Scan(s)
    case SetWakeUp(tm, v) => s.(tasks := s.tasks[tm := Task(s.tasks, tm).(wakeUp := v)])
    case ResetAll => TimerReset(s)
  }

  function Initial(tasks: map<nat, TMTask>): State {
    State(seq(NUM_DESCS, _ => TMDesc(0, 0, false)), tasks, [], [])
  }

  function Run(s: State, actions: seq<Action>): State
    decreases |actions|
  {
    if actions == [] then s else Next(Run(s, actions[..|actions| - 1]), actions[|actions| - 1])
  }

  // ---- What the history says ----

  /** The wakeup time tm was last primed with since it was inserted. */
  function LastPrime(log: seq<Event>, tm: nat): Option<nat> {
    if log == [] then None
    else
      var e, front := log[|log| - 1], log[..|log| - 1];
      match e
      case Primed(t, _, w, _, _) => if t == tm then Some(w) else LastPrime(front, tm)
      case Removed(t) => if t == tm then None else LastPrime(front, tm)
      case Reset => None
      case _ => LastPrime(front, tm)
  }

  /** Whether tm was primed and has not fired, been inserted or been removed since. */
  function Armed(log: seq<Event>, tm: nat): bool {
    if log == [] then false
    else
      var e, front := log[|log| - 1], log[..|log| - 1];
      match e
      case Primed(t, _, _, _, _) => t == tm || Armed(front, tm)
      case Reset => false
      case _ => e.tm != tm && Armed(front, tm)
  }

  /** A task fires only when armed, after its wakeup time; a continued delay starts at the last
      wakeup time, any other at the time of the call. */
  predicate GoodEvent(before: seq<Event>, e: Event) {
    match e
    case Fired(tm, now) => Armed(before, tm) && LastPrime(before, tm).Some? && LastPrime(before, tm).value < now
    case Primed(tm, delay, w, now, continued) =>
      if !continued then w == now + delay
      else LastPrime(before, tm).Some? ==> w == LastPrime(before, tm).value + delay
    case _ => true
  }

  predicate GoodLog(log: seq<Event>) { forall k :: 0 <= k < |log| ==> GoodEvent(log[..k], log[k]) }

  // ---- The invariant ----

  predicate OneDesc(desc: seq<TMDesc>) {
    forall i, j :: 0 <= i < j < |desc| ==> !(desc[i].inUse && desc[j].inUse && desc[i].task == desc[j].task)
  }

  predicate DescOk(d: TMDesc, tasks: map<nat, TMTask>, log: seq<Event>) {
    d.inUse ==>
      && (LastPrime(log, d.task).Some? ==> d.wakeup == LastPrime(log, d.task).value)
      && (Task(tasks, d.task).active <==> Armed(log, d.task))
      && (Armed(log, d.task) ==> LastPrime(log, d.task).Some?)
  }

  /** Only tasks with a descriptor have been primed. */
  ghost predicate PrimedInstalled(desc: seq<TMDesc>, log: seq<Event>) {
    forall tm: nat :: LastPrime(log, tm).Some? ==> FindDesc(desc, tm) < |desc|
  }

  ghost predicate Inv(s: State) {
    && OneDesc(s.desc) && GoodLog(s.log) && PrimedInstalled(s.desc, s.log)
    && (forall i :: 0 <= i < |s.desc| ==> DescOk(s.desc[i], s.tasks, s.log))
  }

  lemma {:induction false} LogGrows(log: seq<Event>, e: Event)
    requires GoodLog(log) && GoodEvent(log, e)
    ensures GoodLog(log + [e])
  {
    hide GoodEvent;
    var l := log + [e];
    forall k | 0 <= k < |l|
      ensures GoodEvent(l[..k], l[k])
    {
      assert l[..k] == log[..k];
      assert k == |log| ==> log[..k] == log;
    }
  }

  lemma {:induction false} LastGrows(log: seq<Event>, e: Event, tm: nat)
    ensures LastPrime(log + [e], tm) ==
      if e.Primed? && e.tm == tm then Some(e.wakeup) else if e.Reset? || (e.Removed? && e.tm == tm) then None
      else LastPrime(log, tm)
    ensures Armed(log + [e], tm) ==
      if e.Primed? && e.tm == tm then true else if e.Reset? || e.tm == tm then false else Armed(log, tm)
  {
    assert (log + [e])[..|log + [e]| - 1] == log;
  }

  // ---- Every step keeps it ----

  lemma {:induction false} FoundSome(desc: seq<TMDesc>, i: nat, tm: nat)
    requires i < |desc| && Owns(desc[i], tm)
    ensures FindDesc(desc, tm) < |desc|
  {
    hide FindDesc;
    assert Owns(desc[i], tm);
  }

  /** Owners of descriptors stay findable when only one descriptor changes, for another task. */
  lemma {:induction false} StillFound(desc: seq<TMDesc>, i: nat, d: TMDesc, tm: nat)
    requires i < |desc| && FindDesc(desc, tm) < |desc| && (Owns(desc[i], tm) ==> Owns(d, tm))
    ensures FindDesc(desc[i := d], tm) < |desc|
  {
    hide FindDesc;
    var j := FindDesc(desc, tm);
    FoundSome(desc[i := d], j, tm);
  }

  lemma {:induction false} InsKeeps(s: State, tm: nat, trap: nat)
    requires Inv(s)
    ensures Inv(InsTime(s, tm, trap))
  {
    hide FindDesc, FirstFree, LastPrime, Armed, GoodLog;
    var t := InsTime(s, tm, trap);
    LogGrows(s.log, Inserted(tm));
    forall x: nat
      ensures LastPrime(t.log, x) == LastPrime(s.log, x)
      ensures Armed(t.log, x) == (Armed(s.log, x) && x != tm)
    {
      LastGrows(s.log, Inserted(tm), x);
    }
    var k, i := FindDesc(s.desc, tm), FirstFree(s.desc);
    if k == |s.desc| && i < |s.desc| {
      forall j | 0 <= j < |s.desc|
        ensures !Owns(s.desc[j], tm)
      {
      }
      forall x: nat | LastPrime(s.log, x).Some?
        ensures FindDesc(t.desc, x) < |t.desc|
      {
        StillFound(s.desc, i, t.desc[i], x);
      }
    }
  }

  lemma {:induction false} RmvKeeps(s: State, tm: nat, now: nat, nonsense: int)
    requires Inv(s)
    ensures Inv(RmvTime(s, tm, now, nonsense))
  {
    hide FindDesc, LastPrime, Armed, GoodLog, HostToMac;
    var i := FindDesc(s.desc, tm);
    if i < |s.desc| {
      var t := RmvTime(s, tm, now, nonsense);
      LogGrows(s.log, Removed(tm));
      forall x: nat
        ensures LastPrime(t.log, x) == if x == tm then None else LastPrime(s.log, x)
        ensures Armed(t.log, x) == (Armed(s.log, x) && x != tm)
      {
        LastGrows(s.log, Removed(tm), x);
      }
      forall x: nat | LastPrime(s.log, x).Some? && x != tm
        ensures FindDesc(t.desc, x) < |t.desc|
      {
        StillFound(s.desc, i, t.desc[i], x);
      }
    }
  }

  lemma {:induction false} PrimeKeeps(s: State, tm: nat, time: int, now: nat)
    requires Inv(s) && -TWO31 <= time < TWO31
    ensures Inv(PrimeTime(s, tm, time, now))
  {
    hide FindDesc, LastPrime, Armed, GoodLog, MacToHost, Micros;
    var i := FindDesc(s.desc, tm);
    if i < |s.desc| {
      var t := PrimeTime(s, tm, time, now);
      var e := t.log[|s.log|];
      assert t.log == s.log + [e];
      assert DescOk(s.desc[i], s.tasks, s.log);
      LogGrows(s.log, e);
      forall x: nat
        ensures LastPrime(t.log, x) == if x == tm then Some(e.wakeup) else LastPrime(s.log, x)
        ensures Armed(t.log, x) == (Armed(s.log, x) || x == tm)
      {
        LastGrows(s.log, e, x);
      }
      forall x: nat | LastPrime(t.log, x).Some?
        ensures FindDesc(t.desc, x) < |t.desc|
      {
        StillFound(s.desc, i, t.desc[i], x);
      }
    }
  }

  lemma {:induction false} ScanKeeps(s: State)
    requires Inv(s) && s.stack != []
    ensures Inv(Scan(s))
  {
    hide FindDesc, LastPrime, Armed, GoodLog;
    var f := s.stack[|s.stack| - 1];
    if f.i < |s.desc| {
      var d := s.desc[f.i];
      assert DescOk(d, s.tasks, s.log);
      if d.inUse && Task(s.tasks, d.task).active && d.wakeup < f.now {
        var t := Scan(s);
        var e := Fired(d.task, f.now);
        LogGrows(s.log, e);
        forall x: nat
          ensures LastPrime(t.log, x) == LastPrime(s.log, x)
          ensures Armed(t.log, x) == (Armed(s.log, x) && x != d.task)
        {
          LastGrows(s.log, e, x);
        }
      }
    }
  }

  lemma {:induction false} ResetKeeps(s: State)
    requires Inv(s)
    ensures Inv(TimerReset(s))
  {
    hide FindDesc, LastPrime, Armed, GoodLog;
    LogGrows(s.log, Reset);
    forall x: nat
      ensures LastPrime(s.log + [Reset], x) == None
    {
      LastGrows(s.log, Reset, x);
    }
  }

  lemma {:induction false} StepKeeps(s: State, a: Action)
    requires Inv(s)
    ensures Inv(Next(s, a))
  {
    hide InsTime, RmvTime, PrimeTime, Scan, TimerReset, LastPrime, Armed, FindDesc, GoodLog, OneDesc;
    match a
    case Ins(tm, trap) => InsKeeps(s, tm, trap);
    case Rmv(tm, now, nonsense) => RmvKeeps(s, tm, now, nonsense);
    case Prime(tm, time, now) => if -TWO31 <= time < TWO31 { PrimeKeeps(s, tm, time, now); }
    case Look => if s.stack != [] { ScanKeeps(s); }
    case ResetAll => ResetKeeps(s);
    case _ =>
  }

  lemma {:induction false} Reachable(tasks: map<nat, TMTask>, actions: seq<Action>)
    ensures Inv(Run(Initial(tasks), actions))
    decreases |actions|
  {
    hide Inv, Next, Initial;
    if actions == [] {
      StartsGood(tasks);
    } else {
      Reachable(tasks, actions[..|actions| - 1]);
      StepKeeps(Run(Initial(tasks), actions[..|actions| - 1]), actions[|actions| - 1]);
    }
  }

  lemma {:induction false} StartsGood(tasks: map<nat, TMTask>)
    ensures Inv(Initial(tasks))
  {
  }

  // ---- What it means ----

  /** At every moment a task has at most one descriptor in use. */
  lemma {:induction false} OneDescriptorPerTask(tasks: map<nat, TMTask>, actions: seq<Action>, i: nat, j: nat)
    requires var desc := Run(Initial(tasks), actions).desc;
      i < |desc| && j < |desc| && desc[i].inUse && desc[j].inUse && desc[i].task == desc[j].task
    ensures i == j
  {
    hide Run, Initial;
    Reachable(tasks, actions);
  }

  /** Over any run, with callbacks inserting, removing and priming as they like, a task fires only
      after its wakeup time and continued delays do not drift. */
  lemma {:induction false} HistoryIsGood(tasks: map<nat, TMTask>, actions: seq<Action>)
    ensures GoodLog(Run(Initial(tasks), actions).log)
  {
    hide Run, Initial, GoodLog;
    Reachable(tasks, actions);
  }

  /** A task fires at most once for each PrimeTime: between two firings it was primed. */
  lemma {:induction false} FiresOncePerPrime(log: seq<Event>, i: nat, j: nat)
    requires GoodLog(log) && i < j < |log| && log[i].Fired? && log[j].Fired? && log[i].tm == log[j].tm
    ensures exists k :: i < k < j && log[k].Primed? && log[k].tm == log[i].tm
  {
    hide Armed, LastPrime;
    assert GoodEvent(log[..j], log[j]);
    ArmedBy(log, i, j, log[i].tm);
  }

  /** A task that fired is armed again only by a later PrimeTime. */
  lemma {:induction false} ArmedBy(log: seq<Event>, i: nat, n: nat, tm: nat)
    requires i < n <= |log| && log[i].Fired? && log[i].tm == tm && Armed(log[..n], tm)
    ensures exists k :: i < k < n && log[k].Primed? && log[k].tm == tm
    decreases n
  {
    hide Armed;
    LastGrows(log[..n - 1], log[n - 1], tm);
    assert log[..n] == log[..n - 1] + [log[n - 1]];
    if !(log[n - 1].Primed? && log[n - 1].tm == tm) {
      assert i < n - 1;
      ArmedBy(log, i, n - 1, tm);
    }
  }

  // ---- No drift ----

  /** tm owns descriptor i, is due at w, and has tmWakeUp set as an extended task. */
  predicate Scheduled(s: State, tm: nat, i: nat, w: nat) {
    i < |s.desc| && Owns(s.desc[i], tm) && s.desc[i].wakeup == w && Continues(Task(s.tasks, tm))
  }

  /** The action leaves tm inserted and its tmWakeUp set. */
  predicate KeepsSchedule(a: Action, tm: nat) {
    match a
    case Ins(t, _) => t != tm
    case Rmv(t, _, _) => t != tm
    case SetWakeUp(t, v) => t != tm || v != 0
    case ResetAll => false
    case _ => true
  }

  /** The delay that an action adds to the schedule of tm. */
  function AddedDelay(a: Action, tm: nat): nat {
    if a.Prime? && a.tm == tm && -TWO31 <= a.time < TWO31 then Micros(MacToHost(a.time)) else 0
  }

  function TotalDelay(actions: seq<Action>, tm: nat): nat
    decreases |actions|
  {
    if actions == [] then 0 else TotalDelay(actions[..|actions| - 1], tm) + AddedDelay(actions[|actions| - 1], tm)
  }

  /** One step moves the wakeup time by the delay it adds, and by nothing else. */
  lemma {:induction false} ScheduleStep(s: State, a: Action, tm: nat, i: nat, w: nat)
    requires OneDesc(s.desc) && Scheduled(s, tm, i, w) && KeepsSchedule(a, tm)
    ensures Scheduled(Next(s, a), tm, i, w + AddedDelay(a, tm))
  {
    hide FindDesc, FirstFree, Micros, MacToHost, HostToMac, InsTask, OneDesc;
    OwnerFound(s.desc, i, tm);
  }

  lemma {:induction false} OwnerFound(desc: seq<TMDesc>, i: nat, tm: nat)
    requires OneDesc(desc) && i < |desc| && Owns(desc[i], tm)
    ensures FindDesc(desc, tm) == i
  {
    hide FindDesc;
    assert desc[i].inUse && desc[i].task == tm;
    FoundSome(desc, i, tm);
  }

  lemma {:induction false} ScheduleRuns(s: State, actions: seq<Action>, tm: nat, i: nat, w: nat)
    requires Inv(s) && Scheduled(s, tm, i, w) && forall k :: 0 <= k < |actions| ==> KeepsSchedule(actions[k], tm)
    ensures Inv(Run(s, actions)) && Scheduled(Run(s, actions), tm, i, w + TotalDelay(actions, tm))
    decreases |actions|
  {
    hide Inv, Next, Scheduled, KeepsSchedule, AddedDelay;
    if actions != [] {
      var n := |actions| - 1;
      ScheduleRuns(s, actions[..n], tm, i, w);
      var t := Run(s, actions[..n]);
      assert OneDesc(t.desc) by { InvOneDesc(t); }
      ScheduleStep(t, actions[n], tm, i, w + TotalDelay(actions[..n], tm));
      StepKeeps(t, actions[n]);
    }
  }

  lemma InvOneDesc(s: State)
    requires Inv(s)
    ensures OneDesc(s.desc)
  {
  }

  /** In any reachable state, an extended task is inserted and tmWakeUp is zero; then it is primed. Until it
      is inserted anew or removed, or tmWakeUp is cleared, or the emulator is reset, its descriptor is due
      at the time of that call plus its delay plus the delays of all later calls, whatever the callbacks
      do and however late the interrupts come. */
  lemma {:induction false} NoDrift(tasks: map<nat, TMTask>, before: seq<Action>, tm: nat, time: int, now: nat, after: seq<Action>)
    requires -TWO31 <= time < TWO31
    requires var s := Run(Initial(tasks), before);
      FindDesc(s.desc, tm) < |s.desc| && Task(s.tasks, tm).extended && Task(s.tasks, tm).wakeUp == 0
    requires forall k :: 0 <= k < |after| ==> KeepsSchedule(after[k], tm)
    ensures var s := Run(Initial(tasks), before);
      var t := Run(Next(s, Prime(tm, time, now)), after);
      var i := FindDesc(t.desc, tm);
      && i < |t.desc| && i == FindDesc(s.desc, tm)
      && t.desc[i].wakeup == now + Micros(MacToHost(time)) + TotalDelay(after, tm)
  {
    hide Run, Initial, FindDesc, Micros, MacToHost, Inv, KeepsSchedule, TotalDelay;
    Reachable(tasks, before);
    var s := Run(Initial(tasks), before);
    var i := FindDesc(s.desc, tm);
    StepKeeps(s, Prime(tm, time, now));
    var w := now + Micros(MacToHost(time));
    ScheduleRuns(Next(s, Prime(tm, time, now)), after, tm, i, w);
    var t := Run(Next(s, Prime(tm, time, now)), after);
    InvOneDesc(t);
    OwnerFound(t.desc, i, tm);
  }

  /** RmvTime of a task that is not yet due stores the time that remains, to the microsecond while 31
      bits hold it and otherwise in whole milliseconds. */
  lemma {:induction false} RemainingTime(t: TMTask, wakeup: nat, now: nat, nonsense: int)
    requires t.active && now <= wakeup && wakeup - now < 1000 * TWO31
    ensures var left := wakeup - now;
      Denoted(RmvTask(t, wakeup, now, nonsense).count) == if left < TWO31 then left else left / 1000 * 1000
  {
    var left := wakeup - now;
    assert left / 1_000_000 * 1_000_000 + left % 1_000_000 == left;
  }

  // ---- The methods ----

  class TimeManager {
    const desc: array<TMDesc>
    var tasks: map<nat, TMTask>
    ghost var log: seq<Event>

    constructor (tasks: map<nat, TMTask>)
      ensures fresh(desc) && this.tasks == tasks && desc[..] == Initial(tasks).desc && log == []
    {
      desc := new TMDesc[NUM_DESCS](_ => TMDesc(0, 0, false));
      this.tasks, log := tasks, [];
    }

    /** The state as a value, with the interrupts in progress. */
    ghost function View(stack: seq<Frame>): State
      reads this, desc
    {
      State(desc[..], tasks, stack, log)
    }

    /** alloc_desc. */
    method AllocDesc(tm: nat) returns (i: nat)
      modifies desc
      ensures i == FirstFree(old(desc[..]))
      ensures desc[..] == if i == desc.Length then old(desc[..]) else old(desc[..])[i := old(desc[..])[i].(task := tm, inUse := true)]
    {
      hide FirstFree;
      i := 0;
      while i < desc.Length
        invariant 0 <= i <= desc.Length && desc[..] == old(desc[..])
        invariant forall j :: 0 <= j < i ==> desc[j].inUse
      {
        if !desc[i].inUse {
          FreeIs(desc[..], i);
          desc[i] := desc[i].(task := tm, inUse := true);
          return;
        }
        i := i + 1;
      }
      FreeIs(desc[..], i);
    }

    /** find_desc. */
    method Find(tm: nat) returns (i: nat)
      ensures i == FindDesc(desc[..], tm)
    {
      hide FindDesc;
      i := 0;
      while i < desc.Length
        invariant 0 <= i <= desc.Length && forall j :: 0 <= j < i ==> !Owns(desc[j], tm)
      {
        if desc[i].inUse && desc[i].task == tm {
          break;
        }
        i := i + 1;
      }
      FoundIs(desc[..], tm, i);
    }

    method Insert(tm: nat, trap: nat)
      modifies this, desc
      ensures View([]) == InsTime(old(View([])), tm, trap)
    {
      hide FindDesc, FirstFree;
      tasks := tasks[tm := InsTask(Task(tasks, tm), trap)];
      var i := Find(tm);
      if i == desc.Length {
        i := AllocDesc(tm);
      }
      log := log + [Inserted(tm)];
    }

    method Remove(tm: nat, now: nat, nonsense: int)
      modifies this, desc
      ensures View([]) == RmvTime(old(View([])), tm, now, nonsense)
    {
      hide FindDesc, HostToMac;
      var i := Find(tm);
      if i == desc.Length {
        return;
      }
      ghost var was := desc[..];
      tasks := tasks[tm := RmvTask(Task(tasks, tm), desc[i].wakeup, now, nonsense)];
      desc[i] := desc[i].(inUse := false);
      assert desc[..] == was[i := was[i].(inUse := false)];
      log := log + [Removed(tm)];
    }

    method PrimeTask(tm: nat, time: int, now: nat)
      requires -TWO31 <= time < TWO31
      modifies this, desc
      ensures View([]) == PrimeTime(old(View([])), tm, time, now)
    {
      hide FindDesc, MacToHost, Micros;
      var i := Find(tm);
      if i == desc.Length {
        return;
      }
      ghost var was := desc[..];
      var t := Task(tasks, tm);
      var delay := Micros(MacToHost(time));
      ghost var continued := Continues(t);
      if t.extended {
        if t.wakeUp != 0 {
          desc[i] := desc[i].(wakeup := desc[i].wakeup + delay);
        } else {
          desc[i] := desc[i].(wakeup := now + delay);
        }
        t := t.(wakeUp := SCHEDULED);
      } else {
        desc[i] := desc[i].(wakeup := now);
        desc[i] := desc[i].(wakeup := desc[i].wakeup + delay);
      }
      assert desc[..] == was[i := was[i].(wakeup := desc[i].wakeup)];
      tasks := tasks[tm := t.(active := true)];
      log := log + [Primed(tm, delay, desc[i].wakeup, now, continued)];
    }

    /** One round of the loop of TimerInterrupt; gives the task to be called, if it has expired. */
    method LookAt(i: nat, now: nat) returns (expired: bool, tm: nat)
      requires i < desc.Length
      modifies this
      ensures View([Frame(now, i + 1)]) == Scan(old(View([Frame(now, i)])))
      ensures expired == (|log| > |old(log)|) && (expired ==> tm == desc[i].task)
    {
      tm := desc[i].task;
      expired := desc[i].inUse && Task(tasks, tm).active && desc[i].wakeup < now;
      if expired {
        tasks := tasks[tm := Task(tasks, tm).(active := false)];
        log := log + [Fired(tm, now)];
      }
    }
  }

  lemma {:induction false} FreeIs(desc: seq<TMDesc>, i: nat)
    requires i <= |desc| && (i < |desc| ==> !desc[i].inUse) && forall j :: 0 <= j < i ==> desc[j].inUse
    ensures FirstFree(desc) == i
  {
    hide FirstFree;
    var k := FirstFree(desc);
    assert k < |desc| ==> !desc[k].inUse;
    assert i < |desc| ==> !desc[i].inUse;
  }

  lemma {:induction false} FoundIs(desc: seq<TMDesc>, tm: nat, i: nat)
    requires i <= |desc| && (i < |desc| ==> Owns(desc[i], tm)) && forall j :: 0 <= j < i ==> !Owns(desc[j], tm)
    ensures FindDesc(desc, tm) == i
  {
    hide FindDesc;
    var k := FindDesc(desc, tm);
    assert k < |desc| ==> Owns(desc[k], tm);
    assert i < |desc| ==> Owns(desc[i], tm);
  }
}
