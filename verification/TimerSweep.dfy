/** What an undisturbed run of TimerInterrupt does: it calls every task that is due, once, and no other. */
module TimerSweep {
  import opened Timer

  /** The loop looks at the next k descriptors. */
  function Looks(s: State, k: nat): State
    decreases k
  {
    if k == 0 then s else Looks(Next(s, Look), k - 1)
  }

  /** Descriptor i makes tm be called at `now`. */
  predicate DueAt(s: State, i: nat, tm: nat, now: nat)
    requires i < |s.desc|
  {
    s.desc[i].inUse && s.desc[i].task == tm && s.desc[i].wakeup < now && tm in s.tasks && s.tasks[tm].active
  }

  predicate DueFrom(s: State, i: nat, tm: nat, now: nat) {
    exists j :: i <= j < |s.desc| && DueAt(s, j, tm, now)
  }

  predicate Due(s: State, tm: nat, now: nat) { DueFrom(s, 0, tm, now) }

  /** From s on exactly the tasks due from descriptor i on were called, once each, and are no longer active. */
  ghost predicate Called(s: State, t: State, i: nat, now: nat) {
    && t.desc == s.desc && s.log <= t.log
    && var fired := t.log[|s.log|..];
    && (forall k :: 0 <= k < |fired| ==> fired[k].Fired? && fired[k].now == now)
    && (forall tm: nat :: multiset(fired)[Fired(tm, now)] == if DueFrom(s, i, tm, now) then 1 else 0)
    && (forall tm: nat :: tm in t.tasks <==> tm in s.tasks)
    && (forall tm: nat :: tm in s.tasks ==>
          t.tasks[tm] == if DueFrom(s, i, tm, now) then s.tasks[tm].(active := false) else s.tasks[tm])
  }

  /** The frame of an interrupt, and the descriptor it has come to. */
  ghost predicate InFrame(s: State, below: seq<Frame>, now: nat, i: nat) {
    i <= |s.desc| && s.stack == below + [Frame(now, i)]
  }

  lemma OneLook(s: State, below: seq<Frame>, now: nat, i: nat)
    requires InFrame(s, below, now, i) && i < |s.desc|
    ensures var t := Next(s, Look);
      && InFrame(t, below, now, i + 1) && t.desc == s.desc
      && var tm := s.desc[i].task;
      && if DueAt(s, i, tm, now)
         then t.log == s.log + [Fired(tm, now)] && t.tasks == s.tasks[tm := s.tasks[tm].(active := false)]
         else t.log == s.log && t.tasks == s.tasks
  {
    assert s.stack[|s.stack| - 1] == Frame(now, i);
  }

  lemma LastLook(s: State, below: seq<Frame>, now: nat)
    requires InFrame(s, below, now, |s.desc|)
    ensures Next(s, Look) == s.(stack := below)
  {
    assert s.stack[|s.stack| - 1] == Frame(now, |s.desc|);
  }

  lemma CalledNothing(s: State, t: State, now: nat)
    requires t == s.(stack := t.stack)
    ensures Called(s, t, |s.desc|, now)
  {
    assert t.log[|s.log|..] == [];
  }

  /** What is due behind descriptor i is not changed by looking at it. */
  lemma DueBehind(s: State, u: State, i: nat, tm: nat, now: nat)
    requires i < |s.desc| && OneDesc(s.desc) && u.desc == s.desc
    requires var d := s.desc[i].task;
      u.tasks == if DueAt(s, i, d, now) then s.tasks[d := s.tasks[d].(active := false)] else s.tasks
    ensures DueFrom(s, i, tm, now) <==> DueAt(s, i, tm, now) || DueFrom(u, i + 1, tm, now)
    ensures DueAt(s, i, tm, now) ==> !DueFrom(u, i + 1, tm, now)
  {
    if DueFrom(s, i, tm, now) && !DueAt(s, i, tm, now) {
      var j :| i <= j < |s.desc| && DueAt(s, j, tm, now);
      assert DueAt(u, j, tm, now);
    }
    if DueFrom(u, i + 1, tm, now) {
      var j :| i + 1 <= j < |u.desc| && DueAt(u, j, tm, now);
      assert DueAt(s, j, tm, now);
    }
  }

  lemma OnlyItsTask(s: State, i: nat, now: nat)
    requires i < |s.desc|
    ensures forall tm: nat :: DueAt(s, i, tm, now) ==> tm == s.desc[i].task && tm in s.tasks
  {
  }

  lemma CalledThis(s: State, u: State, t: State, i: nat, now: nat)
    requires i < |s.desc| && OneDesc(s.desc) && u.desc == s.desc && Called(u, t, i + 1, now)
    requires DueAt(s, i, s.desc[i].task, now)
    requires var tm := s.desc[i].task;
      u.log == s.log + [Fired(tm, now)] && u.tasks == s.tasks[tm := s.tasks[tm].(active := false)]
    ensures Called(s, t, i, now)
  {
    hide DueFrom, OneDesc, DueAt;
    var d := s.desc[i].task;
    OnlyItsTask(s, i, now);
    forall tm: nat
      ensures DueFrom(s, i, tm, now) <==> tm == d || DueFrom(u, i + 1, tm, now)
      ensures !DueFrom(u, i + 1, d, now)
    {
      DueBehind(s, u, i, tm, now);
      DueBehind(s, u, i, d, now);
    }
    var rest := t.log[|u.log|..];
    assert t.log[|s.log|..] == [Fired(d, now)] + rest;
  }

  lemma CalledNext(s: State, u: State, t: State, i: nat, now: nat)
    requires i < |s.desc| && OneDesc(s.desc) && u.desc == s.desc && Called(u, t, i + 1, now)
    requires !DueAt(s, i, s.desc[i].task, now) && u.log == s.log && u.tasks == s.tasks
    ensures Called(s, t, i, now)
  {
    hide DueFrom, OneDesc, DueAt;
    OnlyItsTask(s, i, now);
    forall tm: nat
      ensures DueFrom(s, i, tm, now) == DueFrom(u, i + 1, tm, now)
    {
      DueBehind(s, u, i, tm, now);
    }
  }

  lemma {:induction false} LooksCall(s: State, below: seq<Frame>, now: nat, i: nat)
    requires InFrame(s, below, now, i) && OneDesc(s.desc)
    ensures var t := Looks(s, |s.desc| - i + 1); t.stack == below && Called(s, t, i, now)
    ensures forall k :: 0 <= k <= |s.desc| - i ==> |Looks(s, k).stack| == |below| + 1
    decreases |s.desc| - i
  {
    hide Next, Called, OneDesc;
    if i == |s.desc| {
      LastLook(s, below, now);
      assert Looks(s, 1) == Looks(Next(s, Look), 0);
      CalledNothing(s, Looks(s, 1), now);
    } else {
      var u := Next(s, Look);
      OneLook(s, below, now, i);
      LooksCall(u, below, now, i + 1);
      if DueAt(s, i, s.desc[i].task, now) {
        CalledThis(s, u, Looks(u, |s.desc| - i), i, now);
      } else {
        CalledNext(s, u, Looks(u, |s.desc| - i), i, now);
      }
    }
  }

  /** There are always 64 descriptors. */
  lemma {:induction false} SixtyFour(tasks: map<nat, TMTask>, actions: seq<Action>)
    ensures |Run(Initial(tasks), actions).desc| == 64
    decreases |actions|
  {
    hide Next;
    if actions != [] {
      var n := |actions| - 1;
      SixtyFour(tasks, actions[..n]);
      SameLength(Run(Initial(tasks), actions[..n]), actions[n]);
    }
  }

  lemma {:induction false} SameLength(s: State, a: Action)
    ensures |Next(s, a).desc| == |s.desc|
  {
    hide FindDesc, FirstFree, HostToMac, MacToHost, Micros;
  }

  lemma {:induction false} ArmedIsPrimed(log: seq<Event>, tm: nat)
    requires Armed(log, tm)
    ensures LastPrime(log, tm).Some?
    decreases |log|
  {
    var e, front := log[|log| - 1], log[..|log| - 1];
    if !(e.Primed? && e.tm == tm) {
      ArmedIsPrimed(front, tm);
    }
  }

  /** In every reachable state a task is due exactly when it was primed, and not fired, inserted or removed
      since, and the wakeup time of that call has passed. */
  lemma {:induction false} DueExactly(tasks: map<nat, TMTask>, actions: seq<Action>, tm: nat, now: nat)
    ensures var s := Run(Initial(tasks), actions);
      Due(s, tm, now) <==> Armed(s.log, tm) && LastPrime(s.log, tm).Some? && LastPrime(s.log, tm).value < now
  {
    hide Run, Initial, Armed, LastPrime, FindDesc, GoodLog, OneDesc;
    Reachable(tasks, actions);
    var s := Run(Initial(tasks), actions);
    if Armed(s.log, tm) {
      ArmedIsPrimed(s.log, tm);
      var i := FindDesc(s.desc, tm);
      assert DescOk(s.desc[i], s.tasks, s.log);
      assert DueAt(s, i, tm, now) <==> LastPrime(s.log, tm).value < now;
    }
  }

  /** A task with a descriptor is active exactly when it is armed. */
  lemma {:induction false} ActiveExactly(tasks: map<nat, TMTask>, actions: seq<Action>, i: nat)
    requires var s := Run(Initial(tasks), actions); i < |s.desc| && s.desc[i].inUse
    ensures var s := Run(Initial(tasks), actions);
      var tm := s.desc[i].task;
      tm in s.tasks && s.tasks[tm].active <==> Armed(s.log, tm)
  {
    hide Run, Initial, Armed, LastPrime, FindDesc, GoodLog, OneDesc, PrimedInstalled;
    Reachable(tasks, actions);
    var s := Run(Initial(tasks), actions);
    assert DescOk(s.desc[i], s.tasks, s.log);
  }

  /** In any reachable state, even inside callbacks, an interrupt whose loop runs undisturbed takes 65 looks,
      the last of which ends it, calls every due task exactly once and no other task, and leaves the called
      tasks inactive and everything else as it was. */
  lemma {:induction false} InterruptCallsTheDue(tasks: map<nat, TMTask>, before: seq<Action>, now: nat)
    ensures var s := Run(Initial(tasks), before);
      var t := Looks(Next(s, Interrupt(now)), 65);
      && Called(s, t, 0, now) && t.stack == s.stack
      && forall k :: 0 <= k <= 64 ==> |Looks(Next(s, Interrupt(now)), k).stack| == |s.stack| + 1
  {
    hide Run, Initial, Called, Inv, Looks;
    var s := Run(Initial(tasks), before);
    Reachable(tasks, before);
    SixtyFour(tasks, before);
    InvOneDesc(s);
    var u := Next(s, Interrupt(now));
    LooksCall(u, s.stack, now, 0);
    SameCalled(s, u, Looks(u, 65), now);
  }

  lemma SameCalled(s: State, u: State, t: State, now: nat)
    requires u == s.(stack := u.stack) && Called(u, t, 0, now)
    ensures Called(s, t, 0, now)
  {
    forall tm: nat
      ensures DueFrom(u, 0, tm, now) == DueFrom(s, 0, tm, now)
    {
      assert forall j :: 0 <= j < |s.desc| ==> DueAt(s, j, tm, now) == DueAt(u, j, tm, now);
    }
  }
}
