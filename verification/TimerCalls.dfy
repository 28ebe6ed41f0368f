/** What the calls of the Time Manager leave behind, in the words of Macintosh memory. */
module TimerCalls {
  import opened Machine
  import opened Arithmetic
  import opened Timer

  /** The qType word of a task. */
  function QType(t: TMTask): nat {
    (if t.active then 0x8000 else 0) + (if t.extended then 0x4000 else 0) + (if t.revised then 0x2000 else 0) + t.low
  }

  lemma FieldOfTrap(trap: nat)
    ensures And(trap * 16, 0x6000) == trap / 0x200 % 4 * 0x2000
  {
    hide And;
    assert Pow2(2) == 4 && Pow2(13) == 0x2000 by { PowersHere(); }
    AndField(trap * 16, 2, 13, 0x6000);
  }

  lemma PowersHere()
    ensures Pow2(2) == 4 && Pow2(13) == 0x2000 && Pow2(15) == 0x8000
  {
    assert Pow2(8) == 0x100;
    assert Pow2(13) == 32 * Pow2(8);
  }

  lemma LowOfType(q: nat)
    ensures And(q, 0x1fff) == q % 0x2000
  {
    hide And;
    PowersHere();
    AndMod(q, 13);
  }

  /** InsTime keeps the low 13 bits of qType, takes bits 14 and 13 from the trap word, and clears bit 15. */
  lemma InsertsType(t: TMTask, trap: nat)
    requires t.low < 0x2000
    ensures QType(InsTask(t, trap)) == Or(And(QType(t), 0x1fff), And(trap * 16, 0x6000))
    ensures InsTask(t, trap).wakeUp == t.wakeUp && InsTask(t, trap).count == t.count
  {
    hide And, Or, Pow2;
    PowersHere();
    FieldOfTrap(trap);
    LowOfType(QType(t));
    var f := trap / 0x200 % 4;
    assert QType(t) % 0x2000 == t.low;
    OrSwap(And(trap * 16, 0x6000), t.low);
    OrJoins(f, 13, And(trap * 16, 0x6000), t.low);
    assert trap / 0x400 % 2 == f / 2 && trap / 0x200 % 2 == f % 2 by { TwoBits(trap / 0x200); DivTwiceHere(trap); }
  }

  lemma {:induction false} OrSwap(a: nat, b: nat)
    ensures Or(a, b) == Or(b, a)
    decreases a + b
  {
    if a == 0 {
      OrZero(b);
    } else if b == 0 {
      OrZero(a);
    } else {
      OrSwap(a / 2, b / 2);
    }
  }

  lemma TwoBits(x: nat)
    ensures x / 2 % 2 == x % 4 / 2 && x % 2 == x % 4 % 2
  {
    var q, r := x / 4, x % 4;
    DivModUnique(x, 2, 2 * q + r / 2, r % 2);
    DivModUnique(x / 2, 2, q, r / 2);
  }

  lemma DivTwiceHere(x: nat)
    ensures x / 0x400 == x / 0x200 / 2
  {
  }

  /** PrimeTime in numbers. An extended task whose tmWakeUp is set is due its delay after the last wakeup
      time; any other task, its delay after the call. */
  lemma {:induction false} PrimesExactly(tasks: map<nat, TMTask>, before: seq<Action>, tm: nat, i: nat, time: int, now: nat)
    requires -0x8000_0000 < time < 0x8000_0000
    requires var s := Run(Initial(tasks), before); i < |s.desc| && s.desc[i].inUse && s.desc[i].task == tm
    ensures var s := Run(Initial(tasks), before);
      var t := Next(s, Prime(tm, time, now));
      var was, delay := Task(s.tasks, tm), if time > 0 then 1000 * time else -time;
      && t.desc == s.desc[i := TMDesc(tm, (if was.extended && was.wakeUp != 0 then s.desc[i].wakeup else now) + delay, true)]
      && t.tasks == s.tasks[tm := was.(active := true, wakeUp := if was.extended then 0x1234_5678 else was.wakeUp)]
      && t.stack == s.stack
  {
    hide Run, Initial, FindDesc, MacToHost, Micros, Inv;
    Reachable(tasks, before);
    var s := Run(Initial(tasks), before);
    InvOneDesc(s);
    OwnerFound(s.desc, i, tm);
    ConversionKeepsMeaning(time);
  }

  /** PrimeTime of a task that is not inserted does nothing. */
  lemma {:induction false} PrimesNothing(s: State, tm: nat, time: int, now: nat)
    requires forall j :: 0 <= j < |s.desc| ==> !(s.desc[j].inUse && s.desc[j].task == tm)
    ensures Next(s, Prime(tm, time, now)) == s
  {
    hide FindDesc;
    FoundIs(s.desc, tm, |s.desc|);
  }

  /** After InsTime a task that is new has the first free descriptor, if there is one; no other changes. */
  lemma {:induction false} InsertsExactly(s: State, tm: nat, trap: nat)
    ensures var t := Next(s, Ins(tm, trap));
      && t.tasks == s.tasks[tm := InsTask(Task(s.tasks, tm), trap)] && t.stack == s.stack
      && if (exists j :: 0 <= j < |s.desc| && s.desc[j].inUse && s.desc[j].task == tm) || (forall j :: 0 <= j < |s.desc| ==> s.desc[j].inUse)
         then t.desc == s.desc
         else exists i :: 0 <= i < |s.desc| && !s.desc[i].inUse && (forall j :: 0 <= j < i ==> s.desc[j].inUse)
                && t.desc == s.desc[i := TMDesc(tm, s.desc[i].wakeup, true)]
  {
    hide FindDesc, FirstFree;
    var k, i := FindDesc(s.desc, tm), FirstFree(s.desc);
    assert forall j :: 0 <= j < |s.desc| && s.desc[j].inUse && s.desc[j].task == tm ==> Owns(s.desc[j], tm);
    assert k < |s.desc| ==> Owns(s.desc[k], tm);
  }

  /** After RmvTime the task has no descriptor and is not active; tmCount is 0 if it was not active, and the
      time that remained if it was. */
  lemma {:induction false} RemovesExactly(tasks: map<nat, TMTask>, before: seq<Action>, tm: nat, i: nat, now: nat, nonsense: int)
    requires var s := Run(Initial(tasks), before); i < |s.desc| && s.desc[i].inUse && s.desc[i].task == tm
    ensures var s := Run(Initial(tasks), before);
      var t := Next(s, Rmv(tm, now, nonsense));
      && t.desc == s.desc[i := s.desc[i].(inUse := false)] && t.stack == s.stack
      && tm in t.tasks && t.tasks == s.tasks[tm := Task(s.tasks, tm).(active := false, count := t.tasks[tm].count)]
      && (!Task(s.tasks, tm).active ==> t.tasks[tm].count == 0)
      && (Task(s.tasks, tm).active && now <= s.desc[i].wakeup < now + 0x8000_0000 ==>
            t.tasks[tm].count == now - s.desc[i].wakeup)
      && (Task(s.tasks, tm).active && now + 0x8000_0000 <= s.desc[i].wakeup < now + 1000 * 0x8000_0000 ==>
            t.tasks[tm].count == (s.desc[i].wakeup - now) / 1000)
  {
    hide Run, Initial, FindDesc, HostToMac, Inv;
    Reachable(tasks, before);
    var s := Run(Initial(tasks), before);
    InvOneDesc(s);
    OwnerFound(s.desc, i, tm);
    if now <= s.desc[i].wakeup {
      StoredTime(s.desc[i].wakeup - now);
    }
  }

  lemma StoredTime(left: nat)
    ensures left < 0x8000_0000 ==> HostToMac(TimeVal(left / 1_000_000, left % 1_000_000)) == 0 - left as int
    ensures 0x8000_0000 <= left < 1000 * 0x8000_0000 ==> HostToMac(TimeVal(left / 1_000_000, left % 1_000_000)) == left / 1000
  {
    assert left / 1_000_000 * 1_000_000 + left % 1_000_000 == left;
  }

  /** RmvTime of a task that is not inserted does nothing. */
  lemma {:induction false} RemovesNothing(s: State, tm: nat, now: nat, nonsense: int)
    requires forall j :: 0 <= j < |s.desc| ==> !(s.desc[j].inUse && s.desc[j].task == tm)
    ensures Next(s, Rmv(tm, now, nonsense)) == s
  {
    hide FindDesc, HostToMac;
    FoundIs(s.desc, tm, |s.desc|);
  }

  /** A reset frees all descriptors and touches no task. */
  lemma ResetsExactly(s: State)
    ensures var t := Next(s, ResetAll);
      && t.tasks == s.tasks && t.stack == s.stack && |t.desc| == |s.desc|
      && forall i :: 0 <= i < |s.desc| ==> t.desc[i] == TMDesc(s.desc[i].task, s.desc[i].wakeup, false)
  {
  }
}
