/**
 The xv6 spinlock: what a call of acquire, release or holding has done when it comes back, and that
 every call does come back.
 */
module SpinlockCalls {
  import opened Wrappers
  import opened Spinlock

  // ----- steps of one CPU ----------------------------------------------------------------

  /** The state after n steps of CPU c alone, if it has that many to make. */
  function Steps(s: State, c: nat, n: nat): Option<State>
    decreases n
  {
    if n == 0 then Some(s)
    else if !Enabled(s, Advance(c)) then None
    else Steps(Apply(s, Advance(c)), c, n - 1)
  }

  lemma OneStep(s: State, c: nat, s': State, n: nat, end: State)
    requires Enabled(s, Advance(c)) && Apply(s, Advance(c)) == s' && Steps(s', c, n) == Some(end)
    ensures Steps(s, c, n + 1) == Some(end)
  {
  }

  lemma {:induction false} StepsAdd(s: State, c: nat, m: nat, mid: State, n: nat, end: State)
    requires Steps(s, c, m) == Some(mid) && Steps(mid, c, n) == Some(end)
    ensures Steps(s, c, m + n) == Some(end)
    decreases m
  {
    if m > 0 {
      StepsAdd(Apply(s, Advance(c)), c, m - 1, mid, n, end);
    }
  }

  /** The state with CPU c going on at `pc`. */
  function At(s: State, c: nat, u: Cpu, pc: Pc): State
    requires c < |s.cpus|
  {
    WithCpu(s, c, u.(pc := pc))
  }

  /** How many steps holding() takes to its answer. */
  function Reads(s: State, l: nat): nat
    requires l < |s.locks|
  {
    if s.locks[l].locked then 2 else 1
  }

  /** holding() comes to the right answer. */
  lemma ToAnswer(s: State, c: nat, u: Cpu, l: nat, caller: Caller)
    requires c < |s.cpus| && l < |s.locks|
    ensures Steps(At(s, c, u, ReadLocked(l, caller)), c, Reads(s, l)) ==
            Some(At(s, c, u, PopAnswer(l, caller, s.locks[l].locked && s.locks[l].cpu == c)))
  {
    var end := At(s, c, u, PopAnswer(l, caller, s.locks[l].locked && s.locks[l].cpu == c));
    var start, mid := At(s, c, u, ReadLocked(l, caller)), At(s, c, u, ReadCpu(l, caller));
    if s.locks[l].locked {
      assert Apply(start, Advance(c)) == mid && Apply(mid, Advance(c)) == end;
      OneStep(mid, c, end, 0, end);
      OneStep(start, c, mid, 1, end);
    } else {
      assert Apply(start, Advance(c)) == end;
      OneStep(start, c, end, 0, end);
    }
  }

  // ----- calls ---------------------------------------------------------------------------

  /** The CPU after a call that leaves one more disable behind. */
  function OneMore(u: Cpu): Cpu {
    u.(ncli := u.ncli + 1, interrupts := false, intena := if u.ncli == 0 then u.interrupts else u.intena)
  }

  /** The CPU after a call that takes one disable back. */
  function OneLess(u: Cpu): Cpu {
    u.(ncli := u.ncli - 1, interrupts := u.ncli == 1 && u.intena)
  }

  /** The CPU after a call that leaves the count and the interrupts alone. */
  function AsBefore(u: Cpu): Cpu {
    u.(intena := if u.ncli == 0 then u.interrupts else u.intena)
  }

  /** What is known of a state in which CPU c may call on lock l. */
  ghost predicate MayCall(run: seq<State>, c: nat, l: nat) {
    Run(run) && c < |run[|run| - 1].cpus| && l < |run[|run| - 1].locks| && run[|run| - 1].cpus[c].pc == Idle
  }

  lemma IdleFits(run: seq<State>, c: nat, l: nat, s: State)
    requires MayCall(run, c, l) && s == run[|run| - 1]
    ensures CpuFits(s, c) && LockFits(s, l)
    ensures Owns(s, c, l) <==> s.locks[l].cpu == c
    ensures Owns(s, c, l) ==> s.locks[l] == Lock(true, c)
  {
    RunInv(run, |run| - 1);
  }

  /** acquire of a free lock: four steps later c owns it, and no other lock or CPU has changed. */
  lemma AcquireTakes(run: seq<State>, c: nat, l: nat, s: State)
    requires MayCall(run, c, l) && s == run[|run| - 1] && !s.locks[l].locked
    ensures Steps(Apply(s, Acquire(c, l)), c, 4) ==
            Some(State(s.locks[l := Lock(true, c)], s.cpus[c := OneMore(s.cpus[c])]))
  {
    IdleFits(run, c, l, s);
    var two, one := Pushed(Pushed(s.cpus[c])), OneMore(s.cpus[c]);
    var taken := s.(locks := s.locks[l := s.locks[l].(locked := true)]);
    var end := State(s.locks[l := Lock(true, c)], s.cpus[c := one]);
    ToAnswer(s, c, two, l, ForAcquire);
    var asked, spin, won := At(s, c, two, PopAnswer(l, ForAcquire, false)), At(s, c, one, Spin(l)), At(taken, c, one, SetCpu(l));
    assert Apply(asked, Advance(c)) == spin && Apply(spin, Advance(c)) == won && Apply(won, Advance(c)) == end;
    OneStep(won, c, end, 0, end);
    OneStep(spin, c, won, 1, end);
    OneStep(asked, c, spin, 2, end);
    StepsAdd(Apply(s, Acquire(c, l)), c, 1, asked, 3, end);
  }

  /** acquire of a lock that c owns stops in a panic and takes nothing. */
  lemma AcquireTwicePanics(run: seq<State>, c: nat, l: nat, s: State)
    requires MayCall(run, c, l) && s == run[|run| - 1] && Owns(s, c, l)
    ensures Steps(Apply(s, Acquire(c, l)), c, 3) == Some(At(s, c, OneMore(s.cpus[c]), Halted(HeldAlready(l))))
  {
    IdleFits(run, c, l, s);
    var two := Pushed(Pushed(s.cpus[c]));
    ToAnswer(s, c, two, l, ForAcquire);
    var asked, end := At(s, c, two, PopAnswer(l, ForAcquire, true)), At(s, c, OneMore(s.cpus[c]), Halted(HeldAlready(l)));
    assert Apply(asked, Advance(c)) == end;
    OneStep(asked, c, end, 0, end);
    StepsAdd(Apply(s, Acquire(c, l)), c, 2, asked, 1, end);
  }

  /** The last four steps of release, from a positive answer. */
  lemma ReleaseTail(s: State, c: nat, l: nat, u: Cpu)
    requires c < |s.cpus| && l < |s.locks|
    ensures var free := s.locks[l := Lock(false, NOBODY)];
            Steps(At(s, c, u, ClearCpu(l)), c, 3) == Some(State(free, s.cpus[c := Popped(u.(pc := PopRelease(l)), Idle)]))
  {
    var named := s.(locks := s.locks[l := s.locks[l].(cpu := NOBODY)]);
    var free := s.(locks := s.locks[l := Lock(false, NOBODY)]);
    var a, b, d := At(s, c, u, ClearCpu(l)), At(named, c, u, ClearLocked(l)), At(free, c, u, PopRelease(l));
    var end := State(free.locks, s.cpus[c := Popped(u.(pc := PopRelease(l)), Idle)]);
    assert Apply(a, Advance(c)) == b && Apply(b, Advance(c)) == d && Apply(d, Advance(c)) == end;
    OneStep(d, c, end, 0, end);
    OneStep(b, c, d, 1, end);
    OneStep(a, c, b, 2, end);
  }

  /** release of a lock that c owns: six steps later the lock is free, no other lock or CPU has changed,
      and c has either taken back one disable or, if its balance was 0, panicked in popcli. */
  lemma ReleaseFrees(run: seq<State>, c: nat, l: nat, s: State) returns (u: Cpu)
    requires MayCall(run, c, l) && s == run[|run| - 1] && Owns(s, c, l)
    ensures Steps(Apply(s, Release(c, l)), c, 6) == Some(State(s.locks[l := Lock(false, NOBODY)], s.cpus[c := u]))
    ensures if Balance(s, c) > 0 then u == OneLess(s.cpus[c]) else PopPanicked(u)
  {
    IdleFits(run, c, l, s);
    var pushed, back := Pushed(s.cpus[c]), AsBefore(s.cpus[c]);
    ToAnswer(s, c, pushed, l, ForRelease);
    var asked, clear := At(s, c, pushed, PopAnswer(l, ForRelease, true)), At(s, c, back, ClearCpu(l));
    assert Apply(asked, Advance(c)) == clear;
    ReleaseTail(s, c, l, back);
    u := Popped(back.(pc := PopRelease(l)), Idle);
    var end := State(s.locks[l := Lock(false, NOBODY)], s.cpus[c := u]);
    OneStep(asked, c, clear, 3, end);
    StepsAdd(Apply(s, Release(c, l)), c, 2, asked, 4, end);
  }

  /** release of a lock that c does not own stops in a panic and frees nothing. */
  lemma ReleaseUnownedPanics(run: seq<State>, c: nat, l: nat, s: State)
    requires MayCall(run, c, l) && s == run[|run| - 1] && !Owns(s, c, l)
    ensures Steps(Apply(s, Release(c, l)), c, Reads(s, l) + 1) == Some(At(s, c, AsBefore(s.cpus[c]), Halted(NotHeld(l))))
  {
    IdleFits(run, c, l, s);
    var pushed := Pushed(s.cpus[c]);
    ToAnswer(s, c, pushed, l, ForRelease);
    var asked, end := At(s, c, pushed, PopAnswer(l, ForRelease, false)), At(s, c, AsBefore(s.cpus[c]), Halted(NotHeld(l)));
    assert Apply(asked, Advance(c)) == end;
    OneStep(asked, c, end, 0, end);
    StepsAdd(Apply(s, Release(c, l)), c, Reads(s, l), asked, 1, end);
  }

  /** holding answers whether c owns the lock and leaves everything as it was. */
  lemma HoldingAnswers(run: seq<State>, c: nat, l: nat, s: State)
    requires MayCall(run, c, l) && s == run[|run| - 1]
    ensures var asked := Steps(Apply(s, Holding(c, l)), c, Reads(s, l));
            asked.Some? && c < |asked.value.cpus| && asked.value.cpus[c].pc == PopAnswer(l, ForClient, Owns(s, c, l))
    ensures Steps(Apply(s, Holding(c, l)), c, Reads(s, l) + 1) == Some(State(s.locks, s.cpus[c := AsBefore(s.cpus[c])]))
  {
    IdleFits(run, c, l, s);
    var pushed := Pushed(s.cpus[c]);
    ToAnswer(s, c, pushed, l, ForClient);
    var asked, end := At(s, c, pushed, PopAnswer(l, ForClient, Owns(s, c, l))), At(s, c, AsBefore(s.cpus[c]), Idle);
    assert Apply(asked, Advance(c)) == end;
    OneStep(asked, c, end, 0, end);
    StepsAdd(Apply(s, Holding(c, l)), c, Reads(s, l), asked, 1, end);
    assert end == State(s.locks, s.cpus[c := AsBefore(s.cpus[c])]);
  }

  // ----- every call ends -----------------------------------------------------------------

  predicate InCall(s: State, c: nat) {
    c < |s.cpus| && s.cpus[c].pc != Idle && !s.cpus[c].pc.Halted?
  }

  /** A turn of the spin loop that finds the lock taken. */
  predicate Spins(s: State, c: nat) {
    c < |s.cpus| && s.cpus[c].pc.Spin? && s.cpus[c].pc.l < |s.locks| && s.locks[s.cpus[c].pc.l].locked
  }

  /** Steps a call still has to make, not counting turns of the spin loop. */
  function Left(pc: Pc): nat {
    match pc
    case Idle => 0
    case Halted(_) => 0
    case ReadLocked(_, _) => 6
    case ReadCpu(_, _) => 5
    case PopAnswer(_, _, _) => 4
    case ClearCpu(_) => 3
    case ClearLocked(_) => 2
    case PopRelease(_) => 1
    case Spin(_) => 2
    case SetCpu(_) => 1
  }

  /** The actions can be done one after the other, by any CPUs, and CPU c is in a call all the time. */
  ghost predicate StaysInCall(s: State, todo: seq<Action>, c: nat)
    decreases |todo|
  {
    InCall(s, c) && (todo == [] || (Enabled(s, todo[0]) && StaysInCall(Apply(s, todo[0]), todo[1..], c)))
  }

  /** How many of the actions are steps of c other than turns of the spin loop. */
  ghost function OwnSteps(s: State, todo: seq<Action>, c: nat): nat
    requires StaysInCall(s, todo, c)
    decreases |todo|
  {
    if todo == [] then 0
    else (if todo[0] == Advance(c) && !Spins(s, c) then 1 else 0) + OwnSteps(Apply(s, todo[0]), todo[1..], c)
  }

  /** Every step of c but a turn of the spin loop brings its call nearer to the end, and no step of
      another CPU takes it back. */
  lemma LeftStep(s: State, a: Action, c: nat)
    requires InCall(s, c) && Enabled(s, a)
    ensures c < |Apply(s, a).cpus|
    ensures Left(Apply(s, a).cpus[c].pc) + (if a == Advance(c) && !Spins(s, c) then 1 else 0) <= Left(s.cpus[c].pc)
  {
  }

  /** Under any interleaving, a call that goes on has made at most five of its own steps, turns of the
      spin loop on a taken lock aside: with the sixth it has come back or panicked. */
  lemma {:induction false} CallsEnd(s: State, todo: seq<Action>, c: nat)
    requires StaysInCall(s, todo, c)
    ensures OwnSteps(s, todo, c) < Left(s.cpus[c].pc) <= 6
    decreases |todo|
  {
    if todo != [] {
      LeftStep(s, todo[0], c);
      CallsEnd(Apply(s, todo[0]), todo[1..], c);
    }
  }

  /** A call that has not come back can always make its next step. */
  lemma CallsGoOn(run: seq<State>, k: nat, c: nat)
    requires Run(run) && k < |run| && InCall(run[k], c)
    ensures Enabled(run[k], Advance(c))
  {
    RunInv(run, k);
    assert CpuFits(run[k], c);
  }
}
