/**
 The xv6 spinlock: acquire, release and holding as the steps they take on shared memory, run by
 any number of CPUs on any number of locks in any interleaving, with nested interrupt disabling.
 */
module Spinlock {

  const NOBODY := -1

  datatype Lock = Lock(locked: bool, cpu: int)

  /** Which call holding() is part of. */
  datatype Caller = ForAcquire | ForRelease | ForClient

  /** Acquiring or releasing lock l without right, or a popcli that goes wrong. */
  datatype Panic = HeldAlready(l: nat) | NotHeld(l: nat) | Interruptible | Unbalanced

  /** The next step of a CPU. */
  datatype Pc =
    | Idle
    | ReadLocked(l: nat, caller: Caller)
    | ReadCpu(l: nat, caller: Caller)
    | PopAnswer(l: nat, caller: Caller, answer: bool)
    | Spin(l: nat)
    | SetCpu(l: nat)
    | ClearCpu(l: nat)
    | ClearLocked(l: nat)
    | PopRelease(l: nat)
    | Halted(why: Panic)

  /** A CPU; `pushed` counts the pushcli calls of clients minus their popcli calls, and no step looks at it. */
  datatype Cpu = Cpu(ncli: int, intena: bool, interrupts: bool, pc: Pc, pushed: int)

  datatype State = State(locks: seq<Lock>, cpus: seq<Cpu>)

  datatype Action =
    | Acquire(c: nat, l: nat)
    | Release(c: nat, l: nat)
    | Holding(c: nat, l: nat)
    | Push(c: nat)
    | Pop(c: nat)
    | Advance(c: nat)
    | Toggle(c: nat, on: bool)

  // ----- nested interrupt disabling ------------------------------------------------------

  function Pushed(u: Cpu): (r: Cpu)
  {
    u.(interrupts := false, intena := if u.ncli == 0 then u.interrupts else u.intena, ncli := u.ncli + 1)
  }

  /** popcli, going on at `next` unless it panics. */
  function Popped(u: Cpu, next: Pc): (r: Cpu)
  {
    if u.interrupts then u.(pc := Halted(Interruptible))
    else if u.ncli - 1 < 0 then u.(ncli := u.ncli - 1, pc := Halted(Unbalanced))
    else u.(ncli := u.ncli - 1, pc := next, interrupts := u.ncli - 1 == 0 && u.intena)
  }

  // ----- steps ---------------------------------------------------------------------------

  predicate Enabled(s: State, a: Action) {
    a.c < |s.cpus| &&
    match a
    case Acquire(c, l) => s.cpus[c].pc == Idle && l < |s.locks|
    case Release(c, l) => s.cpus[c].pc == Idle && l < |s.locks|
    case Holding(c, l) => s.cpus[c].pc == Idle && l < |s.locks|
    case Push(c) => s.cpus[c].pc == Idle
    case Pop(c) => s.cpus[c].pc == Idle
    case Advance(c) => PcOk(s.cpus[c].pc, |s.locks|)
    case Toggle(c, on) => s.cpus[c].pc == Idle && s.cpus[c].ncli == 0
  }

  /** There is a next step, on an existing lock. */
  predicate PcOk(pc: Pc, n: nat) {
    match pc
    case Idle => false
    case Halted(_) => false
    case ReadLocked(l, _) => l < n
    case ReadCpu(l, _) => l < n
    case PopAnswer(l, _, _) => l < n
    case Spin(l) => l < n
    case SetCpu(l) => l < n
    case ClearCpu(l) => l < n
    case ClearLocked(l) => l < n
    case PopRelease(l) => l < n
  }

  function WithCpu(s: State, c: nat, u: Cpu): State
    requires c < |s.cpus|
  {
    s.(cpus := s.cpus[c := u])
  }

  function WithLock(s: State, l: nat, k: Lock): State
    requires l < |s.locks|
  {
    s.(locks := s.locks[l := k])
  }

  /** Where a CPU goes on after holding() has answered. */
  function AfterAnswer(l: nat, caller: Caller, answer: bool): Pc {
    match caller
    case ForAcquire => if answer then Halted(HeldAlready(l)) else Spin(l)
    case ForRelease => if answer then ClearCpu(l) else Halted(NotHeld(l))
    case ForClient => Idle
  }

  /** One internal step of CPU c. */
  function Advanced(s: State, c: nat): State
    requires c < |s.cpus| && PcOk(s.cpus[c].pc, |s.locks|)
  {
    var u := s.cpus[c];
    match u.pc
    case ReadLocked(l, caller) =>
      WithCpu(s, c, u.(pc := if s.locks[l].locked then ReadCpu(l, caller) else PopAnswer(l, caller, false)))
    case ReadCpu(l, caller) =>
      WithCpu(s, c, u.(pc := PopAnswer(l, caller, s.locks[l].cpu == c)))
    case PopAnswer(l, caller, answer) =>
      WithCpu(s, c, Popped(u, AfterAnswer(l, caller, answer)))
    case Spin(l) =>
      if s.locks[l].locked then s
      else WithLock(WithCpu(s, c, u.(pc := SetCpu(l))), l, s.locks[l].(locked := true))
    case SetCpu(l) =>
      WithLock(WithCpu(s, c, u.(pc := Idle)), l, s.locks[l].(cpu := c))
    case ClearCpu(l) =>
      WithLock(WithCpu(s, c, u.(pc := ClearLocked(l))), l, s.locks[l].(cpu := NOBODY))
    case ClearLocked(l) =>
      WithLock(WithCpu(s, c, u.(pc := PopRelease(l))), l, s.locks[l].(locked := false))
    case PopRelease(l) =>
      WithCpu(s, c, Popped(u, Idle))
  }

  function Apply(s: State, a: Action): State
    requires Enabled(s, a)
  {
    match a
    case Acquire(c, l) => WithCpu(s, c, Pushed(Pushed(s.cpus[c])).(pc := ReadLocked(l, ForAcquire)))
    case Release(c, l) => WithCpu(s, c, Pushed(s.cpus[c]).(pc := ReadLocked(l, ForRelease)))
    case Holding(c, l) => WithCpu(s, c, Pushed(s.cpus[c]).(pc := ReadLocked(l, ForClient)))
    case Push(c) => WithCpu(s, c, Pushed(s.cpus[c]).(pushed := s.cpus[c].pushed + 1))
    case Pop(c) => WithCpu(s, c, Popped(s.cpus[c], Idle).(pushed := s.cpus[c].pushed - 1))
    case Advance(c) => Advanced(s, c)
    case Toggle(c, on) => WithCpu(s, c, s.cpus[c].(interrupts := on))
  }

  predicate Init(s: State) {
    (forall l :: 0 <= l < |s.locks| ==> s.locks[l] == Lock(false, NOBODY)) &&
    forall c :: 0 <= c < |s.cpus| ==> s.cpus[c].ncli == 0 && s.cpus[c].pc == Idle && s.cpus[c].pushed == 0
  }

  ghost predicate Step(s: State, s': State) {
    exists a :: Enabled(s, a) && s' == Apply(s, a)
  }

  ghost predicate StepAt(run: seq<State>, k: nat) {
    0 < k < |run| && Step(run[k - 1], run[k])
  }

  /** A run: any interleaving of steps of the CPUs, from unlocked locks. */
  ghost predicate Run(run: seq<State>) {
    run != [] && Init(run[0]) && forall k: nat {:trigger StepAt(run, k)} :: 0 < k < |run| ==> StepAt(run, k)
  }

  // ----- the invariant -------------------------------------------------------------------

  /** How many locks record c as their holder. */
  function Held(locks: seq<Lock>, c: int): (n: nat)
    ensures n <= |locks|
  {
    if locks == [] then 0 else Held(locks[..|locks| - 1], c) + if locks[|locks| - 1].cpu == c then 1 else 0
  }

  lemma {:induction false} HeldUpdate(locks: seq<Lock>, c: int, l: nat, k: Lock)
    requires l < |locks|
    ensures Held(locks[l := k], c) ==
            Held(locks, c) - (if locks[l].cpu == c then 1 else 0) + if k.cpu == c then 1 else 0
    decreases |locks|
  {
    var m := |locks| - 1;
    if l == m {
      assert locks[l := k][..m] == locks[..m];
    } else {
      HeldUpdate(locks[..m], c, l, k);
      assert locks[l := k][..m] == locks[..m][l := k];
    }
  }

  lemma {:induction false} HeldSome(locks: seq<Lock>, c: int, l: nat)
    requires l < |locks| && locks[l].cpu == c
    ensures Held(locks, c) > 0
    decreases |locks|
  {
    if l < |locks| - 1 {
      HeldSome(locks[..|locks| - 1], c, l);
    }
  }

  /** Disables that belong to the call in progress rather than to a lock that is held. */
  function Pending(pc: Pc): int {
    match pc
    case Idle => 0
    case ReadLocked(_, caller) => if caller == ForAcquire then 2 else 1
    case ReadCpu(_, caller) => if caller == ForAcquire then 2 else 1
    case PopAnswer(_, caller, _) => if caller == ForAcquire then 2 else 1
    case Spin(_) => 1
    case SetCpu(_) => 1
    case ClearCpu(_) => 0
    case ClearLocked(_) => 1
    case PopRelease(_) => 1
    case Halted(why) => if why.HeldAlready? then 1 else 0
  }

  /** What a CPU knows about the lock it is working on. */
  predicate PcFits(s: State, c: nat)
    requires c < |s.cpus|
  {
    match s.cpus[c].pc
    case Idle => true
    case ReadLocked(l, _) => l < |s.locks|
    case ReadCpu(l, _) => l < |s.locks|
    case PopAnswer(l, _, answer) => l < |s.locks| && (answer <==> s.locks[l].cpu == c)
    case Spin(l) => l < |s.locks| && s.locks[l].cpu != c
    case SetCpu(l) => l < |s.locks| && s.locks[l] == Lock(true, NOBODY)
    case ClearCpu(l) => l < |s.locks| && s.locks[l] == Lock(true, c)
    case ClearLocked(l) => l < |s.locks| && s.locks[l] == Lock(true, NOBODY)
    case PopRelease(l) => l < |s.locks|
    case Halted(why) =>
      (why.HeldAlready? ==> why.l < |s.locks| && s.locks[why.l].cpu == c) &&
      (why.NotHeld? ==> why.l < |s.locks| && s.locks[why.l].cpu != c)
  }

  /** The CPU stopped in popcli. */
  predicate PopPanicked(u: Cpu) {
    u.pc == Halted(Interruptible) || u.pc == Halted(Unbalanced)
  }

  /** What clients have pushed and not popped, and the locks that are recorded, on a CPU. */
  function Balance(s: State, c: nat): int
    requires c < |s.cpus|
  {
    s.cpus[c].pushed + Held(s.locks, c)
  }

  /** The balance falls below 0 only in the last steps of a release, or by a popcli that panics. */
  predicate BalanceFits(u: Cpu, balance: int) {
    if PopPanicked(u) then balance < 0
    else if u.pc.ClearLocked? || u.pc.PopRelease? then balance >= -1
    else balance >= 0
  }

  /** The count is the balance and what the call in progress has pushed; interrupts are off while it is
      positive, and inside a call a count of 0 leaves them as saved. */
  predicate FlagsFit(u: Cpu, balance: int) {
    (u.ncli > 0 ==> !u.interrupts) &&
    (!PopPanicked(u) ==>
      u.ncli == balance + Pending(u.pc) && u.ncli >= 0 && (u.ncli == 0 && u.pc != Idle ==> u.interrupts == u.intena))
  }

  predicate CpuFits(s: State, c: nat)
    requires c < |s.cpus|
  {
    PcFits(s, c) && BalanceFits(s.cpus[c], Balance(s, c)) && FlagsFit(s.cpus[c], Balance(s, c))
  }

  /** CPU c is between a successful xchg on l and the store that clears it. */
  predicate Owns(s: State, c: int, l: nat) {
    0 <= c < |s.cpus| && l < |s.locks| &&
    (s.locks[l].cpu == c || s.cpus[c].pc == SetCpu(l) || s.cpus[c].pc == ClearLocked(l))
  }

  /** A lock is taken exactly when one CPU owns it, and it never names anyone else. */
  ghost predicate LockFits(s: State, l: nat)
    requires l < |s.locks|
  {
    && (forall c, d :: Owns(s, c, l) && Owns(s, d, l) ==> c == d)
    && (s.locks[l].locked <==> exists c :: Owns(s, c, l))
    && -1 <= s.locks[l].cpu < |s.cpus|
  }

  ghost predicate Inv(s: State) {
    (forall c {:trigger s.cpus[c]} :: 0 <= c < |s.cpus| ==> CpuFits(s, c)) &&
    forall l {:trigger s.locks[l]} :: 0 <= l < |s.locks| ==> LockFits(s, l)
  }

  lemma {:induction false} HeldNone(locks: seq<Lock>, c: int)
    requires forall l :: 0 <= l < |locks| ==> locks[l].cpu != c
    ensures Held(locks, c) == 0
    decreases |locks|
  {
    if locks != [] {
      HeldNone(locks[..|locks| - 1], c);
    }
  }

  lemma InitInv(s: State)
    requires Init(s)
    ensures Inv(s)
  {
    forall c | 0 <= c < |s.cpus|
      ensures CpuFits(s, c)
    {
      HeldNone(s.locks, c);
    }
    forall l | 0 <= l < |s.locks|
      ensures LockFits(s, l)
    {
      assert forall c :: !Owns(s, c, l);
    }
  }

  /** The pc says by itself that c owns a lock. */
  predicate OwnsByPc(pc: Pc) {
    pc.SetCpu? || pc.ClearLocked?
  }

  /** A step that touches only CPU c. */
  lemma CpuStep(s: State, c: nat, u: Cpu)
    requires Inv(s) && c < |s.cpus| && !OwnsByPc(s.cpus[c].pc) && !OwnsByPc(u.pc)
    requires CpuFits(WithCpu(s, c, u), c)
    ensures Inv(WithCpu(s, c, u))
  {
    var s' := WithCpu(s, c, u);
    forall d | 0 <= d < |s'.cpus|
      ensures CpuFits(s', d)
    {
      assert CpuFits(s, d);
    }
    forall l | 0 <= l < |s'.locks|
      ensures LockFits(s', l)
    {
      assert LockFits(s, l);
      assert forall d :: Owns(s', d, l) <==> Owns(s, d, l);
    }
  }

  /** Nobody but c has anything to do with lock l, before or after. */
  ghost predicate OnlyBy(s: State, c: nat, l: nat, k: Lock)
    requires l < |s.locks|
  {
    (forall d :: Owns(s, d, l) ==> d == c) && (k.cpu == NOBODY || k.cpu == c)
  }

  lemma OthersFit(s: State, c: nat, l: nat, u: Cpu, k: Lock, d: nat)
    requires Inv(s) && c < |s.cpus| && d < |s.cpus| && d != c && l < |s.locks| && OnlyBy(s, c, l, k)
    ensures CpuFits(WithLock(WithCpu(s, c, u), l, k), d)
  {
    assert CpuFits(s, d);
    assert !Owns(s, d, l);
    HeldUpdate(s.locks, d, l, k);
  }

  /** A step of c on lock l. */
  lemma LockStep(s: State, c: nat, l: nat, u: Cpu, k: Lock)
    requires Inv(s) && c < |s.cpus| && l < |s.locks| && OnlyBy(s, c, l, k)
    requires OwnsByPc(s.cpus[c].pc) ==> s.cpus[c].pc.l == l
    requires OwnsByPc(u.pc) ==> u.pc.l == l
    requires var s' := WithLock(WithCpu(s, c, u), l, k); CpuFits(s', c) && (k.locked <==> Owns(s', c, l))
    ensures Inv(WithLock(WithCpu(s, c, u), l, k))
  {
    var s' := WithLock(WithCpu(s, c, u), l, k);
    forall d | 0 <= d < |s'.cpus|
      ensures CpuFits(s', d)
    {
      if d != c {
        OthersFit(s, c, l, u, k, d);
      }
    }
    forall m | 0 <= m < |s'.locks|
      ensures LockFits(s', m)
    {
      assert LockFits(s, m);
      if m != l {
        assert forall d :: Owns(s', d, m) <==> Owns(s, d, m);
      } else {
        assert forall d :: d != c && Owns(s', d, l) ==> Owns(s, d, l);
      }
    }
  }

  lemma StartInv(s: State, a: Action)
    requires Inv(s) && Enabled(s, a) && !a.Advance?
    ensures Inv(Apply(s, a))
  {
    assert CpuFits(s, a.c);
    match a
    case Acquire(c, l) => CpuStep(s, c, Pushed(Pushed(s.cpus[c])).(pc := ReadLocked(l, ForAcquire)));
    case Release(c, l) => CpuStep(s, c, Pushed(s.cpus[c]).(pc := ReadLocked(l, ForRelease)));
    case Holding(c, l) => CpuStep(s, c, Pushed(s.cpus[c]).(pc := ReadLocked(l, ForClient)));
    case Push(c) => CpuStep(s, c, Pushed(s.cpus[c]).(pushed := s.cpus[c].pushed + 1));
    case Pop(c) => CpuStep(s, c, Popped(s.cpus[c], Idle).(pushed := s.cpus[c].pushed - 1));
    case Toggle(c, on) => CpuStep(s, c, s.cpus[c].(interrupts := on));
  }

  lemma ReadInv(s: State, c: nat)
    requires Inv(s) && c < |s.cpus| && PcOk(s.cpus[c].pc, |s.locks|)
    requires s.cpus[c].pc.ReadLocked? || s.cpus[c].pc.ReadCpu?
    ensures Inv(Advanced(s, c))
  {
    var u := s.cpus[c];
    assert CpuFits(s, c) && LockFits(s, u.pc.l);
    if u.pc.ReadLocked? && !s.locks[u.pc.l].locked {
      assert !Owns(s, c, u.pc.l);
    }
    CpuStep(s, c, Advanced(s, c).cpus[c]);
  }

  lemma PopReleaseInv(s: State, c: nat)
    requires Inv(s) && c < |s.cpus| && PcOk(s.cpus[c].pc, |s.locks|) && s.cpus[c].pc.PopRelease?
    ensures Inv(Advanced(s, c))
  {
    assert CpuFits(s, c);
    CpuStep(s, c, Popped(s.cpus[c], Idle));
  }

  lemma PopAnswerInv(s: State, c: nat)
    requires Inv(s) && c < |s.cpus| && PcOk(s.cpus[c].pc, |s.locks|) && s.cpus[c].pc.PopAnswer?
    ensures Inv(Advanced(s, c))
  {
    var u := s.cpus[c];
    assert CpuFits(s, c) && LockFits(s, u.pc.l);
    if u.pc.answer {
      HeldSome(s.locks, c, u.pc.l);
      assert Owns(s, c, u.pc.l);
    }
    CpuStep(s, c, Popped(u, AfterAnswer(u.pc.l, u.pc.caller, u.pc.answer)));
  }

  lemma SpinInv(s: State, c: nat)
    requires Inv(s) && c < |s.cpus| && PcOk(s.cpus[c].pc, |s.locks|) && s.cpus[c].pc.Spin?
    ensures Inv(Advanced(s, c))
  {
    var u, l := s.cpus[c], s.cpus[c].pc.l;
    assert CpuFits(s, c) && LockFits(s, l);
    if !s.locks[l].locked {
      var k := s.locks[l].(locked := true);
      assert s.locks[l].cpu == NOBODY by {
        assert !Owns(s, s.locks[l].cpu, l);
      }
      HeldUpdate(s.locks, c, l, k);
      LockStep(s, c, l, u.(pc := SetCpu(l)), k);
    }
  }

  lemma OwnerInv(s: State, c: nat)
    requires Inv(s) && c < |s.cpus| && PcOk(s.cpus[c].pc, |s.locks|)
    requires s.cpus[c].pc.SetCpu? || s.cpus[c].pc.ClearCpu? || s.cpus[c].pc.ClearLocked?
    ensures Inv(Advanced(s, c))
  {
    var u, l := s.cpus[c], s.cpus[c].pc.l;
    assert CpuFits(s, c) && LockFits(s, l);
    assert Owns(s, c, l);
    var s' := Advanced(s, c);
    var k := s'.locks[l];
    HeldUpdate(s.locks, c, l, k);
    LockStep(s, c, l, s'.cpus[c], k);
  }

  lemma StepInv(s: State, a: Action)
    requires Inv(s) && Enabled(s, a)
    ensures Inv(Apply(s, a))
  {
    if !a.Advance? {
      StartInv(s, a);
    } else if s.cpus[a.c].pc.Spin? {
      SpinInv(s, a.c);
    } else if s.cpus[a.c].pc.SetCpu? || s.cpus[a.c].pc.ClearCpu? || s.cpus[a.c].pc.ClearLocked? {
      OwnerInv(s, a.c);
    } else if s.cpus[a.c].pc.PopAnswer? {
      PopAnswerInv(s, a.c);
    } else if s.cpus[a.c].pc.PopRelease? {
      PopReleaseInv(s, a.c);
    } else {
      ReadInv(s, a.c);
    }
  }

  lemma {:induction false} RunInv(run: seq<State>, k: nat)
    requires Run(run) && k < |run|
    ensures Inv(run[k])
  {
    if k == 0 {
      InitInv(run[0]);
    } else {
      RunInv(run, k - 1);
      assert StepAt(run, k);
      var a :| Enabled(run[k - 1], a) && run[k] == Apply(run[k - 1], a);
      StepInv(run[k - 1], a);
    }
  }

  // ----- what every run guarantees -------------------------------------------------------

  /** At most one CPU is between a successful xchg and the store that clears the lock. */
  lemma MutualExclusion(run: seq<State>, k: nat, c: nat, d: nat, l: nat)
    requires Run(run) && k < |run| && Owns(run[k], c, l) && Owns(run[k], d, l)
    ensures c == d && run[k].locks[l].locked
  {
    RunInv(run, k);
    assert LockFits(run[k], l);
  }

  /** Whoever calls holding() gets the answer "yes" exactly when it owns the lock. */
  lemma HoldingIsExact(run: seq<State>, k: nat, c: nat)
    requires Run(run) && k < |run| && c < |run[k].cpus| && run[k].cpus[c].pc.PopAnswer?
    ensures var pc := run[k].cpus[c].pc; pc.answer <==> Owns(run[k], c, pc.l)
  {
    RunInv(run, k);
    assert CpuFits(run[k], c);
  }

  /** Interrupts are off on a CPU for as long as it owns any lock and its balance and the disables of
      the call in progress stay positive; they do unless its clients have popped more than they pushed. */
  lemma InterruptsOff(run: seq<State>, k: nat, c: nat, l: nat)
    requires Run(run) && k < |run| && Owns(run[k], c, l)
    ensures var u := run[k].cpus[c]; var all := Balance(run[k], c) + Pending(u.pc);
            && (all > 0 ==> u.ncli > 0 && !u.interrupts)
            && (all <= 0 ==> u.pushed < 0)
  {
    RunInv(run, k);
    assert CpuFits(run[k], c);
    if run[k].locks[l].cpu == c {
      HeldSome(run[k].locks, c, l);
    }
  }

  /** Inside a call interrupts are on exactly when the balance and the call's own disables come to 0 and
      the saved flag says so. */
  lemma InterruptsInCall(run: seq<State>, k: nat, c: nat)
    requires Run(run) && k < |run| && c < |run[k].cpus| && run[k].cpus[c].pc != Idle && !PopPanicked(run[k].cpus[c])
    ensures var u := run[k].cpus[c]; u.interrupts <==> Balance(run[k], c) + Pending(u.pc) == 0 && u.intena
  {
    RunInv(run, k);
    assert CpuFits(run[k], c);
  }

  /** A state with the interrupt flag of one CPU turned on. */
  function WithInterrupts(s: State, c: nat): State
    requires c < |s.cpus|
  {
    WithCpu(s, c, s.cpus[c].(interrupts := true))
  }

  /** Outside calls interrupts can be on, whatever locks the CPU owns, exactly when its balance is 0. */
  lemma InterruptsPossible(run: seq<State>, c: nat)
    requires Run(run) && c < |run[|run| - 1].cpus| && run[|run| - 1].cpus[c].pc == Idle
    ensures (exists other :: Run(other) && other[|other| - 1] == WithInterrupts(run[|run| - 1], c)) <==>
            Balance(run[|run| - 1], c) == 0
  {
    var s := run[|run| - 1];
    RunInv(run, |run| - 1);
    assert CpuFits(s, c);
    if Balance(s, c) == 0 {
      var other := Extend(run, Toggle(c, true), WithInterrupts(s, c));
    }
    forall other | Run(other) && other[|other| - 1] == WithInterrupts(s, c)
      ensures Balance(s, c) == 0
    {
      RunInv(other, |other| - 1);
      assert CpuFits(other[|other| - 1], c);
    }
  }

  /** A client's popcli turns interrupts on exactly when the balance is 1 and the saved flag says so. */
  lemma PopTurnsOn(run: seq<State>, k: nat, c: nat)
    requires Run(run) && k < |run| && Enabled(run[k], Pop(c)) && !run[k].cpus[c].interrupts
    ensures Apply(run[k], Pop(c)).cpus[c].interrupts <==> Balance(run[k], c) == 1 && run[k].cpus[c].intena
  {
    RunInv(run, k);
    assert CpuFits(run[k], c);
  }

  /** A CPU stops only for acquiring a lock it owns, releasing a lock it does not own, or popping past
      a balance of 0. */
  lemma OnlyClientsPanic(run: seq<State>, k: nat, c: nat)
    requires Run(run) && k < |run| && c < |run[k].cpus| && run[k].cpus[c].pc.Halted?
    ensures match run[k].cpus[c].pc.why
            case HeldAlready(l) => Owns(run[k], c, l)
            case NotHeld(l) => l < |run[k].locks| && !Owns(run[k], c, l)
            case Interruptible => Balance(run[k], c) < 0
            case Unbalanced => Balance(run[k], c) < 0
  {
    RunInv(run, k);
    assert CpuFits(run[k], c);
  }

  /** A client's popcli panics exactly when the balance is 0. */
  lemma PopPanicsNow(run: seq<State>, k: nat, c: nat)
    requires Run(run) && k < |run| && Enabled(run[k], Pop(c))
    ensures PopPanicked(Apply(run[k], Pop(c)).cpus[c]) <==> Balance(run[k], c) == 0
  {
    RunInv(run, k);
    assert CpuFits(run[k], c);
  }

  /** A CPU that is in no call has panicked in popcli exactly when its balance is negative. */
  lemma PanicsIffOverPopped(run: seq<State>, k: nat, c: nat)
    requires Run(run) && k < |run| && c < |run[k].cpus| && (run[k].cpus[c].pc.Idle? || run[k].cpus[c].pc.Halted?)
    ensures PopPanicked(run[k].cpus[c]) <==> Balance(run[k], c) < 0
  {
    RunInv(run, k);
    assert CpuFits(run[k], c);
  }

  /** A run can go on with any enabled action. */
  lemma Extend(run: seq<State>, a: Action, s': State) returns (longer: seq<State>)
    requires Run(run) && Enabled(run[|run| - 1], a) && s' == Apply(run[|run| - 1], a)
    ensures Run(longer) && longer != [] && longer[|longer| - 1] == s'
  {
    longer := run + [s'];
    forall k | 0 < k < |longer|
      ensures StepAt(longer, k)
    {
      if k < |run| {
        assert StepAt(run, k);
      }
    }
  }

  /** One pop too many turns interrupts on under a lock that is held. */
  lemma OverPoppedOwner() returns (run: seq<State>)
    ensures Run(run)
    ensures var s := run[|run| - 1]; |s.cpus| == 1 && Owns(s, 0, 0) && s.cpus[0].interrupts && s.cpus[0].pushed == -1
  {
    var free, taken, held := [Lock(false, NOBODY)], [Lock(true, NOBODY)], [Lock(true, 0)];
    run := [State(free, [Cpu(0, true, true, Idle, 0)])];
    run := Extend(run, Acquire(0, 0), State(free, [Cpu(2, true, false, ReadLocked(0, ForAcquire), 0)]));
    run := Extend(run, Advance(0), State(free, [Cpu(2, true, false, PopAnswer(0, ForAcquire, false), 0)]));
    run := Extend(run, Advance(0), State(free, [Cpu(1, true, false, Spin(0), 0)]));
    run := Extend(run, Advance(0), State(taken, [Cpu(1, true, false, SetCpu(0), 0)]));
    run := Extend(run, Advance(0), State(held, [Cpu(1, true, false, Idle, 0)]));
    run := Extend(run, Pop(0), State(held, [Cpu(0, true, true, Idle, -1)]));
  }

  /** A CPU, or an idle one that does not exist. */
  function CpuOf(s: State, c: nat): Cpu {
    if c < |s.cpus| then s.cpus[c] else Cpu(0, false, false, Idle, 0)
  }

  /** How one step may move the saved flag and the interrupt flag of a CPU. */
  predicate FlagMoves(u: Cpu, u': Cpu) {
    && (u'.ncli > 0 ==> u'.intena == if u.ncli == 0 then u.interrupts else u.intena)
    && (u.ncli > 0 && u'.ncli == 0 ==> u'.interrupts == u.intena)
  }

  lemma FlagStep(s: State, a: Action, c: nat)
    requires Inv(s) && Enabled(s, a)
    ensures FlagMoves(CpuOf(s, c), CpuOf(Apply(s, a), c))
  {
    assert CpuFits(s, a.c);
    if c < |s.cpus| {
      assert CpuFits(s, c);
    }
  }

  lemma FlagStepInRun(run: seq<State>, k: nat, c: nat)
    requires Run(run) && 0 < k < |run|
    ensures FlagMoves(CpuOf(run[k - 1], c), CpuOf(run[k], c))
  {
    RunInv(run, k - 1);
    assert StepAt(run, k);
    var a :| Enabled(run[k - 1], a) && run[k] == Apply(run[k - 1], a);
    FlagStep(run[k - 1], a, c);
  }

  /** Between an outermost pushcli and its popcli the flag it saw is kept. */
  lemma {:induction false} FlagKept(run: seq<State>, i: nat, k: nat, c: nat)
    requires Run(run) && i < k < |run|
    requires CpuOf(run[i], c).ncli == 0 && forall m :: i < m <= k ==> CpuOf(run[m], c).ncli > 0
    ensures CpuOf(run[k], c).intena == CpuOf(run[i], c).interrupts
    decreases k
  {
    FlagStepInRun(run, k, c);
    if k > i + 1 {
      FlagKept(run, i, k - 1, c);
    }
  }

  /** When the count returns to zero, interrupts are on exactly if they were on at the outermost
      pushcli, in whatever order the locks taken in between were released. */
  lemma FlagRestored(run: seq<State>, i: nat, j: nat, c: nat)
    requires Run(run) && i + 1 < j < |run|
    requires CpuOf(run[i], c).ncli == 0 && CpuOf(run[j], c).ncli == 0
    requires forall m :: i < m < j ==> CpuOf(run[m], c).ncli > 0
    ensures CpuOf(run[j], c).interrupts == CpuOf(run[i], c).interrupts
  {
    FlagKept(run, i, j - 1, c);
    FlagStepInRun(run, j, c);
  }
}
