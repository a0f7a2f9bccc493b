/**
 The CPU-pinned round-robin schedulers: task i belongs to CPU i mod ncpu, and each interrupt moves
 its CPU to the next task that belongs to it.
 */
module Scheduler {

  /** There is a task for every CPU. */
  predicate Sizes(n: nat, ncpu: nat) {
    1 <= ncpu <= n
  }

  predicate Owned(i: int, ncpu: nat, cpu: nat)
    requires ncpu > 0
  {
    i % ncpu == cpu
  }

  /** The task after `i` on `cpu`, in one step instead of a scan. */
  function Following(n: nat, ncpu: nat, cpu: nat, i: nat): (r: nat)
    requires Sizes(n, ncpu) && cpu < ncpu && i < n && (Owned(i, ncpu, cpu) || i == 0)
    ensures r < n && Owned(r, ncpu, cpu)
  {
    if Owned(i, ncpu, cpu) && i + ncpu < n then ModPlus(i, ncpu); i + ncpu else ModSmall(cpu, ncpu); cpu
  }

  lemma ModPlus(i: nat, d: nat)
    requires d > 0
    ensures (i + d) % d == i % d
  {
    MulDiff(d, i / d, -1);
    DivMod(i + d, d, i / d + 1, i % d);
  }

  lemma ModSmall(i: nat, d: nat)
    requires i < d
    ensures i % d == i
  {
  }

  lemma MulStep(d: int, k: int)
    requires d > 0
    ensures k >= 1 ==> d * k >= d
    ensures k <= -1 ==> d * k <= -d
  {
  }

  lemma MulDiff(d: int, a: int, b: int)
    ensures d * (a - b) == d * a - d * b
  {
  }

  /** Quotient and remainder are unique. */
  lemma DivUnique(d: int, q: int, r: int, q': int, r': int)
    requires d > 0 && 0 <= r < d && 0 <= r' < d && d * q + r == d * q' + r'
    ensures q == q' && r == r'
  {
    MulDiff(d, q', q);
    MulStep(d, q' - q);
  }

  lemma DivMod(x: nat, d: nat, q: int, r: nat)
    requires d > 0 && x == d * q + r && r < d
    ensures x / d == q && x % d == r
  {
    DivUnique(d, q, r, x / d, x % d);
  }

  /** Between one owned task and the next owned index there is no other. */
  lemma NoneBetween(i: nat, j: nat, ncpu: nat, cpu: nat)
    requires ncpu > 0 && i < j < i + ncpu && Owned(i, ncpu, cpu)
    ensures !Owned(j, ncpu, cpu)
  {
    var p, q := i / ncpu, j / ncpu;
    MulDiff(ncpu, q, p);
    MulStep(ncpu, q - p);
  }

  // ----- the scans -----------------------------------------------------------------------

  /** Where a scan for `cpu` that started behind `i` may be: everything passed belongs to others. */
  ghost predicate Scanning(n: nat, ncpu: nat, cpu: nat, i: nat, at: nat) {
    Sizes(n, ncpu) && cpu < ncpu && i < n && at < n && (Owned(i, ncpu, cpu) || i == 0) &&
    if i < at then forall j :: i < j < at ==> !Owned(j, ncpu, cpu)
    else at <= cpu && forall j :: i < j < n ==> !Owned(j, ncpu, cpu)
  }

  lemma ScanStarts(n: nat, ncpu: nat, cpu: nat, i: nat)
    requires Sizes(n, ncpu) && cpu < ncpu && i < n && (Owned(i, ncpu, cpu) || i == 0)
    ensures Scanning(n, ncpu, cpu, i, if i + 1 == n then 0 else i + 1)
  {
  }

  lemma ScanGoesOn(n: nat, ncpu: nat, cpu: nat, i: nat, at: nat)
    requires Scanning(n, ncpu, cpu, i, at) && !Owned(at, ncpu, cpu)
    ensures Scanning(n, ncpu, cpu, i, if at + 1 == n then 0 else at + 1)
  {
    ModSmall(cpu, ncpu);
  }

  lemma ScanEnds(n: nat, ncpu: nat, cpu: nat, i: nat, at: nat)
    requires Scanning(n, ncpu, cpu, i, at) && Owned(at, ncpu, cpu)
    ensures at == Following(n, ncpu, cpu, i)
  {
    ModSmall(cpu, ncpu);
    if i < at {
      if Owned(i, ncpu, cpu) {
        if at < i + ncpu {
          NoneBetween(i, at, ncpu, cpu);
        }
        ModPlus(i, ncpu);
      } else {
        ModSmall(if at < ncpu then at else 0, ncpu);
      }
    } else {
      ModSmall(at, ncpu);
      if Owned(i, ncpu, cpu) && i + ncpu < n {
        ModPlus(i, ncpu);
      }
    }
  }

  /** Steps left in a scan. */
  function ScanLeft(n: nat, cpu: nat, i: nat, at: nat): int {
    if i < at then 2 * n - at else cpu - at
  }

  lemma ScanShrinks(n: nat, ncpu: nat, cpu: nat, i: nat, at: nat)
    requires Scanning(n, ncpu, cpu, i, at) && !Owned(at, ncpu, cpu)
    ensures 0 <= ScanLeft(n, cpu, i, if at + 1 == n then 0 else at + 1) < ScanLeft(n, cpu, i, at)
  {
    ModSmall(cpu, ncpu);
    assert Owned(cpu, ncpu, cpu);
    ScanGoesOn(n, ncpu, cpu, i, at);
  }

  /** thread-os-mp.c: follow the ring until a task of this CPU comes up. */
  method ScanRing(next: seq<nat>, ncpu: nat, cpu: nat, i: nat) returns (at: nat)
    requires Sizes(|next|, ncpu) && cpu < ncpu && i < |next| && (Owned(i, ncpu, cpu) || i == 0)
    requires forall k :: 0 <= k < |next| ==> next[k] == if k + 1 == |next| then 0 else k + 1
    ensures at == Following(|next|, ncpu, cpu, i)
  {
    ghost var n := |next|;
    ScanStarts(n, ncpu, cpu, i);
    at := next[i];
    while at % ncpu != cpu
      invariant Scanning(n, ncpu, cpu, i, at)
      decreases ScanLeft(n, cpu, i, at)
    {
      ScanGoesOn(n, ncpu, cpu, i, at);
      ScanShrinks(n, ncpu, cpu, i, at);
      at := next[at];
    }
    ScanEnds(n, ncpu, cpu, i, at);
  }

  /** trivial-os.c: the same scan by incrementing a pointer and wrapping it. */
  method ScanArray(n: nat, ncpu: nat, cpu: nat, i: nat) returns (at: nat)
    requires Sizes(n, ncpu) && cpu < ncpu && i < n && (Owned(i, ncpu, cpu) || i == 0)
    ensures at == Following(n, ncpu, cpu, i)
  {
    ScanStarts(n, ncpu, cpu, i);
    at := i + 1;
    if at == n {
      at := 0;
    }
    while at % ncpu != cpu
      invariant Scanning(n, ncpu, cpu, i, at)
      decreases ScanLeft(n, cpu, i, at)
    {
      ScanGoesOn(n, ncpu, cpu, i, at);
      ScanShrinks(n, ncpu, cpu, i, at);
      at := at + 1;
      if at == n {
        at := 0;
      }
    }
    ScanEnds(n, ncpu, cpu, i, at);
  }

  // ----- the system as a value -----------------------------------------------------------

  const NONE := -1

  /** Saved contexts of the tasks, and what each CPU is running. */
  datatype Sys = Sys(ncpu: nat, context: seq<int>, current: seq<int>)

  predicate Ok(s: Sys) {
    Sizes(|s.context|, s.ncpu) && |s.current| == s.ncpu &&
    forall c :: 0 <= c < s.ncpu ==> s.current[c] == NONE || (0 <= s.current[c] < |s.context| && Owned(s.current[c], s.ncpu, c))
  }

  /** One interrupt on `cpu` that finds `ctx`. */
  function Interrupted(s: Sys, cpu: nat, ctx: int): (s': Sys)
    requires Ok(s) && cpu < s.ncpu
    ensures Ok(s') && s'.ncpu == s.ncpu && |s'.context| == |s.context| && s'.current[cpu] != NONE
  {
    var at := s.current[cpu];
    var saved := if at == NONE then s.context else s.context[at := ctx];
    s.(context := saved, current := s.current[cpu := Following(|s.context|, s.ncpu, cpu, if at == NONE then 0 else at)])
  }

  // ----- the two programs ----------------------------------------------------------------

  /** thread-os-mp.c: tasks linked in a ring. */
  class RingOs {
    const ncpu: nat
    var next: seq<nat>
    var context: seq<int>
    var current: seq<int>

    ghost function View(): Sys
      reads this
    {
      Sys(ncpu, context, current)
    }

    ghost predicate Valid()
      reads this
    {
      Ok(View()) && |next| == |context| && forall i :: 0 <= i < |next| ==> next[i] == if i + 1 == |next| then 0 else i + 1
    }

    /** main: give every task its first context and link it to the one behind it. */
    constructor (ncpu: nat, initial: seq<int>)
      requires Sizes(|initial|, ncpu)
      ensures Valid() && View() == Sys(ncpu, initial, seq(ncpu, i => NONE))
    {
      this.ncpu := ncpu;
      current := seq(ncpu, i => NONE);
      var n := |initial|;
      var link: seq<nat> := [];
      var ctx: seq<int> := [];
      for i := 0 to n
        invariant |link| == i && ctx == initial[..i]
        invariant forall k :: 0 <= k < i ==> link[k] == if k + 1 == n then 0 else k + 1
      {
        RingLink(i, n);
        link := link + [(i + 1) % n];
        ctx := ctx + [initial[i]];
      }
      assert initial[..n] == initial;
      next, context := link, ctx;
    }

    method OnInterrupt(cpu: nat, ctx: int) returns (r: int)
      requires Valid() && cpu < ncpu
      modifies this`context, this`current
      ensures Valid() && View() == Interrupted(old(View()), cpu, ctx)
      ensures r == context[current[cpu]]
    {
      var i := 0;
      if current[cpu] != NONE {
        i := current[cpu];
        context := context[i := ctx];
      }
      var at := ScanRing(next, ncpu, cpu, i);
      current := current[cpu := at];
      r := context[at];
    }
  }

  lemma RingLink(i: nat, n: nat)
    requires i < n
    ensures (i + 1) % n == if i + 1 == n then 0 else i + 1
  {
    if i + 1 < n {
      ModSmall(i + 1, n);
    }
  }

  /** trivial-os.c: tasks in an array. */
  class ArrayOs {
    const ncpu: nat
    var context: seq<int>
    var current: seq<int>

    ghost function View(): Sys
      reads this
    {
      Sys(ncpu, context, current)
    }

    ghost predicate Valid()
      reads this
    {
      Ok(View())
    }

    constructor (ncpu: nat, initial: seq<int>)
      requires Sizes(|initial|, ncpu)
      ensures Valid() && View() == Sys(ncpu, initial, seq(ncpu, i => NONE))
    {
      this.ncpu := ncpu;
      current := seq(ncpu, i => NONE);
      context := initial;
    }

    method Schedule(cpu: nat, ctx: int) returns (r: int)
      requires Valid() && cpu < ncpu
      modifies this`context, this`current
      ensures Valid() && View() == Interrupted(old(View()), cpu, ctx)
      ensures r == context[current[cpu]]
    {
      var i := 0;
      if current[cpu] != NONE {
        i := current[cpu];
        context := context[i := ctx];
      }
      var at := ScanArray(|context|, ncpu, cpu, i);
      current := current[cpu := at];
      r := context[at];
    }
  }

  // ----- every run -----------------------------------------------------------------------

  datatype Event = Event(cpu: nat, ctx: int)

  ghost predicate Events(es: seq<Event>, ncpu: nat) {
    forall k :: 0 <= k < |es| ==> es[k].cpu < ncpu
  }

  /** The system after a sequence of interrupts. */
  function After(s: Sys, es: seq<Event>): (s': Sys)
    requires Ok(s) && Events(es, s.ncpu)
    ensures Ok(s') && s'.ncpu == s.ncpu && |s'.context| == |s.context|
  {
    if es == [] then s
    else Interrupted(After(s, es[..|es| - 1]), es[|es| - 1].cpu, es[|es| - 1].ctx)
  }

  /** The first task of a CPU: the scan begins behind task 0, so on CPU 0 it finds its second task. */
  lemma FirstInterrupt(s: Sys, c: nat, ctx: int)
    requires Ok(s) && c < s.ncpu && s.current[c] == NONE
    ensures Interrupted(s, c, ctx).context == s.context
    ensures Interrupted(s, c, ctx).current[c] == if c > 0 then c else if s.ncpu < |s.context| then s.ncpu else 0
  {
    ModSmall(0, s.ncpu);
    if c > 0 {
      assert !Owned(0, s.ncpu, c);
    }
  }

  lemma {:induction false} NotYetStarted(s: Sys, es: seq<Event>, c: nat)
    requires Ok(s) && Events(es, s.ncpu) && c < s.ncpu && s.current[c] == NONE
    requires forall d :: 0 <= d < |es| ==> es[d].cpu != c
    ensures After(s, es).current[c] == NONE
    decreases |es|
  {
    if es != [] {
      NotYetStarted(s, es[..|es| - 1], c);
    }
  }

  /** In any run, the first interrupt on CPU 0 starts task ncpu, or task 0 if there is no such task, and
      the first one on any other CPU starts the task with its own number. */
  lemma FirstStart(s: Sys, es: seq<Event>, e: nat)
    requires Ok(s) && Events(es, s.ncpu) && e < |es| && s.current[es[e].cpu] == NONE
    requires forall d :: 0 <= d < e ==> es[d].cpu != es[e].cpu
    ensures var c := es[e].cpu;
            After(s, es[..e + 1]).current[c] == if c > 0 then c else if s.ncpu < |s.context| then s.ncpu else 0
  {
    var before := es[..e];
    NotYetStarted(s, before, es[e].cpu);
    assert es[..e + 1][..e] == before;
    FirstInterrupt(After(s, before), es[e].cpu, es[e].ctx);
  }

  /** No task is current on two CPUs. */
  lemma NoSharing(s: Sys, es: seq<Event>, c: nat, d: nat)
    requires Ok(s) && Events(es, s.ncpu) && c < s.ncpu && d < s.ncpu && c != d
    ensures After(s, es).current[c] == NONE || After(s, es).current[c] != After(s, es).current[d]
  {
    var s' := After(s, es);
    assert s'.current[c] == NONE || Owned(s'.current[c], s.ncpu, c);
    assert s'.current[d] == NONE || Owned(s'.current[d], s.ncpu, d);
  }

  /** Interrupt d finds task j running. */
  ghost predicate Interrupts(s: Sys, es: seq<Event>, d: nat, j: nat)
    requires Ok(s) && Events(es, s.ncpu)
  {
    d < |es| && After(s, es[..d]).current[es[d].cpu] == j
  }

  /** What interrupt e returns: the saved context of the task it puts on its CPU. */
  function Returned(s: Sys, es: seq<Event>, e: nat): int
    requires Ok(s) && Events(es, s.ncpu) && e < |es|
  {
    var s' := After(s, es[..e + 1]);
    s'.context[s'.current[es[e].cpu]]
  }

  /** A saved context changes only when its task is interrupted, and then to what the interrupt found. */
  lemma SavedOnce(s: Sys, es: seq<Event>, d: nat, j: nat)
    requires Ok(s) && Events(es, s.ncpu) && d < |es| && j < |s.context|
    ensures After(s, es[..d + 1]).context[j] == if Interrupts(s, es, d, j) then es[d].ctx else After(s, es[..d]).context[j]
  {
    assert es[..d + 1][..d] == es[..d];
  }

  lemma {:induction false} SavedSince(s: Sys, es: seq<Event>, a: nat, b: nat, j: nat)
    requires Ok(s) && Events(es, s.ncpu) && a <= b <= |es| && j < |s.context|
    requires forall d :: a <= d < b ==> !Interrupts(s, es, d, j)
    ensures After(s, es[..b]).context[j] == After(s, es[..a]).context[j]
    decreases b
  {
    if a < b {
      SavedSince(s, es, a, b - 1, j);
      SavedOnce(s, es, b - 1, j);
    }
  }

  /** Of the interrupts up to e, d is the last that found task j running. */
  ghost predicate LastBefore(s: Sys, es: seq<Event>, e: nat, d: nat, j: nat)
    requires Ok(s) && Events(es, s.ncpu)
  {
    d <= e && Interrupts(s, es, d, j) && forall d' :: d < d' <= e ==> !Interrupts(s, es, d', j)
  }

  lemma SavedByLast(s: Sys, es: seq<Event>, e: nat, d: nat, j: nat)
    requires Ok(s) && Events(es, s.ncpu) && e < |es| && j < |s.context| && LastBefore(s, es, e, d, j)
    ensures After(s, es[..e + 1]).context[j] == es[d].ctx
  {
    SavedOnce(s, es, d, j);
    SavedSince(s, es, d + 1, e + 1, j);
  }

  lemma SavedAtFirst(s: Sys, es: seq<Event>, e: nat, j: nat)
    requires Ok(s) && Events(es, s.ncpu) && e < |es| && j < |s.context|
    requires forall d :: 0 <= d <= e ==> !Interrupts(s, es, d, j)
    ensures After(s, es[..e + 1]).context[j] == s.context[j]
  {
    SavedSince(s, es, 0, e + 1, j);
  }

  lemma StartedIsTask(s: Sys, es: seq<Event>, e: nat)
    requires Ok(s) && Events(es, s.ncpu) && e < |es|
    ensures After(s, es[..e + 1]).current[es[e].cpu] < |s.context|
  {
    var s', c := After(s, es[..e + 1]), es[e].cpu;
    assert s'.current[c] == NONE || 0 <= s'.current[c] < |s'.context|;
  }

  /** Over any run: the interrupt that starts task j returns the context that the last interrupt of j
      up to then found, or the one j had at first if there was none. */
  lemma ResumesWhereLeft(s: Sys, es: seq<Event>, e: nat, j: nat)
    requires Ok(s) && Events(es, s.ncpu) && e < |es| && After(s, es[..e + 1]).current[es[e].cpu] == j
    ensures forall d: nat :: LastBefore(s, es, e, d, j) ==> Returned(s, es, e) == es[d].ctx
    ensures (forall d: nat :: !LastBefore(s, es, e, d, j)) ==> Returned(s, es, e) == s.context[j]
  {
    StartedIsTask(s, es, e);
    forall d: nat | LastBefore(s, es, e, d, j)
      ensures Returned(s, es, e) == es[d].ctx
    {
      SavedByLast(s, es, e, d, j);
    }
    if forall d: nat :: !LastBefore(s, es, e, d, j) {
      NeverBefore(s, es, e, j, e + 1);
      SavedAtFirst(s, es, e, j);
    }
  }

  /** If there is no last one there is none. */
  lemma {:induction false} NeverBefore(s: Sys, es: seq<Event>, e: nat, j: nat, n: nat)
    requires Ok(s) && Events(es, s.ncpu) && n <= e + 1 && forall d: nat :: !LastBefore(s, es, e, d, j)
    ensures forall d :: e + 1 - n <= d <= e ==> !Interrupts(s, es, d, j)
    decreases n
  {
    if n > 0 {
      NeverBefore(s, es, e, j, n - 1);
      assert !LastBefore(s, es, e, e + 1 - n, j);
    }
  }

  // ----- round robin ---------------------------------------------------------------------

  /** How many tasks belong to `cpu`. */
  function TaskCount(n: nat, ncpu: nat, cpu: nat): (k: nat)
    requires Sizes(n, ncpu) && cpu < ncpu
    ensures k >= 1
  {
    (n - 1 - cpu) / ncpu + 1
  }

  /** The p-th task of `cpu`. */
  function TaskAt(ncpu: nat, cpu: nat, p: nat): nat {
    cpu + ncpu * p
  }

  lemma DivAtMost(d: nat, p: nat, x: nat)
    requires d > 0
    ensures d * p <= x <==> p <= x / d
  {
    MulDiff(d, p, x / d);
    MulStep(d, p - x / d);
  }

  /** The tasks of a CPU are the first TaskCount of the arithmetic progression. */
  lemma TasksOfCpu(n: nat, ncpu: nat, cpu: nat, p: nat)
    requires Sizes(n, ncpu) && cpu < ncpu
    ensures Owned(TaskAt(ncpu, cpu, p), ncpu, cpu)
    ensures TaskAt(ncpu, cpu, p) < n <==> p < TaskCount(n, ncpu, cpu)
  {
    DivMod(TaskAt(ncpu, cpu, p), ncpu, p, cpu);
    DivAtMost(ncpu, p, n - 1 - cpu);
  }

  lemma TaskNumber(n: nat, ncpu: nat, cpu: nat, i: nat) returns (p: nat)
    requires Sizes(n, ncpu) && cpu < ncpu && i < n && Owned(i, ncpu, cpu)
    ensures i == TaskAt(ncpu, cpu, p) && p < TaskCount(n, ncpu, cpu)
  {
    p := i / ncpu;
    TasksOfCpu(n, ncpu, cpu, p);
  }

  lemma FollowingNumber(n: nat, ncpu: nat, cpu: nat, p: nat)
    requires Sizes(n, ncpu) && cpu < ncpu && p < TaskCount(n, ncpu, cpu)
    ensures TaskAt(ncpu, cpu, p) < n && Owned(TaskAt(ncpu, cpu, p), ncpu, cpu)
    ensures Following(n, ncpu, cpu, TaskAt(ncpu, cpu, p)) ==
            TaskAt(ncpu, cpu, if p + 1 < TaskCount(n, ncpu, cpu) then p + 1 else 0)
  {
    TasksOfCpu(n, ncpu, cpu, p);
    TasksOfCpu(n, ncpu, cpu, p + 1);
    MulDiff(ncpu, p, -1);
  }

  /** The task a CPU is on after m more interrupts. */
  function Later(n: nat, ncpu: nat, cpu: nat, i: nat, m: nat): (r: nat)
    requires Sizes(n, ncpu) && cpu < ncpu && i < n && Owned(i, ncpu, cpu)
    ensures r < n && Owned(r, ncpu, cpu)
  {
    if m == 0 then i else Following(n, ncpu, cpu, Later(n, ncpu, cpu, i, m - 1))
  }

  /** Interrupts walk through the task numbers of the CPU, wrapping at the end. */
  lemma {:induction false} LaterNumber(n: nat, ncpu: nat, cpu: nat, p: nat, m: nat)
    requires Sizes(n, ncpu) && cpu < ncpu && p < TaskCount(n, ncpu, cpu) && m <= TaskCount(n, ncpu, cpu)
    ensures TaskAt(ncpu, cpu, p) < n && Owned(TaskAt(ncpu, cpu, p), ncpu, cpu)
    ensures Later(n, ncpu, cpu, TaskAt(ncpu, cpu, p), m) ==
            TaskAt(ncpu, cpu, if p + m < TaskCount(n, ncpu, cpu) then p + m else p + m - TaskCount(n, ncpu, cpu))
    decreases m
  {
    TasksOfCpu(n, ncpu, cpu, p);
    if m > 0 {
      LaterNumber(n, ncpu, cpu, p, m - 1);
      var k := TaskCount(n, ncpu, cpu);
      FollowingNumber(n, ncpu, cpu, if p + m - 1 < k then p + m - 1 else p + m - 1 - k);
    }
  }

  lemma TaskAtInjective(ncpu: nat, cpu: nat, p: nat, q: nat)
    requires ncpu > 0 && TaskAt(ncpu, cpu, p) == TaskAt(ncpu, cpu, q)
    ensures p == q
  {
    MulDiff(ncpu, p, q);
    MulStep(ncpu, p - q);
  }

  /** In as many interrupts as a started CPU has tasks, each of its tasks runs exactly once. */
  lemma EachOnce(n: nat, ncpu: nat, cpu: nat, i: nat, j: nat) returns (m: nat)
    requires Sizes(n, ncpu) && cpu < ncpu && i < n && j < n && Owned(i, ncpu, cpu) && Owned(j, ncpu, cpu)
    ensures 1 <= m <= TaskCount(n, ncpu, cpu) && Later(n, ncpu, cpu, i, m) == j
    ensures forall l: nat :: 1 <= l <= TaskCount(n, ncpu, cpu) && Later(n, ncpu, cpu, i, l) == j ==> l == m
  {
    var k := TaskCount(n, ncpu, cpu);
    var p := TaskNumber(n, ncpu, cpu, i);
    var q := TaskNumber(n, ncpu, cpu, j);
    m := if q > p then q - p else q - p + k;
    LaterNumber(n, ncpu, cpu, p, m);
    forall l: nat | 1 <= l <= k && Later(n, ncpu, cpu, i, l) == j
      ensures l == m
    {
      LaterNumber(n, ncpu, cpu, p, l);
      TaskAtInjective(ncpu, cpu, if p + l < k then p + l else p + l - k, q);
    }
  }

  function CountOn(es: seq<Event>, cpu: nat): nat {
    if es == [] then 0 else CountOn(es[..|es| - 1], cpu) + if es[|es| - 1].cpu == cpu then 1 else 0
  }

  /** What a started CPU runs depends only on how many interrupts it has had, whatever the others do. */
  lemma {:induction false} CpusAreIndependent(s: Sys, es: seq<Event>, c: nat)
    requires Ok(s) && Events(es, s.ncpu) && c < s.ncpu && s.current[c] != NONE
    ensures After(s, es).current[c] == Later(|s.context|, s.ncpu, c, s.current[c], CountOn(es, c))
    decreases |es|
  {
    if es != [] {
      CpusAreIndependent(s, es[..|es| - 1], c);
    }
  }

  /** Interrupt e is the m-th one on `cpu`. */
  predicate IsNth(es: seq<Event>, cpu: nat, e: nat, m: nat) {
    e < |es| && es[e].cpu == cpu && CountOn(es[..e + 1], cpu) == m
  }

  lemma {:induction false} Nth(es: seq<Event>, cpu: nat, m: nat) returns (e: nat)
    requires 1 <= m <= CountOn(es, cpu)
    ensures IsNth(es, cpu, e, m)
    decreases |es|
  {
    var n := |es| - 1;
    if CountOn(es[..n], cpu) < m {
      e := n;
      assert es[..n + 1] == es;
    } else {
      e := Nth(es[..n], cpu, m);
      assert es[..n][..e + 1] == es[..e + 1];
    }
  }

  lemma {:induction false} CountGrows(es: seq<Event>, cpu: nat, a: nat, b: nat)
    requires a <= b <= |es|
    ensures CountOn(es[..a], cpu) <= CountOn(es[..b], cpu)
    decreases b
  {
    if a < b {
      CountGrows(es, cpu, a, b - 1);
      assert es[..b][..b - 1] == es[..b - 1];
    }
  }

  lemma NthOnce(es: seq<Event>, cpu: nat, d: nat, e: nat, m: nat)
    requires IsNth(es, cpu, d, m) && IsNth(es, cpu, e, m)
    ensures d == e
  {
    var a, b := if d < e then d else e, if d < e then e else d;
    assert es[..b + 1][..b] == es[..b];
    if a < b {
      CountGrows(es, cpu, a + 1, b);
    }
  }

  /** Interrupt e puts task j on its CPU. */
  ghost predicate Starts(s: Sys, es: seq<Event>, c: nat, e: nat, j: nat)
    requires Ok(s) && Events(es, s.ncpu) && c < s.ncpu
  {
    e < |es| && es[e].cpu == c && After(s, es[..e + 1]).current[c] == j
  }

  lemma StartsAtNth(s: Sys, es: seq<Event>, c: nat, e: nat, j: nat)
    requires Ok(s) && Events(es, s.ncpu) && c < s.ncpu && s.current[c] != NONE && e < |es| && es[e].cpu == c
    ensures Starts(s, es, c, e, j) <==> Later(|s.context|, s.ncpu, c, s.current[c], CountOn(es[..e + 1], c)) == j
    ensures 1 <= CountOn(es[..e + 1], c) <= CountOn(es, c)
  {
    CpusAreIndependent(s, es[..e + 1], c);
    CountGrows(es, c, e + 1, |es|);
    assert es[..|es|] == es;
  }

  /** In any run with as many interrupts on a started CPU as it has tasks, exactly one of them starts
      each of its tasks, whatever happens on the other CPUs. */
  lemma RoundRobin(s: Sys, es: seq<Event>, c: nat, j: nat) returns (e: nat)
    requires Ok(s) && Events(es, s.ncpu) && c < s.ncpu && s.current[c] != NONE
    requires CountOn(es, c) == TaskCount(|s.context|, s.ncpu, c) && j < |s.context| && Owned(j, s.ncpu, c)
    ensures Starts(s, es, c, e, j) && forall d :: Starts(s, es, c, d, j) ==> d == e
  {
    var m := EachOnce(|s.context|, s.ncpu, c, s.current[c], j);
    e := Nth(es, c, m);
    StartsAtNth(s, es, c, e, j);
    forall d: nat | Starts(s, es, c, d, j)
      ensures d == e
    {
      StartsAtNth(s, es, c, d, j);
      NthOnce(es, c, d, e, m);
    }
  }
}
