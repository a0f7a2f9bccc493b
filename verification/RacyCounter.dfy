/**
 The program the trivial model checker explores: threads that increment a shared x by a separate
 load and store. How far off the result can be, over all schedules.
 */
module RacyCounter {
  import opened SeqFacts
  import opened Interleavings
  import opened InterleavingTheory

  /** `t = x` and `x = t + 1` of thread t. */
  datatype Op = Load(t: nat) | Store(t: nat)

  /** m rounds of load and store. */
  function Thread(t: nat, m: nat): (r: seq<Op>)
    ensures |r| == 2 * m
    ensures forall k {:trigger r[k]} :: 0 <= k < |r| ==> r[k] == if k % 2 == 0 then Load(t) else Store(t)
  {
    seq(2 * m, k requires 0 <= k < 2 * m => if k % 2 == 0 then Load(t) else Store(t))
  }

  lemma ThreadSnoc(t: nat, m: nat)
    requires m > 0
    ensures Thread(t, m) == (Thread(t, m - 1) + [Load(t)]) + [Store(t)]
  {
  }

  function Programs(ms: seq<nat>): (P: seq<seq<Op>>)
    ensures |P| == |ms|
    ensures forall t {:trigger P[t]} :: 0 <= t < |ms| ==> P[t] == Thread(t, ms[t])
  {
    seq(|ms|, t requires 0 <= t < |ms| => Thread(t, ms[t]))
  }

  // ----- running a schedule --------------------------------------------------------------

  datatype Memory = Memory(x: int, local: map<nat, int>)

  function Local(m: Memory, t: nat): int {
    if t in m.local then m.local[t] else 0
  }

  function Step(m: Memory, op: Op): Memory {
    match op
    case Load(t) => m.(local := m.local[t := m.x])
    case Store(t) => m.(x := Local(m, t) + 1)
  }

  function Exec(s: seq<Op>): Memory {
    if s == [] then Memory(0, map[]) else Step(Exec(s[..|s| - 1]), s[|s| - 1])
  }

  lemma ExecSnoc(s: seq<Op>, op: Op)
    ensures Exec(s + [op]) == Step(Exec(s), op)
  {
    assert (s + [op])[..|s|] == s;
  }

  // ----- the operations of one thread ----------------------------------------------------

  function Proj(s: seq<Op>, t: nat): seq<Op> {
    if s == [] then [] else Proj(s[..|s| - 1], t) + if s[|s| - 1].t == t then [s[|s| - 1]] else []
  }

  lemma ProjSnoc(s: seq<Op>, op: Op, t: nat)
    ensures Proj(s + [op], t) == Proj(s, t) + if op.t == t then [op] else []
  {
    assert (s + [op])[..|s|] == s;
  }

  lemma {:induction false} ProjMembers(s: seq<Op>, t: nat)
    ensures forall op :: op in Proj(s, t) ==> op in s
  {
    if s != [] {
      ProjMembers(s[..|s| - 1], t);
    }
  }

  /** In a merge every operation is tagged with its own thread. */
  lemma OwnTags(z: seq<Tagged<Op>>, ms: seq<nat>, k: nat)
    requires Merge(z, Programs(ms)) && k < |z|
    ensures z[k].op.t == z[k].thread < |ms|
  {
    MergeOp(z, Programs(ms), k);
    var t := z[k].thread;
    var i :| 0 <= i < |Programs(ms)[t]| && Programs(ms)[t][i] == z[k].op;
  }

  lemma UntagConcat(a: seq<Tagged<Op>>, b: seq<Tagged<Op>>)
    ensures Untag(a + b) == Untag(a) + Untag(b)
  {
  }

  lemma UntagTag(ops: seq<Op>, t: nat)
    ensures Untag(Tag(ops, t)) == ops
  {
  }

  lemma OfOne(x: Tagged<Op>, t: nat)
    ensures Of([x], t) == if x.thread == t then [x] else []
    ensures Untag([x]) == [x.op]
  {
    SplitCons(x, [], t, 0);
    ConcatNil([x]);
  }

  lemma UntagOfSnoc(front: seq<Tagged<Op>>, x: Tagged<Op>, t: nat)
    requires x.op.t == x.thread && Untag(Of(front, t)) == Proj(Untag(front), t)
    ensures Untag(Of(front + [x], t)) == Proj(Untag(front + [x]), t)
  {
    OfConcat(front, [x], t);
    OfOne(x, t);
    UntagConcat(Of(front, t), Of([x], t));
    UntagConcat(front, [x]);
    ProjSnoc(Untag(front), x.op, t);
  }

  lemma {:induction false} UntagOf(z: seq<Tagged<Op>>, t: nat)
    requires forall k :: 0 <= k < |z| ==> z[k].op.t == z[k].thread
    ensures Untag(Of(z, t)) == Proj(Untag(z), t)
    decreases |z|
  {
    if z != [] {
      var front, x := z[..|z| - 1], z[|z| - 1];
      UntagOf(front, t);
      UntagOfSnoc(front, x, t);
      assert z == front + [x];
    }
  }

  /** A schedule contains each thread's program in its own order. */
  lemma ScheduleProj(s: seq<Op>, ms: seq<nat>, t: nat)
    requires s in Build(Programs(ms)) && t < |ms|
    ensures Proj(s, t) == Thread(t, ms[t])
  {
    BuildExact(Programs(ms), s);
    var z: seq<Tagged<Op>> :| Merge(z, Programs(ms)) && Untag(z) == s;
    forall k | 0 <= k < |z|
      ensures z[k].op.t == z[k].thread
    {
      OwnTags(z, ms, k);
    }
    UntagOf(z, t);
    assert Untag(Tag(Thread(t, ms[t]), t)) == Thread(t, ms[t]);
  }

  lemma ScheduleThreads(s: seq<Op>, ms: seq<nat>, k: nat)
    requires s in Build(Programs(ms)) && k < |s|
    ensures s[k].t < |ms|
  {
    BuildExact(Programs(ms), s);
    var z: seq<Tagged<Op>> :| Merge(z, Programs(ms)) && Untag(z) == s;
    OwnTags(z, ms, k);
  }

  // ----- the upper bound -----------------------------------------------------------------

  function Stores(s: seq<Op>): nat {
    if s == [] then 0 else Stores(s[..|s| - 1]) + if s[|s| - 1].Store? then 1 else 0
  }

  ghost predicate Within(m: Memory, n: int) {
    0 <= m.x <= n && forall t: nat {:trigger Local(m, t)} :: 0 <= Local(m, t) <= n
  }

  /** No value is ever larger than the number of stores so far. */
  lemma {:induction false} AtMostStores(s: seq<Op>)
    ensures Within(Exec(s), Stores(s))
  {
    if s != [] {
      var m, op := Exec(s[..|s| - 1]), s[|s| - 1];
      AtMostStores(s[..|s| - 1]);
      forall t: nat
        ensures 0 <= Local(Step(m, op), t) <= Stores(s)
      {
        assert 0 <= Local(m, t) <= Stores(s[..|s| - 1]);
      }
      assert 0 <= Local(m, op.t);
    }
  }

  lemma {:induction false} StoresSnoc(s: seq<Op>, op: Op)
    ensures Stores(s + [op]) == Stores(s) + if op.Store? then 1 else 0
  {
    assert (s + [op])[..|s|] == s;
  }

  lemma {:induction false} StoresConcat(a: seq<Op>, b: seq<Op>)
    ensures Stores(a + b) == Stores(a) + Stores(b)
    decreases |b|
  {
    if b == [] {
      ConcatNil(a);
    } else {
      var front, op := b[..|b| - 1], b[|b| - 1];
      StoresConcat(a, front);
      StoresSnoc(a + front, op);
      assert a + b == (a + front) + [op];
    }
  }

  lemma {:induction false} StoresOfThread(t: nat, m: nat)
    ensures Stores(Thread(t, m)) == m
    decreases m
  {
    if m > 0 {
      StoresOfThread(t, m - 1);
      ThreadSnoc(t, m);
      StoresSnoc(Thread(t, m - 1), Load(t));
      StoresSnoc(Thread(t, m - 1) + [Load(t)], Store(t));
    }
  }

  /** Splitting a schedule splits its stores. */
  lemma {:induction false} StoresSplit(z: seq<Tagged<Op>>, m: nat)
    ensures Stores(Untag(z)) == Stores(Untag(Of(z, m))) + Stores(Untag(Without(z, m)))
    decreases |z|
  {
    if z != [] {
      var x, rest := z[0], z[1..];
      StoresSplit(rest, m);
      assert z == [x] + rest;
      SplitCons(x, rest, m, 0);
      StoresCons(x, rest);
      StoresCons(x, Of(rest, m));
      StoresCons(x, Without(rest, m));
      ConcatNil(Of(rest, m));
      ConcatNil(Without(rest, m));
    }
  }

  lemma StoresCons(x: Tagged<Op>, z: seq<Tagged<Op>>)
    ensures Stores(Untag([x] + z)) == (if x.op.Store? then 1 else 0) + Stores(Untag(z))
  {
    UntagCons(x, z);
    StoresConcat([x.op], Untag(z));
    StoresSnoc([], x.op);
    ConcatNil([x.op]);
  }

  function Sum(ms: seq<nat>): nat {
    if ms == [] then 0 else Sum(ms[..|ms| - 1]) + ms[|ms| - 1]
  }

  lemma {:induction false} StoresOfMerge(z: seq<Tagged<Op>>, ms: seq<nat>)
    requires Merge(z, Programs(ms))
    ensures Stores(Untag(z)) == Sum(ms)
    decreases |ms|
  {
    var P := Programs(ms);
    if ms == [] {
      MergeOfNone(z);
    } else {
      var m := |ms| - 1;
      MergeSplit(z, P);
      assert P[..m] == Programs(ms[..m]);
      StoresOfMerge(Without(z, m), ms[..m]);
      StoresSplit(z, m);
      assert Untag(Tag(P[m], m)) == Thread(m, ms[m]);
      StoresOfThread(m, ms[m]);
    }
  }

  /** The checker runs every schedule of the counter threads exactly once. */
  lemma SchedulesDistinct(ms: seq<nat>)
    ensures Distinct(Build(Programs(ms)))
  {
    DuplicateFree(Programs(ms));
  }

  /** At most every increment counts. */
  lemma UpperBound(s: seq<Op>, ms: seq<nat>)
    requires s in Build(Programs(ms))
    ensures Exec(s).x <= Sum(ms)
  {
    BuildExact(Programs(ms), s);
    var z: seq<Tagged<Op>> :| Merge(z, Programs(ms)) && Untag(z) == s;
    StoresOfMerge(z, ms);
    AtMostStores(s);
  }

  // ----- the lower bound -----------------------------------------------------------------

  lemma {:induction false} SomeStore(s: seq<Op>, t: nat)
    requires Store(t) in s
    ensures Stores(s) > 0
  {
    if s[|s| - 1] != Store(t) {
      SomeStore(s[..|s| - 1], t);
    }
  }

  /** Each thread has done a beginning of its program. */
  ghost predicate Partial(s: seq<Op>, ms: seq<nat>) {
    (forall k :: 0 <= k < |s| ==> s[k].t < |ms|) &&
    forall t :: 0 <= t < |ms| ==> Proj(s, t) <= Thread(t, ms[t])
  }

  lemma PartialFront(s: seq<Op>, ms: seq<nat>)
    requires s != [] && Partial(s, ms)
    ensures Partial(s[..|s| - 1], ms)
  {
    var front := s[..|s| - 1];
    forall t | 0 <= t < |ms|
      ensures Proj(front, t) <= Thread(t, ms[t])
    {
      assert Proj(front, t) <= Proj(s, t);
    }
  }

  /** x is positive after the first store, and so is what a thread loads in any round but its first. */
  ghost predicate Positive(s: seq<Op>, ms: seq<nat>) {
    (Stores(s) > 0 ==> Exec(s).x >= 1) &&
    forall t :: 0 <= t < |ms| && |Proj(s, t)| % 2 == 1 && |Proj(s, t)| >= 3 ==> Local(Exec(s), t) >= 1
  }

  lemma {:induction false} StaysPositive(s: seq<Op>, ms: seq<nat>)
    requires Partial(s, ms)
    ensures Positive(s, ms)
  {
    if s != [] {
      var front, op := s[..|s| - 1], s[|s| - 1];
      assert s == front + [op];
      PartialFront(s, ms);
      StaysPositive(front, ms);
      AtMostStores(front);
      assert op.t < |ms|;
      forall t | 0 <= t < |ms| && |Proj(s, t)| % 2 == 1 && |Proj(s, t)| >= 3
        ensures Local(Exec(s), t) >= 1
      {
        ProjSnoc(front, op, t);
        PositiveStep(front, op, ms, t, Exec(front), Proj(front, t), Proj(s, t));
      }
      assert Local(Exec(front), op.t) >= 0;
    }
  }

  lemma PositiveStep(front: seq<Op>, op: Op, ms: seq<nat>, t: nat, m: Memory, p: seq<Op>, q: seq<Op>)
    requires Positive(front, ms) && t < |ms| && m == Exec(front) && p == Proj(front, t)
    requires q == p + (if op.t == t then [op] else []) && q <= Thread(t, ms[t]) && |q| % 2 == 1 && |q| >= 3
    ensures Local(Step(m, op), t) >= 1
  {
    if op.t == t {
      HasStored(front, op, t, ms[t], p);
    } else {
      ConcatNil(p);
    }
  }

  /** A load in a later round comes after a store. */
  lemma HasStored(front: seq<Op>, op: Op, t: nat, m: nat, p: seq<Op>)
    requires p == Proj(front, t) && p + [op] <= Thread(t, m) && |p| % 2 == 0 && |p| >= 2
    ensures op == Load(t) && Stores(front) > 0
  {
    assert (p + [op])[|p|] == Thread(t, m)[|p|];
    assert (p + [op])[1] == Thread(t, m)[1];
    ProjMembers(front, t);
    SomeStore(front, t);
  }

  /** Each thread has done its whole program. */
  ghost predicate Complete(s: seq<Op>, ms: seq<nat>) {
    (forall k :: 0 <= k < |s| ==> s[k].t < |ms|) &&
    forall t :: 0 <= t < |ms| ==> Proj(s, t) == Thread(t, ms[t])
  }

  lemma ScheduleComplete(s: seq<Op>, ms: seq<nat>)
    requires s in Build(Programs(ms))
    ensures Complete(s, ms)
  {
    forall t | 0 <= t < |ms|
      ensures Proj(s, t) == Thread(t, ms[t])
    {
      ScheduleProj(s, ms, t);
    }
    forall k | 0 <= k < |s|
      ensures s[k].t < |ms|
    {
      ScheduleThreads(s, ms, k);
    }
  }

  /** The last operation is the last store of some thread, which has loaded something positive. */
  lemma LastStore(front: seq<Op>, op: Op, ms: seq<nat>)
    requires Complete(front + [op], ms) && op.t < |ms| && ms[op.t] >= 2 && Positive(front, ms)
    ensures Exec(front + [op]).x >= 2
  {
    var t, p := op.t, Proj(front, op.t);
    ProjSnoc(front, op, t);
    assert (p + [op])[|p|] == op && Thread(t, ms[t])[|p|] == op;
    assert |p| == 2 * ms[t] - 1;
    ExecSnoc(front, op);
  }

  lemma CompleteLower(s: seq<Op>, ms: seq<nat>)
    requires Complete(s, ms) && s != [] && forall t :: 0 <= t < |ms| ==> ms[t] >= 2
    ensures Exec(s).x >= 2
  {
    var front, op := s[..|s| - 1], s[|s| - 1];
    assert Partial(s, ms);
    assert s == front + [op];
    PartialFront(s, ms);
    StaysPositive(front, ms);
    LastStore(front, op, ms);
  }

  /** If every thread does at least two rounds, at least two increments survive. */
  lemma LowerBound(s: seq<Op>, ms: seq<nat>)
    requires s in Build(Programs(ms)) && ms != [] && forall t :: 0 <= t < |ms| ==> ms[t] >= 2
    ensures Exec(s).x >= 2
  {
    ScheduleComplete(s, ms);
    assert |Proj(s, 0)| == |Thread(0, ms[0])|;
    CompleteLower(s, ms);
  }

  /** Every schedule of threads with at least two rounds each ends between 2 and the number of rounds. */
  lemma CounterBounds(s: seq<Op>, ms: seq<nat>)
    requires s in Build(Programs(ms)) && ms != [] && forall t :: 0 <= t < |ms| ==> ms[t] >= 2
    ensures 2 <= Exec(s).x <= Sum(ms)
  {
    LowerBound(s, ms);
    UpperBound(s, ms);
  }

  // ----- both bounds are reached ---------------------------------------------------------

  lemma {:induction false} ExecThread(a: seq<Op>, t: nat, m: nat)
    ensures Exec(a + Thread(t, m)).x == Exec(a).x + m
    decreases m
  {
    if m == 0 {
      ConcatNil(a);
    } else {
      var b := a + Thread(t, m - 1);
      ExecThread(a, t, m - 1);
      ThreadSnoc(t, m);
      ConcatAssoc(a, Thread(t, m - 1), [Load(t)]);
      ConcatAssoc(a, Thread(t, m - 1) + [Load(t)], [Store(t)]);
      ExecSnoc(b, Load(t));
      ExecSnoc(b + [Load(t)], Store(t));
    }
  }

  lemma ExecTagged(a: seq<Tagged<Op>>, t: nat, m: nat)
    ensures Exec(Untag(a + Tag(Thread(t, m), t))).x == Exec(Untag(a)).x + m
  {
    ExecThread(Untag(a), t, m);
    UntagConcat(a, Tag(Thread(t, m), t));
    UntagTag(Thread(t, m), t);
  }

  lemma SerialSnoc(ms: seq<nat>, n: nat)
    requires 0 < n <= |ms|
    ensures Serial(Programs(ms), {}, n) == Serial(Programs(ms), {}, n - 1) + Tag(Thread(n - 1, ms[n - 1]), n - 1)
  {
  }

  lemma {:induction false} ExecSerial(ms: seq<nat>, n: nat)
    requires n <= |ms|
    ensures Exec(Untag(Serial(Programs(ms), {}, n))).x == Sum(ms[..n])
    decreases n
  {
    if n > 0 {
      ExecSerial(ms, n - 1);
      ExecTagged(Serial(Programs(ms), {}, n - 1), n - 1, ms[n - 1]);
      SerialSnoc(ms, n);
      assert ms[..n][..n - 1] == ms[..n - 1];
    }
  }

  /** Running the threads one after the other counts every increment. */
  lemma UpperBoundReached(ms: seq<nat>) returns (s: seq<Op>)
    ensures s in Build(Programs(ms)) && Exec(s).x == Sum(ms)
  {
    var z := Serial(Programs(ms), {}, |ms|);
    SerialMerges(Programs(ms), z);
    s := Untag(z);
    BuildExact(Programs(ms), s);
    ExecSerial(ms, |ms|);
    assert ms[..|ms|] == ms;
  }

  /** Operations of other threads leave what thread t has loaded alone. */
  lemma {:induction false} LocalKept(a: seq<Op>, b: seq<Op>, t: nat)
    requires forall k :: 0 <= k < |b| ==> b[k].t != t
    ensures Local(Exec(a + b), t) == Local(Exec(a), t)
    decreases |b|
  {
    if b == [] {
      ConcatNil(a);
    } else {
      var front, op := b[..|b| - 1], b[|b| - 1];
      LocalKept(a, front, t);
      ExecSnoc(a + front, op);
      assert a + b == (a + front) + [op];
    }
  }

  /** The lossy schedule: thread 0 loads 0; thread 1 does all rounds but one, and the others all of
      theirs; thread 0 stores 1, which thread 1 loads; thread 0 finishes; thread 1 stores 2. */
  function Lossy(ms: seq<nat>): (z: seq<Tagged<Op>>)
    requires |ms| >= 2 && ms[0] >= 1 && ms[1] >= 1
  {
    Tag([Load(0)], 0) + (Tag(Thread(1, ms[1] - 1), 1) + (Serial(Programs(ms), {0, 1}, |ms|) +
    (Tag([Store(0)], 0) + (Tag([Load(1)], 1) + (Tag(Thread(0, ms[0] - 1), 0) + Tag([Store(1)], 1))))))
  }

  lemma {:induction false} SerialAvoids(ms: seq<nat>, n: nat)
    requires n <= |ms|
    ensures forall k :: 0 <= k < |Serial(Programs(ms), {0, 1}, n)| ==>
              Serial(Programs(ms), {0, 1}, n)[k].op.t == Serial(Programs(ms), {0, 1}, n)[k].thread >= 2
    decreases n
  {
    if n > 0 {
      SerialAvoids(ms, n - 1);
    }
  }

  /** `others` runs between the load and the store of thread 0, `last` between those of thread 1. */
  lemma LossyEnds(pre: seq<Op>, others: seq<Op>, last: seq<Op>)
    requires forall k :: 0 <= k < |others| ==> others[k].t != 0
    requires forall k :: 0 <= k < |last| ==> last[k].t != 1
    ensures Exec((((((pre + [Load(0)]) + others) + [Store(0)]) + [Load(1)]) + last) + [Store(1)]).x == Exec(pre).x + 2
  {
    var a := pre + [Load(0)];
    ExecSnoc(pre, Load(0));
    var b := a + others;
    LocalKept(a, others, 0);
    var c := (b + [Store(0)]) + [Load(1)];
    ExecSnoc(b, Store(0));
    ExecSnoc(b + [Store(0)], Load(1));
    LocalKept(c, last, 1);
    ExecSnoc(c + last, Store(1));
  }

  lemma Regroup(p: seq<Op>, a: seq<Op>, b: seq<Op>, c: seq<Op>, d: seq<Op>, e: seq<Op>, f: seq<Op>, g: seq<Op>)
    ensures (((((p + a) + (b + c)) + d) + e) + f) + g == p + (a + (b + (c + (d + (e + (f + g))))))
  {
  }

  lemma OfSeven(a: seq<Tagged<Op>>, b: seq<Tagged<Op>>, c: seq<Tagged<Op>>, d: seq<Tagged<Op>>,
                e: seq<Tagged<Op>>, f: seq<Tagged<Op>>, g: seq<Tagged<Op>>, t: nat)
    ensures Of(a + (b + (c + (d + (e + (f + g))))), t) ==
            Of(a, t) + (Of(b, t) + (Of(c, t) + (Of(d, t) + (Of(e, t) + (Of(f, t) + Of(g, t))))))
  {
    OfFour(a, b, c, d + (e + (f + g)), t);
    OfFour(d, e, f, g, t);
  }

  lemma LossyParts(m0: nat, m1: nat)
    requires m0 >= 1 && m1 >= 1
    ensures Tag([Load(0)], 0) + (Tag([Store(0)], 0) + Tag(Thread(0, m0 - 1), 0)) == Tag(Thread(0, m0), 0)
    ensures Tag(Thread(1, m1 - 1), 1) + (Tag([Load(1)], 1) + Tag([Store(1)], 1)) == Tag(Thread(1, m1), 1)
  {
  }

  lemma OfAll(z: seq<Tagged<Op>>, s: nat, t: nat)
    requires AllOf(z, s)
    ensures Of(z, t) == if s == t then z else []
  {
    assert z == Tag(Untag(z), s);
    OfTag(Untag(z), s, t);
  }

  lemma OfLossy(a: seq<Tagged<Op>>, b: seq<Tagged<Op>>, c: seq<Tagged<Op>>, d: seq<Tagged<Op>>,
                e: seq<Tagged<Op>>, f: seq<Tagged<Op>>, g: seq<Tagged<Op>>, t: nat)
    requires AllOf(a, 0) && AllOf(b, 1) && AllOf(d, 0) && AllOf(e, 1) && AllOf(f, 0) && AllOf(g, 1)
    requires t < 2 ==> Of(c, t) == []
    ensures Of(a + (b + (c + (d + (e + (f + g))))), t) ==
            if t == 0 then a + (d + f) else if t == 1 then b + (e + g) else Of(c, t)
  {
    OfSeven(a, b, c, d, e, f, g, t);
    OfAll(a, 0, t);
    OfAll(b, 1, t);
    OfAll(d, 0, t);
    OfAll(e, 1, t);
    OfAll(f, 0, t);
    OfAll(g, 1, t);
    AssembleLossy(Of(a, t), Of(b, t), Of(c, t), Of(d, t), Of(e, t), Of(f, t), Of(g, t), t);
  }

  lemma AssembleLossy(a: seq<Tagged<Op>>, b: seq<Tagged<Op>>, c: seq<Tagged<Op>>, d: seq<Tagged<Op>>,
                      e: seq<Tagged<Op>>, f: seq<Tagged<Op>>, g: seq<Tagged<Op>>, t: nat)
    requires t == 0 ==> b == [] && c == [] && e == [] && g == []
    requires t == 1 ==> a == [] && c == [] && d == [] && f == []
    requires t >= 2 ==> a == [] && b == [] && d == [] && e == [] && f == [] && g == []
    ensures a + (b + (c + (d + (e + (f + g))))) == if t == 0 then a + (d + f) else if t == 1 then b + (e + g) else c
  {
  }

  lemma LossyMerges(ms: seq<nat>)
    requires |ms| >= 2 && ms[0] >= 1 && ms[1] >= 1
    ensures Merge(Lossy(ms), Programs(ms))
  {
    var a, b, c := Tag([Load(0)], 0), Tag(Thread(1, ms[1] - 1), 1), Serial(Programs(ms), {0, 1}, |ms|);
    var d, e := Tag([Store(0)], 0), Tag([Load(1)], 1);
    var f, g := Tag(Thread(0, ms[0] - 1), 0), Tag([Store(1)], 1);
    LossyParts(ms[0], ms[1]);
    PartsMerge(ms, a, b, c, d, e, f, g, Lossy(ms));
  }

  lemma PartsMerge(ms: seq<nat>, a: seq<Tagged<Op>>, b: seq<Tagged<Op>>, c: seq<Tagged<Op>>, d: seq<Tagged<Op>>,
                   e: seq<Tagged<Op>>, f: seq<Tagged<Op>>, g: seq<Tagged<Op>>, z: seq<Tagged<Op>>)
    requires AllOf(a, 0) && AllOf(b, 1) && AllOf(d, 0) && AllOf(e, 1) && AllOf(f, 0) && AllOf(g, 1)
    requires |ms| >= 2 && c == Serial(Programs(ms), {0, 1}, |ms|)
    requires a + (d + f) == Tag(Thread(0, ms[0]), 0) && b + (e + g) == Tag(Thread(1, ms[1]), 1)
    requires z == a + (b + (c + (d + (e + (f + g)))))
    ensures Merge(z, Programs(ms))
  {
    forall t: nat | t < |ms|
      ensures Of(z, t) == Tag(Programs(ms)[t], t)
    {
      OthersOf(ms, c, t);
      OfLossy(a, b, c, d, e, f, g, t);
    }
    LossyThreads(ms, a, b, c, d, e, f, g);
  }

  lemma OthersOf(ms: seq<nat>, c: seq<Tagged<Op>>, t: nat)
    requires |ms| >= 2 && c == Serial(Programs(ms), {0, 1}, |ms|) && t < |ms|
    ensures Of(c, t) == if t < 2 then [] else Tag(Thread(t, ms[t]), t)
  {
    OfSerial(Programs(ms), {0, 1}, |ms|, c, t);
  }

  lemma LossyThreads(ms: seq<nat>, a: seq<Tagged<Op>>, b: seq<Tagged<Op>>, c: seq<Tagged<Op>>, d: seq<Tagged<Op>>,
                     e: seq<Tagged<Op>>, f: seq<Tagged<Op>>, g: seq<Tagged<Op>>)
    requires AllOf(a, 0) && AllOf(b, 1) && AllOf(d, 0) && AllOf(e, 1) && AllOf(f, 0) && AllOf(g, 1)
    requires |ms| >= 2 && c == Serial(Programs(ms), {0, 1}, |ms|)
    ensures forall k :: 0 <= k < |a + (b + (c + (d + (e + (f + g)))))| ==>
              (a + (b + (c + (d + (e + (f + g))))))[k].thread < |ms|
  {
    ThreadsOfSerial(Programs(ms), {0, 1}, |ms|);
    ThreadsConcat(f, g, |ms|);
    ThreadsConcat(e, f + g, |ms|);
    ThreadsConcat(d, e + (f + g), |ms|);
    ThreadsConcat(c, d + (e + (f + g)), |ms|);
    ThreadsConcat(b, c + (d + (e + (f + g))), |ms|);
    ThreadsConcat(a, b + (c + (d + (e + (f + g)))), |ms|);
  }

  lemma UntagSeven(a: seq<Tagged<Op>>, b: seq<Tagged<Op>>, c: seq<Tagged<Op>>, d: seq<Tagged<Op>>,
                   e: seq<Tagged<Op>>, f: seq<Tagged<Op>>, g: seq<Tagged<Op>>)
    ensures Untag(a + (b + (c + (d + (e + (f + g)))))) ==
            Untag(a) + (Untag(b) + (Untag(c) + (Untag(d) + (Untag(e) + (Untag(f) + Untag(g))))))
  {
    UntagConcat(f, g);
    UntagConcat(e, f + g);
    UntagConcat(d, e + (f + g));
    UntagConcat(c, d + (e + (f + g)));
    UntagConcat(b, c + (d + (e + (f + g))));
    UntagConcat(a, b + (c + (d + (e + (f + g)))));
  }

  /** With two threads or more, all but two increments can be lost. */
  lemma LowerBoundReached(ms: seq<nat>) returns (s: seq<Op>)
    requires |ms| >= 2 && ms[0] >= 1 && ms[1] >= 1
    ensures s in Build(Programs(ms)) && Exec(s).x == 2
  {
    s := Untag(Lossy(ms));
    LossyMerges(ms);
    BuildExact(Programs(ms), s);
    LossyResult([], ms);
    ConcatNil(s);
  }

  /** After anything that has left x at some value, the lossy schedule adds 2. */
  lemma LossyResult(pre: seq<Op>, ms: seq<nat>)
    requires |ms| >= 2 && ms[0] >= 1 && ms[1] >= 1
    ensures Exec(pre + Untag(Lossy(ms))).x == Exec(pre).x + 2
  {
    LossyText(ms);
    var others := Untag(Serial(Programs(ms), {0, 1}, |ms|));
    SerialAvoids(ms, |ms|);
    LossyEnds(pre, Thread(1, ms[1] - 1) + others, Thread(0, ms[0] - 1));
    Regroup(pre, [Load(0)], Thread(1, ms[1] - 1), others, [Store(0)], [Load(1)], Thread(0, ms[0] - 1), [Store(1)]);
  }

  lemma LossyText(ms: seq<nat>)
    requires |ms| >= 2 && ms[0] >= 1 && ms[1] >= 1
    ensures var others := Untag(Serial(Programs(ms), {0, 1}, |ms|));
            Untag(Lossy(ms)) ==
            [Load(0)] + (Thread(1, ms[1] - 1) + (others + ([Store(0)] + ([Load(1)] + (Thread(0, ms[0] - 1) + [Store(1)])))))
  {
    UntagSeven(Tag([Load(0)], 0), Tag(Thread(1, ms[1] - 1), 1), Serial(Programs(ms), {0, 1}, |ms|),
               Tag([Store(0)], 0), Tag([Load(1)], 1), Tag(Thread(0, ms[0] - 1), 0), Tag([Store(1)], 1));
    UntagTag([Load(0)], 0);
    UntagTag(Thread(1, ms[1] - 1), 1);
    UntagTag([Store(0)], 0);
    UntagTag([Load(1)], 1);
    UntagTag(Thread(0, ms[0] - 1), 0);
    UntagTag([Store(1)], 1);
  }
}
