/**
 Every result the racy counter can end with, over all schedules.
 */
module RacyResults {
  import opened SeqFacts
  import opened Interleavings
  import opened InterleavingTheory
  import opened RacyCounter

  // ----- one merge after another ---------------------------------------------------------

  /** Round counts added thread by thread. */
  function Plus(ks: seq<nat>, rs: seq<nat>): (ms: seq<nat>)
    requires |ks| == |rs|
    ensures |ms| == |ks|
    ensures forall t {:trigger ms[t]} :: 0 <= t < |ms| ==> ms[t] == ks[t] + rs[t]
  {
    seq(|ks|, t requires 0 <= t < |ks| => ks[t] + rs[t])
  }

  lemma TagThreads(t: nat, a: nat, b: nat)
    ensures Tag(Thread(t, a), t) + Tag(Thread(t, b), t) == Tag(Thread(t, a + b), t)
  {
  }

  /** Some rounds of every thread, and then the others. */
  lemma MergeInTwo(ks: seq<nat>, rs: seq<nat>, y: seq<Tagged<Op>>, z: seq<Tagged<Op>>)
    requires |ks| == |rs| && Merge(y, Programs(ks)) && Merge(z, Programs(rs))
    ensures Merge(y + z, Programs(Plus(ks, rs)))
  {
    var ms := Plus(ks, rs);
    forall t: nat | t < |ms|
      ensures Of(y + z, t) == Tag(Programs(ms)[t], t)
    {
      OfConcat(y, z, t);
      TagThreads(t, ks[t], rs[t]);
    }
    ThreadsConcat(y, z, |ms|);
  }

  // ----- choosing the rounds that are not lost -------------------------------------------

  lemma {:induction false} SumUpdate(ms: seq<nat>, i: nat, v: nat)
    requires i < |ms|
    ensures Sum(ms[i := v]) == Sum(ms) - ms[i] + v
    decreases |ms|
  {
    var n := |ms| - 1;
    if i == n {
      assert ms[i := v][..n] == ms[..n];
    } else {
      SumUpdate(ms[..n], i, v);
      assert ms[i := v][..n] == ms[..n][i := v];
    }
  }

  predicate Below(ks: seq<nat>, caps: seq<nat>) {
    |ks| == |caps| && forall t :: 0 <= t < |ks| ==> ks[t] <= caps[t]
  }

  /** Any number up to the sum can be shared out within the caps. */
  lemma {:induction false} ShareOut(caps: seq<nat>, k: nat) returns (ks: seq<nat>)
    requires k <= Sum(caps)
    ensures Below(ks, caps) && Sum(ks) == k
    decreases |caps|
  {
    if caps == [] {
      ks := [];
    } else {
      var n := |caps| - 1;
      var mine := if k < caps[n] then k else caps[n];
      var front := ShareOut(caps[..n], k - mine);
      ks := front + [mine];
      assert ks[..n] == front;
    }
  }

  function Minus(ms: seq<nat>, ks: seq<nat>): (rs: seq<nat>)
    requires Below(ks, ms)
    ensures |rs| == |ms|
    ensures forall t {:trigger rs[t]} :: 0 <= t < |rs| ==> rs[t] == ms[t] - ks[t]
  {
    seq(|ms|, t requires 0 <= t < |ms| => ms[t] - ks[t])
  }

  lemma ShareAllButTwo(ms: seq<nat>, k: nat) returns (ks: seq<nat>)
    requires |ms| >= 2 && ms[0] >= 1 && ms[1] >= 1 && k + 2 <= Sum(ms)
    ensures Below(ks, ms) && Sum(ks) == k && ks[0] < ms[0] && ks[1] < ms[1]
  {
    var less := ms[0 := ms[0] - 1];
    var caps := less[1 := ms[1] - 1];
    SumUpdate(ms, 0, ms[0] - 1);
    SumUpdate(less, 1, ms[1] - 1);
    ks := ShareOut(caps, k);
    assert ks[0] <= caps[0] && ks[1] <= caps[1];
    assert forall t :: 0 <= t < |ks| ==> ks[t] <= caps[t] <= ms[t];
  }

  // ----- results -------------------------------------------------------------------------

  lemma TwoPhases(ks: seq<nat>, rs: seq<nat>) returns (s: seq<Op>)
    requires |ks| == |rs| >= 2 && rs[0] >= 1 && rs[1] >= 1
    ensures s in Build(Programs(Plus(ks, rs))) && Exec(s).x == Sum(ks) + 2
  {
    var y, z := Serial(Programs(ks), {}, |ks|), Lossy(rs);
    SerialMerges(Programs(ks), y);
    LossyMerges(rs);
    MergeInTwo(ks, rs, y, z);
    s := Untag(y + z);
    BuildExact(Programs(Plus(ks, rs)), s);
    SerialEnds(ks, y);
    LossyAfter(ks, rs, y, z);
  }

  lemma SerialEnds(ks: seq<nat>, y: seq<Tagged<Op>>)
    requires y == Serial(Programs(ks), {}, |ks|)
    ensures Exec(Untag(y)).x == Sum(ks)
  {
    ExecSerial(ks, |ks|);
    assert ks[..|ks|] == ks;
  }

  lemma LossyAfter(ks: seq<nat>, rs: seq<nat>, y: seq<Tagged<Op>>, z: seq<Tagged<Op>>)
    requires |rs| >= 2 && rs[0] >= 1 && rs[1] >= 1 && z == Lossy(rs) && Exec(Untag(y)).x == Sum(ks)
    ensures Exec(Untag(y + z)).x == Sum(ks) + 2
  {
    UntagConcat(y, z);
    LossyResult(Untag(y), rs);
  }

  /** Every value from 2 up to the number of rounds is the result of some schedule. */
  lemma EveryResult(ms: seq<nat>, v: nat) returns (s: seq<Op>)
    requires |ms| >= 2 && ms[0] >= 1 && ms[1] >= 1 && 2 <= v <= Sum(ms)
    ensures s in Build(Programs(ms)) && Exec(s).x == v
  {
    var ks := ShareAllButTwo(ms, v - 2);
    assert Plus(ks, Minus(ms, ks)) == ms;
    s := TwoPhases(ks, Minus(ms, ks));
  }

  /** Thread t loads first and stores last. */
  function Around(ms: seq<nat>, t: nat): (z: seq<Tagged<Op>>) {
    Tag([Load(t)], t) + (Serial(Programs(ms), {t}, |ms|) + Tag([Store(t)], t))
  }

  lemma AroundSplits(t: nat, u: nat, a: seq<Tagged<Op>>, b: seq<Tagged<Op>>, c: seq<Tagged<Op>>)
    requires AllOf(a, t) && AllOf(c, t) && (u == t ==> Of(b, u) == [])
    ensures Of(a + (b + c), u) == if u == t then a + c else Of(b, u)
  {
    OfConcat(b, c, u);
    OfConcat(a, b + c, u);
    OfAll(a, t, u);
    OfAll(c, t, u);
    ConcatNil(c);
    ConcatNil(Of(b, u));
  }

  lemma AroundIsMerge(ms: seq<nat>, t: nat)
    requires t < |ms| && ms[t] == 1
    ensures Merge(Around(ms, t), Programs(ms))
  {
    var a, b, c := Tag([Load(t)], t), Serial(Programs(ms), {t}, |ms|), Tag([Store(t)], t);
    forall u: nat | u < |ms|
      ensures Of(a + (b + c), u) == Tag(Programs(ms)[u], u)
    {
      OfSerial(Programs(ms), {t}, |ms|, b, u);
      AroundSplits(t, u, a, b, c);
      OneRound(t);
    }
    ThreadsOfSerial(Programs(ms), {t}, |ms|);
    ThreadsConcat(b, c, |ms|);
    ThreadsConcat(a, b + c, |ms|);
  }

  lemma OneRound(t: nat)
    ensures Tag([Load(t)], t) + Tag([Store(t)], t) == Tag(Thread(t, 1), t)
  {
  }

  lemma {:induction false} SerialSkips(ms: seq<nat>, t: nat, n: nat)
    requires n <= |ms|
    ensures forall k :: 0 <= k < |Serial(Programs(ms), {t}, n)| ==> Serial(Programs(ms), {t}, n)[k].op.t != t
    decreases n
  {
    if n > 0 {
      SerialSkips(ms, t, n - 1);
    }
  }

  /** A thread with one round can overwrite everything the others do. */
  lemma OneReached(ms: seq<nat>, t: nat) returns (s: seq<Op>)
    requires t < |ms| && ms[t] == 1
    ensures s in Build(Programs(ms)) && Exec(s).x == 1
  {
    var z, b := Around(ms, t), Serial(Programs(ms), {t}, |ms|);
    AroundIsMerge(ms, t);
    s := Untag(z);
    BuildExact(Programs(ms), s);
    UntagConcat(Tag([Load(t)], t), b + Tag([Store(t)], t));
    UntagConcat(b, Tag([Store(t)], t));
    UntagTag([Load(t)], t);
    UntagTag([Store(t)], t);
    SerialSkips(ms, t, |ms|);
    AroundEnds(Untag(b), t);
    ConcatAssoc([Load(t)], Untag(b), [Store(t)]);
  }

  lemma AroundEnds(others: seq<Op>, t: nat)
    requires forall k :: 0 <= k < |others| ==> others[k].t != t
    ensures Exec(([Load(t)] + others) + [Store(t)]).x == 1
  {
    ExecSnoc([], Load(t));
    ConcatNil([Load(t)]);
    LocalKept([Load(t)], others, t);
    ExecSnoc([Load(t)] + others, Store(t));
  }

  /** At least one increment survives if there is one. */
  lemma AtLeastOne(s: seq<Op>, ms: seq<nat>)
    requires s in Build(Programs(ms)) && Sum(ms) > 0
    ensures Exec(s).x >= 1
  {
    ScheduleComplete(s, ms);
    assert Partial(s, ms);
    StaysPositive(s, ms);
    BuildExact(Programs(ms), s);
    var z :| Merge(z, Programs(ms)) && Untag(z) == s;
    StoresOfMerge(z, ms);
  }

  predicate AllRun(ms: seq<nat>) {
    forall t :: 0 <= t < |ms| ==> ms[t] >= 1
  }

  /** Some thread has exactly one round. */
  predicate HasSingle(ms: seq<nat>) {
    exists t :: 0 <= t < |ms| && ms[t] == 1
  }

  /** The schedules of two or more threads end with exactly the values from 2, or from 1 if some thread
      has a single round, to the number of rounds. */
  lemma ResultsExact(ms: seq<nat>, v: int)
    requires |ms| >= 2 && AllRun(ms)
    ensures (exists s :: s in Build(Programs(ms)) && Exec(s).x == v) <==> (if HasSingle(ms) then 1 else 2) <= v <= Sum(ms)
  {
    forall s | s in Build(Programs(ms)) && Exec(s).x == v
      ensures (if HasSingle(ms) then 1 else 2) <= v <= Sum(ms)
    {
      UpperBound(s, ms);
      if HasSingle(ms) {
        SumAtLeast(ms, 0);
        AtLeastOne(s, ms);
      } else {
        LowerBound(s, ms);
      }
    }
    if 2 <= v <= Sum(ms) {
      var s := EveryResult(ms, v);
    } else if v == 1 && HasSingle(ms) {
      var t :| 0 <= t < |ms| && ms[t] == 1;
      var s := OneReached(ms, t);
    }
  }

  lemma {:induction false} SumAtLeast(ms: seq<nat>, t: nat)
    requires t < |ms|
    ensures Sum(ms) >= ms[t]
    decreases |ms|
  {
    if t < |ms| - 1 {
      SumAtLeast(ms[..|ms| - 1], t);
    }
  }
}
