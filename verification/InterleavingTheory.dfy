/**
 What the schedule builder enumerates: exactly the merges that keep each list's own order, each
 once, as many as the multinomial coefficient says.
 */
module InterleavingTheory {
  import opened SeqFacts
  import opened Interleavings

  // ----- the reference: merges, as schedules whose operations know their thread ----------

  datatype Tagged<T> = Tagged(op: T, thread: nat)

  /** The part of `z` that belongs to thread t. */
  function Of<T>(z: seq<Tagged<T>>, t: nat): (r: seq<Tagged<T>>) {
    if z == [] then [] else (if z[0].thread == t then [z[0]] else []) + Of(z[1..], t)
  }

  /** The rest. */
  function Without<T>(z: seq<Tagged<T>>, t: nat): (r: seq<Tagged<T>>) {
    if z == [] then [] else (if z[0].thread == t then [] else [z[0]]) + Without(z[1..], t)
  }

  function Tag<T>(ops: seq<T>, t: nat): (r: seq<Tagged<T>>)
    ensures |r| == |ops|
    ensures forall i {:trigger r[i]} :: 0 <= i < |ops| ==> r[i] == Tagged(ops[i], t)
  {
    seq(|ops|, i requires 0 <= i < |ops| => Tagged(ops[i], t))
  }

  function TagAll<T>(P: seq<seq<T>>): (r: seq<seq<Tagged<T>>>)
    ensures |r| == |P|
    ensures forall t {:trigger r[t]} :: 0 <= t < |P| ==> r[t] == Tag(P[t], t)
  {
    seq(|P|, t requires 0 <= t < |P| => Tag(P[t], t))
  }

  function Untag<T>(z: seq<Tagged<T>>): (r: seq<T>)
    ensures |r| == |z|
    ensures forall i {:trigger r[i]} {:trigger z[i]} :: 0 <= i < |z| ==> r[i] == z[i].op
  {
    seq(|z|, i requires 0 <= i < |z| => z[i].op)
  }

  /** `z` is made of the operations of `P`, each thread's in its own order. */
  ghost predicate Merge<T>(z: seq<Tagged<T>>, P: seq<seq<T>>) {
    (forall i :: 0 <= i < |z| ==> z[i].thread < |P|) &&
    forall t :: 0 <= t < |P| ==> Of(z, t) == Tag(P[t], t)
  }

  ghost predicate IsInterleaving<T(!new)>(s: seq<T>, P: seq<seq<T>>) {
    exists z :: Merge(z, P) && Untag(z) == s
  }

  // ----- weaving and splitting are inverse -----------------------------------------------

  /** Where the operations of thread t stand among the rest. */
  function PosOf<T>(z: seq<Tagged<T>>, t: nat, base: nat): (r: seq<nat>) {
    if z == [] then []
    else if z[0].thread == t then [base] + PosOf(z[1..], t, base)
    else PosOf(z[1..], t, base + 1)
  }

  lemma {:induction false} SplitOk<T>(z: seq<Tagged<T>>, t: nat, base: nat)
    ensures Positions(PosOf(z, t, base), base, base + |Without(z, t)| + 1, |Of(z, t)|)
    decreases |z|
  {
    if z != [] {
      if z[0].thread == t {
        SplitOk(z[1..], t, base);
        assert PosOf(z, t, base)[1..] == PosOf(z[1..], t, base);
        assert Without(z, t) == Without(z[1..], t);
      } else {
        SplitOk(z[1..], t, base + 1);
        assert Of(z, t) == Of(z[1..], t);
      }
    }
  }

  lemma SplitCons<T>(x: Tagged<T>, z: seq<Tagged<T>>, t: nat, base: nat)
    ensures Of([x] + z, t) == (if x.thread == t then [x] else []) + Of(z, t)
    ensures Without([x] + z, t) == (if x.thread == t then [] else [x]) + Without(z, t)
    ensures PosOf([x] + z, t, base) == if x.thread == t then [base] + PosOf(z, t, base) else PosOf(z, t, base + 1)
  {
    assert ([x] + z)[1..] == z;
  }

  lemma WeaveTake<T>(ops: seq<T>, pos: seq<nat>, sched: seq<T>, base: nat, x: T, z: seq<T>)
    requires |pos| == |ops| && Weave(ops, pos, sched, base) == z
    ensures Weave([x] + ops, [base] + pos, sched, base) == [x] + z
  {
    assert ([x] + ops)[1..] == ops && ([base] + pos)[1..] == pos;
  }

  lemma WeavePass<T>(ops: seq<T>, pos: seq<nat>, sched: seq<T>, base: nat, x: T, z: seq<T>)
    requires |pos| == |ops| && (pos != [] ==> pos[0] != base) && Weave(ops, pos, sched, base + 1) == z
    ensures Weave(ops, pos, [x] + sched, base) == [x] + z
  {
    assert ([x] + sched)[1..] == sched;
  }

  /** Splitting a schedule and weaving it together again gives it back. */
  lemma {:induction false} WeaveOfSplit<T>(z: seq<Tagged<T>>, t: nat, base: nat)
    ensures Weave(Of(z, t), PosOf(z, t, base), Without(z, t), base) == z
    decreases |z|
  {
    if z != [] {
      var x, rest := z[0], z[1..];
      var b := if x.thread == t then base else base + 1;
      SplitOk(rest, t, b);
      WeaveOfSplit(rest, t, b);
      SplitCons(x, rest, t, base);
      assert [x] + rest == z;
      ConcatNil(Of(rest, t));
      ConcatNil(Without(rest, t));
      if x.thread == t {
        WeaveTake(Of(rest, t), PosOf(rest, t, base), Without(rest, t), base, x, rest);
      } else {
        WeavePass(Of(rest, t), PosOf(rest, t, base + 1), Without(rest, t), base, x, rest);
      }
    }
  }

  ghost predicate AllOf<T>(z: seq<Tagged<T>>, t: nat) {
    forall i :: 0 <= i < |z| ==> z[i].thread == t
  }

  ghost predicate NoneOf<T>(z: seq<Tagged<T>>, t: nat) {
    forall i :: 0 <= i < |z| ==> z[i].thread != t
  }

  /** Weaving and splitting again gives the parts back. */
  lemma {:induction false} SplitOfWeave<T>(ops: seq<Tagged<T>>, pos: seq<nat>, sched: seq<Tagged<T>>, base: nat, t: nat)
    requires AllOf(ops, t) && NoneOf(sched, t) && Positions(pos, base, base + |sched| + 1, |ops|)
    ensures var z := Weave(ops, pos, sched, base);
            Of(z, t) == ops && Without(z, t) == sched && PosOf(z, t, base) == pos
    decreases |ops| + |sched|
  {
    if ops != [] && (pos[0] == base || sched == []) {
      SplitOfWeave(ops[1..], pos[1..], sched, base, t);
      SplitCons(ops[0], Weave(ops[1..], pos[1..], sched, base), t, base);
      assert ops == [ops[0]] + ops[1..] && pos == [base] + pos[1..];
      ConcatNil(sched);
    } else if sched != [] {
      SplitOfWeave(ops, pos, sched[1..], base + 1, t);
      SplitCons(sched[0], Weave(ops, pos, sched[1..], base + 1), t, base);
      assert sched == [sched[0]] + sched[1..];
      ConcatNil(ops);
    }
  }

  lemma {:induction false} OfWithout<T>(z: seq<Tagged<T>>, m: nat, t: nat)
    requires t != m
    ensures Of(Without(z, m), t) == Of(z, t)
    decreases |z|
  {
    if z != [] {
      OfWithout(z[1..], m, t);
      if z[0].thread == m {
        ConcatNil(Without(z[1..], m));
        ConcatNil(Of(z[1..], t));
      } else {
        SplitCons(z[0], Without(z[1..], m), t, 0);
      }
    }
  }

  lemma {:induction false} WithoutMembers<T>(z: seq<Tagged<T>>, m: nat, x: Tagged<T>)
    ensures x in Without(z, m) <==> x in z && x.thread != m
    decreases |z|
  {
    if z != [] {
      WithoutMembers(z[1..], m, x);
      assert z == [z[0]] + z[1..];
    }
  }

  lemma {:induction false} OfMembers<T>(z: seq<Tagged<T>>, t: nat, x: Tagged<T>)
    ensures x in Of(z, t) <==> x in z && x.thread == t
    decreases |z|
  {
    if z != [] {
      OfMembers(z[1..], t, x);
      assert z == [z[0]] + z[1..];
    }
  }

  /** A schedule of P and its parts: the last thread, and a schedule of the threads before it. */
  lemma MergeSplit<T>(z: seq<Tagged<T>>, P: seq<seq<T>>)
    requires P != []
    ensures Merge(z, P) <==>
            Of(z, |P| - 1) == Tag(P[|P| - 1], |P| - 1) && Merge(Without(z, |P| - 1), P[..|P| - 1])
  {
    var m := |P| - 1;
    var rest, before := Without(z, m), P[..m];
    forall t | 0 <= t < m
      ensures Of(rest, t) == Of(z, t) && before[t] == P[t]
    {
      OfWithout(z, m, t);
    }
    if Merge(z, P) {
      forall i | 0 <= i < |rest|
        ensures rest[i].thread < m
      {
        WithoutMembers(z, m, rest[i]);
        var j :| 0 <= j < |z| && z[j] == rest[i];
      }
    }
    if Merge(rest, before) {
      forall i | 0 <= i < |z|
        ensures z[i].thread < |P|
      {
        WithoutMembers(z, m, z[i]);
        if z[i].thread != m {
          var j :| 0 <= j < |rest| && rest[j] == z[i];
        }
      }
    }
  }

  // ----- the builder enumerates the merges -----------------------------------------------

  lemma StepSound<T>(ops: seq<T>, n: nat, I: seq<seq<T>>, z: seq<T>) returns (p: seq<nat>, s: seq<T>)
    requires z in BuildStep(ops, n, I)
    ensures Positions(p, 0, n + 1, |ops|) && s in I && z == Weave(ops, p, s, 0)
  {
    p, s := ExtendSound(ops, Combos(0, n + 1, |ops|), I, z);
    CombosExact(0, n + 1, |ops|, p);
  }

  lemma StepComplete<T>(ops: seq<T>, n: nat, I: seq<seq<T>>, p: seq<nat>, s: seq<T>)
    requires Positions(p, 0, n + 1, |ops|) && s in I
    ensures Weave(ops, p, s, 0) in BuildStep(ops, n, I)
  {
    CombosExact(0, n + 1, |ops|, p);
    ExtendComplete(ops, Combos(0, n + 1, |ops|), I, p, s);
  }

  lemma TagAllFront<T>(P: seq<seq<T>>)
    requires P != []
    ensures var m := |P| - 1; TagAll(P)[..m] == TagAll(P[..m]) && TagAll(P)[m] == Tag(P[m], m)
  {
  }

  /** The schedules of P are built from those of all threads but the last. */
  lemma TaggedBuild<T>(P: seq<seq<T>>)
    requires P != []
    ensures var m := |P| - 1; var before := TagAll(P[..m]);
            Build(TagAll(P)) == BuildStep(Tag(P[m], m), Total(before), Build(before))
  {
    TagAllFront(P);
    var m := |P| - 1;
    assert TagAll(P) == TagAll(P[..m]) + [Tag(P[m], m)];
    BuildSnoc(TagAll(P[..m]), Tag(P[m], m));
  }

  lemma MergeAvoids<T>(s: seq<Tagged<T>>, P: seq<seq<T>>)
    requires Merge(s, P)
    ensures NoneOf(s, |P|)
  {
  }

  lemma SoundStep<T>(P: seq<seq<T>>, p: seq<nat>, s: seq<Tagged<T>>, z: seq<Tagged<T>>)
    requires P != [] && Merge(s, P[..|P| - 1])
    requires var ops := Tag(P[|P| - 1], |P| - 1); Positions(p, 0, |s| + 1, |ops|) && z == Weave(ops, p, s, 0)
    ensures Merge(z, P)
  {
    var m := |P| - 1;
    MergeAvoids(s, P[..m]);
    SplitOfWeave(Tag(P[m], m), p, s, 0, m);
    MergeSplit(z, P);
  }

  lemma {:induction false} TaggedSound<T>(P: seq<seq<T>>, z: seq<Tagged<T>>)
    requires z in Build(TagAll(P))
    ensures Merge(z, P)
    decreases |P|
  {
    if P != [] {
      var m, before := |P| - 1, P[..|P| - 1];
      TaggedBuild(P);
      var p, s := StepSound(Tag(P[m], m), Total(TagAll(before)), Build(TagAll(before)), z);
      TaggedSound(before, s);
      BuildLength(TagAll(before), s);
      SoundStep(P, p, s, z);
    }
  }

  lemma MergeOfNone<T>(z: seq<Tagged<T>>)
    requires Merge(z, [])
    ensures z == []
  {
    assert z == [] || z[0].thread < 0;
  }

  lemma CompleteStep<T>(z: seq<Tagged<T>>, m: nat, n: nat, I: seq<seq<Tagged<T>>>)
    requires Without(z, m) in I && n == |Without(z, m)|
    ensures z in BuildStep(Of(z, m), n, I)
  {
    SplitOk(z, m, 0);
    WeaveOfSplit(z, m, 0);
    StepComplete(Of(z, m), n, I, PosOf(z, m, 0), Without(z, m));
  }

  lemma {:induction false} TaggedComplete<T>(P: seq<seq<T>>, z: seq<Tagged<T>>)
    requires Merge(z, P)
    ensures z in Build(TagAll(P))
    decreases |P|
  {
    if P == [] {
      MergeOfNone(z);
    } else {
      var m, before := |P| - 1, P[..|P| - 1];
      var s := Without(z, m);
      MergeSplit(z, P);
      TaggedComplete(before, s);
      BuildLength(TagAll(before), s);
      CompleteStep(z, m, |s|, Build(TagAll(before)));
      TaggedBuild(P);
    }
  }

  // ----- each merge once -----------------------------------------------------------------

  lemma WeaveAllDistinct<T>(ops: seq<Tagged<T>>, p: seq<nat>, I: seq<seq<Tagged<T>>>, n: nat, t: nat)
    requires AllOf(ops, t) && Distinct(I) && (forall s :: s in I ==> NoneOf(s, t) && |s| == n)
    requires Positions(p, 0, n + 1, |ops|)
    ensures Distinct(WeaveAll(ops, p, I))
  {
    var r := WeaveAll(ops, p, I);
    forall a, b | 0 <= a < b < |r|
      ensures r[a] != r[b]
    {
      assert I[a] in I && I[b] in I;
      SplitOfWeave(ops, p, I[a], 0, t);
      SplitOfWeave(ops, p, I[b], 0, t);
    }
  }

  lemma {:induction false} ExtendDistinct<T>(ops: seq<Tagged<T>>, combos: seq<seq<nat>>, I: seq<seq<Tagged<T>>>, n: nat, t: nat)
    requires AllOf(ops, t) && Distinct(I) && (forall s :: s in I ==> NoneOf(s, t) && |s| == n)
    requires Distinct(combos) && forall p :: p in combos ==> Positions(p, 0, n + 1, |ops|)
    ensures Distinct(ExtendBy(ops, combos, I))
    decreases |combos|
  {
    if combos != [] {
      var p, rest := combos[0], combos[1..];
      assert p in combos && forall q :: q in rest ==> q in combos;
      HeadNotInTail(combos);
      WeaveAllDistinct(ops, p, I, n, t);
      ExtendDistinct(ops, rest, I, n, t);
      forall z | z in WeaveAll(ops, p, I)
        ensures z !in ExtendBy(ops, rest, I)
      {
        RowsApart(ops, p, rest, I, n, t, z);
      }
      DistinctConcat(WeaveAll(ops, p, I), ExtendBy(ops, rest, I));
    }
  }

  /** A weave tells its positions. */
  lemma RowShowsPositions<T>(ops: seq<Tagged<T>>, p: seq<nat>, I: seq<seq<Tagged<T>>>, n: nat, t: nat, z: seq<Tagged<T>>)
    requires AllOf(ops, t) && (forall s :: s in I ==> NoneOf(s, t) && |s| == n) && Positions(p, 0, n + 1, |ops|)
    requires z in WeaveAll(ops, p, I)
    ensures PosOf(z, t, 0) == p
  {
    var here := WeaveAll(ops, p, I);
    var i :| 0 <= i < |here| && here[i] == z;
    assert I[i] in I;
    SplitOfWeave(ops, p, I[i], 0, t);
  }

  /** Weaves at different positions are different. */
  lemma RowsApart<T>(ops: seq<Tagged<T>>, p: seq<nat>, rest: seq<seq<nat>>, I: seq<seq<Tagged<T>>>, n: nat, t: nat, z: seq<Tagged<T>>)
    requires AllOf(ops, t) && (forall s :: s in I ==> NoneOf(s, t) && |s| == n)
    requires Positions(p, 0, n + 1, |ops|) && (forall q :: q in rest ==> Positions(q, 0, n + 1, |ops|)) && p !in rest
    requires z in WeaveAll(ops, p, I)
    ensures z !in ExtendBy(ops, rest, I)
  {
    RowShowsPositions(ops, p, I, n, t, z);
    if z in ExtendBy(ops, rest, I) {
      var q, s := ExtendSound(ops, rest, I, z);
      SplitOfWeave(ops, q, s, 0, t);
    }
  }

  lemma StepDistinct<T>(ops: seq<Tagged<T>>, n: nat, I: seq<seq<Tagged<T>>>, t: nat)
    requires AllOf(ops, t) && Distinct(I) && (forall s :: s in I ==> NoneOf(s, t) && |s| == n)
    ensures Distinct(BuildStep(ops, n, I))
  {
    CombosDistinct(0, n + 1, |ops|);
    CombosAreOk(n + 1, |ops|);
    ExtendDistinct(ops, Combos(0, n + 1, |ops|), I, n, t);
  }

  lemma {:induction false} TaggedDistinct<T>(P: seq<seq<T>>)
    ensures Distinct(Build(TagAll(P)))
    decreases |P|
  {
    if P != [] {
      var m, before := |P| - 1, P[..|P| - 1];
      var I, n, ops := Build(TagAll(before)), Total(TagAll(before)), Tag(P[m], m);
      TaggedDistinct(before);
      forall s | s in I
        ensures NoneOf(s, m) && |s| == n
      {
        TaggedSound(before, s);
        MergeAvoids(s, before);
        BuildLength(TagAll(before), s);
      }
      StepDistinct(ops, n, I, m);
      TaggedBuild(P);
    }
  }

  // ----- untagging -----------------------------------------------------------------------

  lemma {:induction false} UntagWeave<T>(ops: seq<Tagged<T>>, pos: seq<nat>, sched: seq<Tagged<T>>, base: nat)
    ensures Untag(Weave(ops, pos, sched, base)) == Weave(Untag(ops), pos, Untag(sched), base)
    decreases |ops| + |sched|
  {
    if ops != [] && pos != [] && (pos[0] == base || sched == []) {
      UntagWeave(ops[1..], pos[1..], sched, base);
      UntagCons(ops[0], Weave(ops[1..], pos[1..], sched, base));
      assert Untag(ops)[1..] == Untag(ops[1..]);
    } else if sched != [] {
      UntagWeave(ops, pos, sched[1..], base + 1);
      UntagCons(sched[0], Weave(ops, pos, sched[1..], base + 1));
      assert Untag(sched)[1..] == Untag(sched[1..]);
    }
  }

  lemma UntagCons<T>(x: Tagged<T>, z: seq<Tagged<T>>)
    ensures Untag([x] + z) == [x.op] + Untag(z)
  {
  }

  function UntagAll<T>(I: seq<seq<Tagged<T>>>): (r: seq<seq<T>>)
    ensures |r| == |I|
    ensures forall i {:trigger r[i]} :: 0 <= i < |I| ==> r[i] == Untag(I[i])
  {
    seq(|I|, i requires 0 <= i < |I| => Untag(I[i]))
  }

  lemma {:induction false} UntagExtend<T>(ops: seq<Tagged<T>>, combos: seq<seq<nat>>, I: seq<seq<Tagged<T>>>)
    ensures UntagAll(ExtendBy(ops, combos, I)) == ExtendBy(Untag(ops), combos, UntagAll(I))
    decreases |combos|
  {
    if combos != [] {
      var here, there := WeaveAll(ops, combos[0], I), ExtendBy(ops, combos[1..], I);
      UntagExtend(ops, combos[1..], I);
      assert UntagAll(here) == WeaveAll(Untag(ops), combos[0], UntagAll(I)) by {
        forall i | 0 <= i < |I|
          ensures UntagAll(here)[i] == WeaveAll(Untag(ops), combos[0], UntagAll(I))[i]
        {
          UntagWeave(ops, combos[0], I[i], 0);
        }
      }
      assert UntagAll(here + there) == UntagAll(here) + UntagAll(there);
    }
  }

  lemma {:induction false} TotalTagAll<T>(P: seq<seq<T>>)
    ensures Total(TagAll(P)) == Total(P)
    decreases |P|
  {
    if P != [] {
      TagAllFront(P);
      TotalTagAll(P[..|P| - 1]);
    }
  }

  /** Tags change nothing: the builder never looks at an operation. */
  lemma {:induction false} UntagBuild<T>(P: seq<seq<T>>)
    ensures UntagAll(Build(TagAll(P))) == Build(P)
    decreases |P|
  {
    if P == [] {
      assert Untag<T>([]) == [];
    } else {
      var m, before := |P| - 1, P[..|P| - 1];
      var n, ops := Total(before), Tag(P[m], m);
      TaggedBuild(P);
      TotalTagAll(before);
      UntagBuild(before);
      assert Untag(ops) == P[m];
      UntagExtend(ops, Combos(0, n + 1, |ops|), Build(TagAll(before)));
      assert UntagAll(BuildStep(ops, n, Build(TagAll(before)))) == BuildStep(P[m], n, Build(before));
    }
  }

  /** Sound and complete: the list holds exactly the interleavings. */
  lemma BuildExact<T(!new)>(P: seq<seq<T>>, s: seq<T>)
    ensures s in Build(P) <==> IsInterleaving(s, P)
  {
    UntagBuild(P);
    var I := Build(TagAll(P));
    if s in Build(P) {
      var i :| 0 <= i < |Build(P)| && Build(P)[i] == s;
      assert UntagAll(I)[i] == Untag(I[i]) && I[i] in I;
      TaggedSound(P, I[i]);
    }
    if IsInterleaving(s, P) {
      var z :| Merge(z, P) && Untag(z) == s;
      TaggedComplete(P, z);
      var i :| 0 <= i < |I| && I[i] == z;
      assert UntagAll(I)[i] == s;
    }
  }

  // ----- when no schedule is listed twice ------------------------------------------------

  /** No operation belongs to two threads. */
  ghost predicate SeparateThreads<T(!new)>(P: seq<seq<T>>) {
    forall i, j, x :: 0 <= i < |P| && 0 <= j < |P| && x in P[i] && x in P[j] ==> i == j
  }

  lemma MergeOp<T>(z: seq<Tagged<T>>, P: seq<seq<T>>, k: nat)
    requires Merge(z, P) && k < |z|
    ensures z[k].op in P[z[k].thread]
  {
    var t := z[k].thread;
    OfMembers(z, t, z[k]);
    assert z[k] in Tag(P[t], t);
  }

  lemma {:induction false} OfConcat<T>(a: seq<Tagged<T>>, b: seq<Tagged<T>>, t: nat)
    ensures Of(a + b, t) == Of(a, t) + Of(b, t)
    decreases |a|
  {
    if a == [] {
      ConcatNil(b);
    } else {
      OfConcat(a[1..], b, t);
      assert (a + b)[1..] == a[1..] + b;
      ConcatAssoc(if a[0].thread == t then [a[0]] else [], Of(a[1..], t), Of(b, t));
    }
  }

  lemma {:induction false} OfTag<T>(ops: seq<T>, s: nat, t: nat)
    ensures Of(Tag(ops, s), t) == if s == t then Tag(ops, s) else []
    decreases |ops|
  {
    if ops != [] {
      OfTag(ops[1..], s, t);
      assert Tag(ops, s) == [Tagged(ops[0], s)] + Tag(ops[1..], s);
      SplitCons(Tagged(ops[0], s), Tag(ops[1..], s), t, 0);
    }
  }

  /** The operations of thread t, or none if it is skipped. */
  function Part<T>(P: seq<seq<T>>, skip: set<nat>, t: nat): (r: seq<Tagged<T>>)
    requires t < |P|
  {
    if t in skip then [] else Tag(P[t], t)
  }

  /** The first n threads one after the other, without those in `skip`. */
  function Serial<T>(P: seq<seq<T>>, skip: set<nat>, n: nat): (r: seq<Tagged<T>>)
    requires n <= |P|
  {
    if n == 0 then [] else Serial(P, skip, n - 1) + Part(P, skip, n - 1)
  }

  lemma OnlyFirst<T>(a: seq<T>, b: seq<T>)
    requires b == []
    ensures a + b == a
  {
  }

  lemma OnlySecond<T>(a: seq<T>, b: seq<T>)
    requires a == []
    ensures a + b == b
  {
  }

  lemma OfPart<T>(P: seq<seq<T>>, skip: set<nat>, s: nat, t: nat)
    requires s < |P|
    ensures Of(Part(P, skip, s), t) == if s == t then Part(P, skip, s) else []
  {
    OfTag(P[s], s, t);
  }

  lemma OfSerialStep<T>(P: seq<seq<T>>, skip: set<nat>, n: nat, a: seq<Tagged<T>>, b: seq<Tagged<T>>, t: nat)
    requires n < |P| && b == Part(P, skip, n)
    requires Of(a, t) == if t < n then Part(P, skip, t) else []
    ensures Of(a + b, t) == if t < n + 1 then Part(P, skip, t) else []
  {
    OfConcat(a, b, t);
    OfPart(P, skip, n, t);
    if t == n {
      OnlySecond(Of(a, t), Of(b, t));
    } else {
      OnlyFirst(Of(a, t), Of(b, t));
    }
  }

  lemma {:induction false} OfSerial<T>(P: seq<seq<T>>, skip: set<nat>, n: nat, z: seq<Tagged<T>>, t: nat)
    requires n <= |P| && z == Serial(P, skip, n)
    ensures Of(z, t) == if t < n then Part(P, skip, t) else []
    decreases n
  {
    if n > 0 {
      var a, b := Serial(P, skip, n - 1), Part(P, skip, n - 1);
      OfSerial(P, skip, n - 1, a, t);
      OfSerialStep(P, skip, n - 1, a, b, t);
      assert z == a + b;
    }
  }

  lemma {:induction false} ThreadsOfSerial<T>(P: seq<seq<T>>, skip: set<nat>, n: nat)
    requires n <= |P|
    ensures forall k :: 0 <= k < |Serial(P, skip, n)| ==> Serial(P, skip, n)[k].thread < n
    decreases n
  {
    if n > 0 {
      ThreadsOfSerial(P, skip, n - 1);
    }
  }

  /** The threads one after the other are a merge. */
  lemma SerialMerges<T>(P: seq<seq<T>>, z: seq<Tagged<T>>)
    requires z == Serial(P, {}, |P|)
    ensures Merge(z, P)
  {
    ThreadsOfSerial(P, {}, |P|);
    forall t: nat | t < |P|
      ensures Of(z, t) == Tag(P[t], t)
    {
      OfSerial(P, {}, |P|, z, t);
    }
  }

  lemma TagSplit<T>(ops: seq<T>, a: nat, t: nat)
    requires a < |ops|
    ensures Tag(ops, t) == Tag(ops[..a], t) + ([Tagged(ops[a], t)] + Tag(ops[a + 1..], t))
  {
  }

  lemma OfTwo<T>(x: seq<T>, y: seq<T>, i: nat, j: nat, t: nat)
    requires i != j
    ensures Of(Tag(x, i) + Tag(y, j), t) == if t == i then Tag(x, i) else if t == j then Tag(y, j) else []
  {
    OfConcat(Tag(x, i), Tag(y, j), t);
    OfTag(x, i, t);
    OfTag(y, j, t);
    ConcatNil(Tag(x, i));
    ConcatNil(Tag(y, j));
  }

  /** `mid` holds `u` and `v` and nothing else. */
  ghost predicate Holds<T>(mid: seq<Tagged<T>>, u: Tagged<T>, v: Tagged<T>) {
    (forall k :: 0 <= k < |mid| ==> mid[k] == u || mid[k] == v) &&
    forall t: nat :: Of(mid, t) == if t == u.thread then [u] else if t == v.thread then [v] else []
  }

  lemma PairHolds<T>(u: Tagged<T>, v: Tagged<T>)
    requires u.thread != v.thread
    ensures Holds([u] + [v], u, v) && Holds([v] + [u], u, v)
  {
    forall t: nat
      ensures Of([u] + [v], t) == if t == u.thread then [u] else if t == v.thread then [v] else []
      ensures Of([v] + [u], t) == if t == u.thread then [u] else if t == v.thread then [v] else []
    {
      SplitCons(u, [v], t, 0);
      SplitCons(v, [u], t, 0);
      ConcatNil([u]);
      ConcatNil([v]);
      SplitCons(u, [], t, 0);
      SplitCons(v, [], t, 0);
    }
  }

  /** Thread i up to a and j up to b, then `mid`, then the rest of i and j, then everyone else. */
  lemma OfAround<T>(before: seq<Tagged<T>>, mid: seq<Tagged<T>>, after: seq<Tagged<T>>, rest: seq<Tagged<T>>,
                    u: Tagged<T>, v: Tagged<T>, t: nat)
    requires u.thread != v.thread && Holds(mid, u, v)
    requires t != u.thread && t != v.thread ==> Of(before, t) == [] && Of(after, t) == []
    requires t == u.thread || t == v.thread ==> Of(rest, t) == []
    ensures Of(before + (mid + (after + rest)), t) ==
            if t == u.thread then Of(before, t) + ([u] + Of(after, t))
            else if t == v.thread then Of(before, t) + ([v] + Of(after, t))
            else Of(rest, t)
  {
    OfFour(before, mid, after, rest, t);
    if t == u.thread || t == v.thread {
      OnlyFirst(Of(after, t), Of(rest, t));
    } else {
      OnlySecond(Of(after, t), Of(rest, t));
      OnlySecond(Of(mid, t), Of(rest, t));
      OnlySecond(Of(before, t), Of(rest, t));
    }
  }

  lemma OfFour<T>(a: seq<Tagged<T>>, b: seq<Tagged<T>>, c: seq<Tagged<T>>, d: seq<Tagged<T>>, t: nat)
    ensures Of(a + (b + (c + d)), t) == Of(a, t) + (Of(b, t) + (Of(c, t) + Of(d, t)))
  {
    OfConcat(a, b + (c + d), t);
    OfConcat(b, c + d, t);
    OfConcat(c, d, t);
  }

  lemma Joined<T>(P: seq<seq<T>>, i: nat, j: nat, a: nat, b: nat, t: nat, whole: seq<Tagged<T>>)
    requires i < |P| && j < |P| && a < |P[i]| && b < |P[j]| && t < |P|
    requires whole == if t == i then Tag(P[i][..a], i) + ([Tagged(P[i][a], i)] + Tag(P[i][a + 1..], i))
                      else if t == j then Tag(P[j][..b], j) + ([Tagged(P[j][b], j)] + Tag(P[j][b + 1..], j))
                      else Tag(P[t], t)
    ensures whole == Tag(P[t], t)
  {
    TagSplit(P[i], a, i);
    TagSplit(P[j], b, j);
  }

  lemma AroundOf<T>(P: seq<seq<T>>, i: nat, j: nat, a: nat, b: nat, before: seq<Tagged<T>>, mid: seq<Tagged<T>>,
                    after: seq<Tagged<T>>, rest: seq<Tagged<T>>, t: nat, all: seq<Tagged<T>>)
    requires i < |P| && j < |P| && a < |P[i]| && b < |P[j]| && i != j && t < |P|
    requires Holds(mid, Tagged(P[i][a], i), Tagged(P[j][b], j))
    requires Of(rest, t) == if t == i || t == j then [] else Tag(P[t], t)
    requires Of(before, t) == if t == i then Tag(P[i][..a], i) else if t == j then Tag(P[j][..b], j) else []
    requires Of(after, t) == if t == i then Tag(P[i][a + 1..], i) else if t == j then Tag(P[j][b + 1..], j) else []
    requires all == before + (mid + (after + rest))
    ensures Of(all, t) == Tag(P[t], t)
  {
    OfAround(before, mid, after, rest, Tagged(P[i][a], i), Tagged(P[j][b], j), t);
    Joined(P, i, j, a, b, t, Of(all, t));
  }

  lemma AroundMerges<T>(P: seq<seq<T>>, i: nat, j: nat, a: nat, b: nat, mid: seq<Tagged<T>>)
    requires i < |P| && j < |P| && a < |P[i]| && b < |P[j]| && i != j
    requires Holds(mid, Tagged(P[i][a], i), Tagged(P[j][b], j))
    ensures var before := Tag(P[i][..a], i) + Tag(P[j][..b], j);
            var after := Tag(P[i][a + 1..], i) + Tag(P[j][b + 1..], j);
            Merge(before + (mid + (after + Serial(P, {i, j}, |P|))), P)
  {
    var before := Tag(P[i][..a], i) + Tag(P[j][..b], j);
    var after := Tag(P[i][a + 1..], i) + Tag(P[j][b + 1..], j);
    var rest := Serial(P, {i, j}, |P|);
    ThreadsOfSerial(P, {i, j}, |P|);
    ThreadsConcat(after, rest, |P|);
    ThreadsConcat(mid, after + rest, |P|);
    ThreadsConcat(before, mid + (after + rest), |P|);
    forall t: nat | t < |P|
      ensures Of(before + (mid + (after + rest)), t) == Tag(P[t], t)
    {
      OfTwo(P[i][..a], P[j][..b], i, j, t);
      OfTwo(P[i][a + 1..], P[j][b + 1..], i, j, t);
      OfSerial(P, {i, j}, |P|, rest, t);
      AroundOf(P, i, j, a, b, before, mid, after, rest, t, before + (mid + (after + rest)));
    }
  }

  lemma ThreadsConcat<T>(x: seq<Tagged<T>>, y: seq<Tagged<T>>, n: nat)
    requires forall k :: 0 <= k < |x| ==> x[k].thread < n
    requires forall k :: 0 <= k < |y| ==> y[k].thread < n
    ensures forall k :: 0 <= k < |x + y| ==> (x + y)[k].thread < n
  {
  }

  lemma SwapDiffers<T>(before: seq<Tagged<T>>, u: Tagged<T>, v: Tagged<T>, after: seq<Tagged<T>>)
    requires u != v && u.op == v.op
    ensures before + (([u] + [v]) + after) != before + (([v] + [u]) + after)
    ensures Untag(before + (([u] + [v]) + after)) == Untag(before + (([v] + [u]) + after))
  {
    var y, z := before + (([u] + [v]) + after), before + (([v] + [u]) + after);
    assert y[|before|] == u && z[|before|] == v;
    assert forall k :: 0 <= k < |y| ==> y[k].op == z[k].op;
  }

  /** An operation of two threads gives two merges that look the same. */
  lemma TwoMerges<T>(P: seq<seq<T>>, i: nat, j: nat, x: T) returns (y: seq<Tagged<T>>, z: seq<Tagged<T>>)
    requires i < |P| && j < |P| && i != j && x in P[i] && x in P[j]
    ensures Merge(y, P) && Merge(z, P) && y != z && Untag(y) == Untag(z)
  {
    var a: nat :| a < |P[i]| && P[i][a] == x;
    var b: nat :| b < |P[j]| && P[j][b] == x;
    var u, v := Tagged(x, i), Tagged(x, j);
    var before := Tag(P[i][..a], i) + Tag(P[j][..b], j);
    var after := (Tag(P[i][a + 1..], i) + Tag(P[j][b + 1..], j)) + Serial(P, {i, j}, |P|);
    PairHolds(u, v);
    AroundMerges(P, i, j, a, b, [u] + [v]);
    AroundMerges(P, i, j, a, b, [v] + [u]);
    SwapDiffers(before, u, v, after);
    y, z := before + (([u] + [v]) + after), before + (([v] + [u]) + after);
  }

  /** No schedule is listed twice exactly when no operation belongs to two threads. */
  lemma DuplicateFree<T(!new)>(P: seq<seq<T>>)
    ensures Distinct(Build(P)) <==> SeparateThreads(P)
  {
    UntagBuild(P);
    TaggedDistinct(P);
    var I := Build(TagAll(P));
    if SeparateThreads(P) {
      forall a, b | 0 <= a < b < |I|
        ensures Build(P)[a] != Build(P)[b]
      {
        assert I[a] in I && I[b] in I;
        TaggedSound(P, I[a]);
        TaggedSound(P, I[b]);
        SameUntag(P, I[a], I[b]);
      }
    } else {
      var i, j, x :| 0 <= i < |P| && 0 <= j < |P| && x in P[i] && x in P[j] && i != j;
      TwoTimes(P, i, j, x);
    }
  }

  lemma SameUntag<T(!new)>(P: seq<seq<T>>, y: seq<Tagged<T>>, z: seq<Tagged<T>>)
    requires Merge(y, P) && Merge(z, P) && SeparateThreads(P)
    ensures Untag(y) == Untag(z) ==> y == z
  {
    if Untag(y) == Untag(z) {
      forall k | 0 <= k < |y|
        ensures y[k] == z[k]
      {
        MergeOp(y, P, k);
        MergeOp(z, P, k);
        assert Untag(y)[k] == Untag(z)[k];
      }
    }
  }

  lemma LookAlikes<T>(I: seq<seq<Tagged<T>>>, y: seq<Tagged<T>>, z: seq<Tagged<T>>)
    requires y in I && z in I && y != z && Untag(y) == Untag(z)
    ensures !Distinct(UntagAll(I))
  {
    var k :| 0 <= k < |I| && I[k] == y;
    var l :| 0 <= l < |I| && I[l] == z;
    NotDistinct(UntagAll(I), k, l);
  }

  /** An operation of two threads makes some schedule appear twice. */
  lemma TwoTimes<T>(P: seq<seq<T>>, i: nat, j: nat, x: T)
    requires i < |P| && j < |P| && i != j && x in P[i] && x in P[j]
    ensures !Distinct(Build(P))
  {
    var y, z := TwoMerges(P, i, j, x);
    TaggedComplete(P, z);
    TaggedComplete(P, y);
    UntagBuild(P);
    LookAlikes(Build(TagAll(P)), y, z);
  }

  // ----- how many ------------------------------------------------------------------------

  /** Pascal's triangle. */
  function Choose(n: nat, k: nat): nat {
    if k == 0 then 1 else if n == 0 then 0 else Choose(n - 1, k - 1) + Choose(n - 1, k)
  }

  function Factorial(n: nat): nat {
    if n == 0 then 1 else n * Factorial(n - 1)
  }

  lemma {:induction false} ChooseMore(n: nat, k: nat)
    requires n < k
    ensures Choose(n, k) == 0
    decreases n
  {
    if n > 0 {
      ChooseMore(n - 1, k - 1);
      ChooseMore(n - 1, k);
    }
  }

  lemma {:induction false} ChooseAll(k: nat)
    ensures Choose(k, k) == 1
  {
    if k > 0 {
      ChooseAll(k - 1);
      ChooseMore(k - 1, k);
    }
  }

  lemma {:induction false} ChooseFactorial(n: nat, k: nat)
    ensures Choose(n + k, k) * (Factorial(n) * Factorial(k)) == Factorial(n + k)
    decreases n + k
  {
    if n == 0 {
      ChooseAll(k);
    } else if k > 0 {
      var c, d := Choose(n + k - 1, k - 1), Choose(n + k - 1, k);
      var f, g, h := Factorial(n - 1), Factorial(k - 1), Factorial(n + k - 1);
      ChooseFactorial(n, k - 1);
      ChooseFactorial(n - 1, k);
      FactorialStep(c, d, f, g, n, k, h);
    }
  }

  lemma FactorialStep(c: nat, d: nat, f: nat, g: nat, n: nat, k: nat, h: nat)
    requires c * ((n * f) * g) == h && d * (f * (k * g)) == h
    ensures (c + d) * ((n * f) * (k * g)) == (n + k) * h
  {
    assert c * ((n * f) * (k * g)) == k * (c * ((n * f) * g)) == k * h;
    assert d * ((n * f) * (k * g)) == n * (d * (f * (k * g))) == n * h;
  }

  lemma {:induction false} CombosCount(lo: nat, l: nat, k: nat)
    requires lo < l
    ensures |Combos(lo, l, k)| == Choose(l - lo + k - 1, k)
    decreases k, l - lo
  {
    if k > 0 {
      CombosCount(lo, l, k - 1);
      if lo + 1 < l {
        CombosCount(lo + 1, l, k);
      } else {
        ChooseMore(k - 1, k);
      }
    }
  }

  lemma {:induction false} ExtendCount<T>(ops: seq<T>, combos: seq<seq<nat>>, I: seq<seq<T>>)
    ensures |ExtendBy(ops, combos, I)| == |combos| * |I|
    decreases |combos|
  {
    if combos != [] {
      ExtendCount(ops, combos[1..], I);
      assert |combos| * |I| == |I| + (|combos| - 1) * |I|;
    }
  }

  lemma StepCount<T>(ops: seq<T>, n: nat, I: seq<seq<T>>)
    ensures |BuildStep(ops, n, I)| == Choose(n + |ops|, |ops|) * |I|
  {
    ExtendCount(ops, Combos(0, n + 1, |ops|), I);
    CombosCount(0, n + 1, |ops|);
  }

  /** The product of the factorials of the lengths. */
  function Factorials<T>(P: seq<seq<T>>): nat {
    if P == [] then 1 else Factorials(P[..|P| - 1]) * Factorial(|P[|P| - 1]|)
  }

  /** The number of schedules is the multinomial coefficient of the lengths. */
  lemma {:induction false} BuildCount<T>(P: seq<seq<T>>)
    ensures |Build(P)| * Factorials(P) == Factorial(Total(P))
    decreases |P|
  {
    if P != [] {
      var ops, before := P[|P| - 1], P[..|P| - 1];
      var n, k, count := Total(before), |ops|, |Build(before)|;
      BuildCount(before);
      StepCount(ops, n, Build(before));
      ChooseFactorial(n, k);
      CountStep(Choose(n + k, k), count, Factorials(before), Factorial(k), Factorial(n), Factorial(n + k));
    }
  }

  lemma CountStep(c: nat, count: nat, fs: nat, fk: nat, fn: nat, all: nat)
    requires count * fs == fn && c * (fn * fk) == all
    ensures (c * count) * (fs * fk) == all
  {
    assert (c * count) * (fs * fk) == c * ((count * fs) * fk);
  }
}
