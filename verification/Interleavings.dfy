/**
 The trivial model checker's schedule builder: every interleaving of several instruction lists,
 built one list at a time by choosing an insertion position for each instruction.
 */
module Interleavings {
  import opened SeqFacts

  // ----- insertion positions -------------------------------------------------------------

  function PrefixAll(v: nat, ss: seq<seq<nat>>): (r: seq<seq<nat>>)
    ensures |r| == |ss|
    ensures forall i {:trigger r[i]} :: 0 <= i < |ss| ==> r[i] == [v] + ss[i]
  {
    seq(|ss|, i requires 0 <= i < |ss| => [v] + ss[i])
  }

  /** combinations_with_replacement(range(lo, l), k), in the order Python yields them. */
  function Combos(lo: nat, l: nat, k: nat): (r: seq<seq<nat>>)
    decreases k, l - lo
  {
    if k == 0 then [[]]
    else if lo >= l then []
    else PrefixAll(lo, Combos(lo, l, k - 1)) + Combos(lo + 1, l, k)
  }

  /** k positions between lo and l, not decreasing. */
  predicate Positions(p: seq<nat>, lo: nat, l: nat, k: nat)
  {
    |p| == k && (k > 0 ==> lo <= p[0] < l && Positions(p[1..], p[0], l, k - 1))
  }

  lemma {:induction false} CombosExact(lo: nat, l: nat, k: nat, p: seq<nat>)
    ensures p in Combos(lo, l, k) <==> Positions(p, lo, l, k)
    decreases k, l - lo
  {
    if k > 0 && lo < l {
      var first, rest := PrefixAll(lo, Combos(lo, l, k - 1)), Combos(lo + 1, l, k);
      CombosExact(lo + 1, l, k, p);
      if p != [] {
        CombosExact(lo, l, k - 1, p[1..]);
        assert p in first <==> p[0] == lo && p[1..] in Combos(lo, l, k - 1) by {
          if p in first {
            var i :| 0 <= i < |first| && first[i] == p;
            assert p[1..] == Combos(lo, l, k - 1)[i];
          }
          if p[0] == lo && p[1..] in Combos(lo, l, k - 1) {
            var i :| 0 <= i < |first| && Combos(lo, l, k - 1)[i] == p[1..];
            assert first[i] == p;
          }
        }
      }
      assert p in Combos(lo, l, k) <==> p in first || p in rest;
    }
  }

  lemma {:induction false} CombosDistinct(lo: nat, l: nat, k: nat)
    ensures Distinct(Combos(lo, l, k))
    decreases k, l - lo
  {
    if k > 0 && lo < l {
      var shorter, rest := Combos(lo, l, k - 1), Combos(lo + 1, l, k);
      var first := PrefixAll(lo, shorter);
      CombosDistinct(lo, l, k - 1);
      CombosDistinct(lo + 1, l, k);
      forall a, b | 0 <= a < b < |first|
        ensures first[a] != first[b]
      {
        assert first[a][1..] == shorter[a] && first[b][1..] == shorter[b];
      }
      forall p | p in first
        ensures p !in rest
      {
        CombosExact(lo + 1, l, k, p);
      }
      DistinctConcat(first, rest);
    }
  }

  /** `p` comes before `q` in lexicographic order. */
  ghost predicate LexLess(p: seq<nat>, q: seq<nat>) {
    exists j :: DiffersFirst(p, q, j)
  }

  ghost predicate DiffersFirst(p: seq<nat>, q: seq<nat>, j: int) {
    0 <= j < |p| && j < |q| && p[..j] == q[..j] && p[j] < q[j]
  }

  lemma LexPrefix(v: nat, p: seq<nat>, q: seq<nat>)
    requires LexLess(p, q)
    ensures LexLess([v] + p, [v] + q)
  {
    var j :| DiffersFirst(p, q, j);
    assert ([v] + p)[..j + 1] == [v] + p[..j] && ([v] + q)[..j + 1] == [v] + q[..j];
    assert DiffersFirst([v] + p, [v] + q, j + 1);
  }

  /** The choices of positions come in increasing lexicographic order. */
  lemma {:induction false} CombosAscend(lo: nat, l: nat, k: nat, a: nat, b: nat)
    requires a < b < |Combos(lo, l, k)|
    ensures LexLess(Combos(lo, l, k)[a], Combos(lo, l, k)[b])
    decreases k, l - lo
  {
    var less, rest := Combos(lo, l, k - 1), Combos(lo + 1, l, k);
    var first := PrefixAll(lo, less);
    assert Combos(lo, l, k) == first + rest;
    if b < |first| {
      CombosAscend(lo, l, k - 1, a, b);
      LexPrefix(lo, less[a], less[b]);
    } else if a < |first| {
      var q := rest[b - |first|];
      assert q in rest;
      CombosExact(lo + 1, l, k, q);
      assert DiffersFirst(first[a], q, 0);
    } else {
      CombosAscend(lo + 1, l, k, a - |first|, b - |first|);
    }
  }

  // ----- weaving one list into a schedule ------------------------------------------------

  /** `ops` woven into `sched`: operation k goes in front of the element at position pos[k]. */
  function Weave<T>(ops: seq<T>, pos: seq<nat>, sched: seq<T>, base: nat): (r: seq<T>)
    decreases |ops| + |sched|
  {
    if ops != [] && pos != [] && (pos[0] == base || sched == []) then [ops[0]] + Weave(ops[1..], pos[1..], sched, base)
    else if sched != [] then [sched[0]] + Weave(ops, pos, sched[1..], base + 1)
    else []
  }

  lemma {:induction false} WeaveLength<T>(ops: seq<T>, pos: seq<nat>, sched: seq<T>, base: nat)
    requires |pos| == |ops|
    ensures |Weave(ops, pos, sched, base)| == |ops| + |sched|
    decreases |ops| + |sched|
  {
    if ops != [] && (pos[0] == base || sched == []) {
      WeaveLength(ops[1..], pos[1..], sched, base);
    } else if sched != [] {
      WeaveLength(ops, pos, sched[1..], base + 1);
    }
  }

  /** The operations that go to position j: the inner comprehension of the program. */
  function Select<T>(ops: seq<T>, pos: seq<nat>, j: nat): (r: seq<T>)
    requires |pos| == |ops|
  {
    if ops == [] then []
    else (if pos[0] == j then [ops[0]] else []) + Select(ops[1..], pos[1..], j)
  }

  /** All the weaves of `ops` at `pos` into the schedules of `I`. */
  function WeaveAll<T>(ops: seq<T>, pos: seq<nat>, I: seq<seq<T>>): (r: seq<seq<T>>)
    ensures |r| == |I|
    ensures forall i {:trigger r[i]} :: 0 <= i < |I| ==> r[i] == Weave(ops, pos, I[i], 0)
  {
    seq(|I|, i requires 0 <= i < |I| => Weave(ops, pos, I[i], 0))
  }

  function ExtendBy<T>(ops: seq<T>, combos: seq<seq<nat>>, I: seq<seq<T>>): (r: seq<seq<T>>) {
    if combos == [] then [] else WeaveAll(ops, combos[0], I) + ExtendBy(ops, combos[1..], I)
  }

  function Total<T>(P: seq<seq<T>>): nat {
    if P == [] then 0 else Total(P[..|P| - 1]) + |P[|P| - 1]|
  }

  /** The schedules after one more list, when all of `I` have length n. */
  function BuildStep<T>(ops: seq<T>, n: nat, I: seq<seq<T>>): (r: seq<seq<T>>) {
    ExtendBy(ops, Combos(0, n + 1, |ops|), I)
  }

  /** The list of schedules the program builds. */
  function Build<T>(P: seq<seq<T>>): (I: seq<seq<T>>)
    decreases |P|
  {
    if P == [] then [[]] else BuildStep(P[|P| - 1], Total(P[..|P| - 1]), Build(P[..|P| - 1]))
  }

  /** Everything in the extended list is a weave at listed positions into a listed schedule. */
  lemma {:induction false} ExtendSound<T>(ops: seq<T>, combos: seq<seq<nat>>, I: seq<seq<T>>, z: seq<T>)
    returns (p: seq<nat>, s: seq<T>)
    requires z in ExtendBy(ops, combos, I)
    ensures p in combos && s in I && z == Weave(ops, p, s, 0)
    decreases |combos|
  {
    var here := WeaveAll(ops, combos[0], I);
    if z in here {
      var i :| 0 <= i < |here| && here[i] == z;
      p, s := combos[0], I[i];
    } else {
      p, s := ExtendSound(ops, combos[1..], I, z);
    }
  }

  /** Every weave at listed positions into a listed schedule is in the extended list. */
  lemma {:induction false} ExtendComplete<T>(ops: seq<T>, combos: seq<seq<nat>>, I: seq<seq<T>>, p: seq<nat>, s: seq<T>)
    requires p in combos && s in I
    ensures Weave(ops, p, s, 0) in ExtendBy(ops, combos, I)
    decreases |combos|
  {
    if p == combos[0] {
      var i :| 0 <= i < |I| && I[i] == s;
      assert WeaveAll(ops, p, I)[i] == Weave(ops, p, s, 0);
    } else {
      ExtendComplete(ops, combos[1..], I, p, s);
    }
  }

  lemma RowsBefore(a: nat, n: nat, b: nat)
    requires a > 0 && b < n
    ensures a * n + b - n == (a - 1) * n + b >= 0
  {
  }

  /** The order of the schedules: by the choice of positions first, then by the schedule extended. */
  lemma {:induction false} ExtendInOrder<T>(ops: seq<T>, combos: seq<seq<nat>>, I: seq<seq<T>>, a: nat, b: nat)
    requires a < |combos| && b < |I|
    ensures a * |I| + b < |ExtendBy(ops, combos, I)|
    ensures ExtendBy(ops, combos, I)[a * |I| + b] == Weave(ops, combos[a], I[b], 0)
    decreases a
  {
    var row, rest := WeaveAll(ops, combos[0], I), ExtendBy(ops, combos[1..], I);
    assert ExtendBy(ops, combos, I) == row + rest;
    if a > 0 {
      ExtendInOrder(ops, combos[1..], I, a - 1, b);
      RowsBefore(a, |I|, b);
    }
  }

  // ----- the imperative builder ----------------------------------------------------------

  lemma {:induction false} SelectNone<T>(ops: seq<T>, pos: seq<nat>, lo: nat, l: nat, j: nat)
    requires |pos| == |ops| && Positions(pos, lo, l, |ops|) && j < lo
    ensures Select(ops, pos, j) == []
    decreases |ops|
  {
    if ops != [] {
      SelectNone(ops[1..], pos[1..], pos[0], l, j);
    }
  }

  lemma {:induction false} SelectDrop<T>(ops: seq<T>, pos: seq<nat>, done: nat, j: nat)
    requires |pos| == |ops| && done <= |ops| && forall i :: 0 <= i < done ==> pos[i] != j
    ensures Select(ops, pos, j) == Select(ops[done..], pos[done..], j)
    decreases done
  {
    if done == 0 {
      assert ops[0..] == ops && pos[0..] == pos;
    } else {
      SelectDrop(ops[1..], pos[1..], done - 1, j);
      assert ops[1..][done - 1..] == ops[done..] && pos[1..][done - 1..] == pos[done..];
    }
  }

  /** The first a positions are `base`, and the others are larger. */
  ghost predicate Leads(pos: seq<nat>, base: nat, l: nat, a: nat) {
    a <= |pos| && (forall i :: 0 <= i < a ==> pos[i] == base) && Positions(pos[a..], base + 1, l, |pos| - a)
  }

  lemma LeadsTail(pos: seq<nat>, base: nat, l: nat, a: nat)
    requires pos != [] && pos[0] == base && 0 < a <= |pos|
    ensures Leads(pos, base, l, a) <==> Leads(pos[1..], base, l, a - 1)
  {
    assert pos[1..][a - 1..] == pos[a..];
    assert forall i :: 1 <= i < |pos| ==> pos[i] == pos[1..][i - 1];
  }

  lemma {:induction false} Leading(pos: seq<nat>, base: nat, l: nat) returns (a: nat)
    requires Positions(pos, base, l, |pos|)
    ensures Leads(pos, base, l, a)
    decreases |pos|
  {
    if pos != [] && pos[0] == base {
      var b := Leading(pos[1..], base, l);
      a := b + 1;
      LeadsTail(pos, base, l, a);
    } else {
      a := 0;
      assert pos[0..] == pos;
    }
  }

  lemma {:induction false} SelectLeading<T>(ops: seq<T>, pos: seq<nat>, base: nat, l: nat, a: nat)
    requires |pos| == |ops| && Leads(pos, base, l, a)
    ensures Select(ops, pos, base) == ops[..a]
    decreases a
  {
    if a == 0 {
      assert pos[0..] == pos;
      SelectNone(ops, pos, base + 1, l, base);
    } else {
      LeadsTail(pos, base, l, a);
      SelectLeading(ops[1..], pos[1..], base, l, a - 1);
      assert ops[..a] == [ops[0]] + ops[1..][..a - 1];
    }
  }

  lemma FrontCons<T>(ops: seq<T>, a: nat, w: seq<T>, tail: seq<T>)
    requires 0 < a <= |ops| && w == ops[1..][..a - 1] + tail
    ensures [ops[0]] + w == ops[..a] + tail
  {
    assert ops[..a] == [ops[0]] + ops[1..][..a - 1];
    ConcatAssoc([ops[0]], ops[1..][..a - 1], tail);
  }

  lemma WeaveOne<T>(ops: seq<T>, pos: seq<nat>, sched: seq<T>, base: nat, a: nat, tail: seq<T>)
    requires |pos| == |ops| && ops != [] && pos[0] == base && 0 < a <= |ops|
    requires Weave(ops[1..], pos[1..], sched, base) == ops[1..][..a - 1] + tail
    ensures Weave(ops, pos, sched, base) == ops[..a] + tail
  {
    var w := Weave(ops[1..], pos[1..], sched, base);
    assert Weave(ops, pos, sched, base) == [ops[0]] + w;
    FrontCons(ops, a, w, tail);
  }

  /** The weave once all operations for position `base` are placed. */
  function WeaveRest<T>(ops: seq<T>, pos: seq<nat>, sched: seq<T>, base: nat): seq<T> {
    if sched == [] then [] else [sched[0]] + Weave(ops, pos, sched[1..], base + 1)
  }

  lemma {:induction false} WeaveLeading<T>(ops: seq<T>, pos: seq<nat>, sched: seq<T>, base: nat, a: nat)
    requires |pos| == |ops| && Leads(pos, base, base + |sched| + 1, a)
    ensures Weave(ops, pos, sched, base) == ops[..a] + WeaveRest(ops[a..], pos[a..], sched, base)
    decreases a
  {
    if a == 0 {
      assert ops[0..] == ops && pos[0..] == pos;
      ConcatNil(WeaveRest(ops, pos, sched, base));
    } else {
      LeadsTail(pos, base, base + |sched| + 1, a);
      WeaveLeading(ops[1..], pos[1..], sched, base, a - 1);
      assert ops[1..][a - 1..] == ops[a..] && pos[1..][a - 1..] == pos[a..];
      WeaveOne(ops, pos, sched, base, a, WeaveRest(ops[a..], pos[a..], sched, base));
    }
  }

  /** What goes to position `base` comes first in the weave. */
  lemma WeaveFirst<T>(ops: seq<T>, pos: seq<nat>, sched: seq<T>, base: nat) returns (a: nat)
    requires |pos| == |ops| && Positions(pos, base, base + |sched| + 1, |ops|)
    ensures Leads(pos, base, base + |sched| + 1, a) && Select(ops, pos, base) == ops[..a]
    ensures Weave(ops, pos, sched, base) == ops[..a] + WeaveRest(ops[a..], pos[a..], sched, base)
  {
    a := Leading(pos, base, base + |sched| + 1);
    SelectLeading(ops, pos, base, base + |sched| + 1, a);
    WeaveLeading(ops, pos, sched, base, a);
  }

  /** The state of the insertion in front of slot j: `done` operations are placed. */
  ghost predicate AtSlot<T>(ops: seq<T>, pos: seq<nat>, sched: seq<T>, done: nat, j: nat, soFar: seq<T>)
    requires |pos| == |ops|
  {
    done <= |ops| && j <= |sched| + 1 &&
    Positions(pos[done..], j, |sched| + 1, |ops| - done) && (forall i :: 0 <= i < done ==> pos[i] < j) &&
    if j <= |sched| then soFar + Weave(ops[done..], pos[done..], sched[j..], j) == Weave(ops, pos, sched, 0)
    else soFar == Weave(ops, pos, sched, 0)
  }

  lemma NextSlot<T>(ops: seq<T>, pos: seq<nat>, sched: seq<T>, done: nat, j: nat, soFar: seq<T>) returns (done': nat)
    requires |pos| == |ops| && j <= |sched| && AtSlot(ops, pos, sched, done, j, soFar)
    ensures var placed := soFar + Select(ops, pos, j);
            AtSlot(ops, pos, sched, done', j + 1, if j < |sched| then placed + [sched[j]] else placed)
  {
    var ops', pos', sched' := ops[done..], pos[done..], sched[j..];
    var a := WeaveFirst(ops', pos', sched', j);
    SelectDrop(ops, pos, done, j);
    done' := done + a;
    assert ops'[a..] == ops[done'..] && pos'[a..] == pos[done'..];
    assert forall i :: done <= i < done' ==> pos[i] == pos'[i - done];
    var placed := soFar + ops'[..a];
    if j < |sched| {
      var rest := Weave(ops[done'..], pos[done'..], sched[j + 1..], j + 1);
      assert sched'[1..] == sched[j + 1..];
      ConcatAssoc(soFar, ops'[..a], [sched[j]] + rest);
      ConcatAssoc(placed, [sched[j]], rest);
    } else {
      ConcatNil(ops'[..a]);
    }
  }

  /** One new schedule: the two inner loops of the program. */
  method Insert<T>(ops: seq<T>, pos: seq<nat>, sched: seq<T>) returns (newSched: seq<T>)
    requires |pos| == |ops| && Positions(pos, 0, |sched| + 1, |ops|)
    ensures newSched == Weave(ops, pos, sched, 0)
  {
    newSched := [];
    ghost var done := 0;
    assert ops[0..] == ops && pos[0..] == pos && sched[0..] == sched;
    assert [] + Weave(ops, pos, sched, 0) == Weave(ops, pos, sched, 0);
    for j := 0 to |sched| + 1
      invariant AtSlot(ops, pos, sched, done, j, newSched)
    {
      done := NextSlot(ops, pos, sched, done, j, newSched);
      newSched := newSched + Select(ops, pos, j);
      if j < |sched| {
        newSched := newSched + [sched[j]];
      }
    }
  }

  lemma {:induction false} BuildLength<T>(P: seq<seq<T>>, s: seq<T>)
    requires s in Build(P)
    ensures |s| == Total(P)
    decreases |P|
  {
    if P != [] {
      var ops, before := P[|P| - 1], P[..|P| - 1];
      var p, t := ExtendSound(ops, Combos(0, Total(before) + 1, |ops|), Build(before), s);
      CombosExact(0, Total(before) + 1, |ops|, p);
      BuildLength(before, t);
      WeaveLength(ops, p, t, 0);
    }
  }

  lemma {:induction false} BuildNonEmpty<T>(P: seq<seq<T>>)
    ensures Build(P) != []
    decreases |P|
  {
    if P != [] {
      var ops, before := P[|P| - 1], P[..|P| - 1];
      BuildNonEmpty(before);
      var zeros := seq(|ops|, i => 0);
      ZerosArePositions(Total(before) + 1, |ops|);
      CombosExact(0, Total(before) + 1, |ops|, zeros);
      ExtendComplete(ops, Combos(0, Total(before) + 1, |ops|), Build(before), zeros, Build(before)[0]);
    }
  }

  lemma {:induction false} ZerosArePositions(l: nat, k: nat)
    requires l > 0
    ensures Positions(seq(k, i => 0), 0, l, k)
    decreases k
  {
    if k > 0 {
      ZerosArePositions(l, k - 1);
      assert seq(k, i => 0)[1..] == seq(k - 1, i => 0);
    }
  }

  lemma ExtendSplit<T>(ops: seq<T>, combos: seq<seq<nat>>, I: seq<seq<T>>, c: nat, soFar: seq<seq<T>>)
    requires c < |combos|
    ensures soFar + ExtendBy(ops, combos[c..], I) ==
            (soFar + WeaveAll(ops, combos[c], I)) + ExtendBy(ops, combos[c + 1..], I)
  {
    assert combos[c..][1..] == combos[c + 1..];
    ConcatAssoc(soFar, WeaveAll(ops, combos[c], I), ExtendBy(ops, combos[c + 1..], I));
  }

  /** The loop over the choices of positions. */
  method ExtendRows<T>(ops: seq<T>, combos: seq<seq<nat>>, I: seq<seq<T>>, ghost n: nat) returns (newI: seq<seq<T>>)
    requires forall p :: p in combos ==> Positions(p, 0, n + 1, |ops|)
    requires forall s :: s in I ==> |s| == n
    ensures newI == ExtendBy(ops, combos, I)
  {
    newI := [];
    ghost var all := ExtendBy(ops, combos, I);
    assert combos[0..] == combos;
    ConcatNil(all);
    for c := 0 to |combos|
      invariant newI + ExtendBy(ops, combos[c..], I) == all
    {
      assert combos[c] in combos;
      var row := WeaveRow(ops, combos[c], I, n);
      ExtendSplit(ops, combos, I, c, newI);
      newI := newI + row;
    }
    ConcatNil(newI);
  }

  lemma CombosAreOk(l: nat, k: nat)
    ensures forall p :: p in Combos(0, l, k) ==> Positions(p, 0, l, k)
  {
    forall p | p in Combos(0, l, k)
      ensures Positions(p, 0, l, k)
    {
      CombosExact(0, l, k, p);
    }
  }

  /** Weaves one list into every schedule, for every choice of positions. */
  method Extend<T>(ops: seq<T>, I: seq<seq<T>>, ghost before: seq<seq<T>>) returns (newI: seq<seq<T>>)
    requires I == Build(before)
    ensures newI == Build(before + [ops])
  {
    BuildSchedules(before);
    var l := |I[0]| + 1;
    assert I[0] in I;
    CombosAreOk(l, |ops|);
    newI := ExtendRows(ops, Combos(0, l, |ops|), I, Total(before));
    BuildSnoc(before, ops);
  }

  /** The loop over the schedules for one choice of positions. */
  method WeaveRow<T>(ops: seq<T>, pos: seq<nat>, I: seq<seq<T>>, ghost n: nat) returns (row: seq<seq<T>>)
    requires |pos| == |ops| && Positions(pos, 0, n + 1, |ops|) && forall s :: s in I ==> |s| == n
    ensures row == WeaveAll(ops, pos, I)
  {
    row := [];
    for i := 0 to |I|
      invariant row == WeaveAll(ops, pos, I)[..i]
    {
      assert I[i] in I;
      var newSched := Insert(ops, pos, I[i]);
      row := row + [newSched];
    }
  }

  /** There is a schedule, and all schedules are equally long. */
  lemma BuildSchedules<T>(P: seq<seq<T>>)
    ensures Build(P) != [] && forall s :: s in Build(P) ==> |s| == Total(P)
  {
    BuildNonEmpty(P);
    forall s | s in Build(P)
      ensures |s| == Total(P)
    {
      BuildLength(P, s);
    }
  }

  lemma BuildSnoc<T>(before: seq<seq<T>>, ops: seq<T>)
    ensures Build(before + [ops]) == BuildStep(ops, Total(before), Build(before))
  {
    var P := before + [ops];
    assert P[..|P| - 1] == before && P[|P| - 1] == ops;
  }

  /** The program: all schedules of all the lists. */
  method Schedules<T>(P: seq<seq<T>>) returns (I: seq<seq<T>>)
    ensures I == Build(P)
  {
    I := [[]];
    for t := 0 to |P|
      invariant I == Build(P[..t])
    {
      I := Extend(P[t], I, P[..t]);
      assert P[..t + 1] == P[..t] + [P[t]];
    }
    assert P[..|P|] == P;
  }
}
