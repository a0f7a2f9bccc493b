/**
 sperf: adding up the time of each system call in a linked list and keeping it sorted. Times are
 exact non-negative numbers here.
 */
module Sperf {

  datatype Item = Item(func: string, time: real)

  const MAX_OUTPUT_NUM := 8

  // ----- what the list holds -------------------------------------------------------------

  /** Entries i and j have different names. */
  ghost predicate Apart(items: seq<Item>, i: int, j: int) {
    0 <= i < |items| && 0 <= j < |items| && i != j ==> items[i].func != items[j].func
  }

  ghost predicate Correct(items: seq<Item>, m: map<string, real>, i: int) {
    0 <= i < |items| ==> items[i].func in m && m[items[i].func] == items[i].time
  }

  ghost predicate Listed(items: seq<Item>, f: string) {
    exists i :: 0 <= i < |items| && items[i].func == f
  }

  /** `items` holds each name once, with the time `m` gives it. */
  ghost predicate Represents(items: seq<Item>, m: map<string, real>) {
    (forall i, j {:trigger Apart(items, i, j)} :: Apart(items, i, j)) &&
    (forall i {:trigger Correct(items, m, i)} :: Correct(items, m, i)) &&
    forall f {:trigger Listed(items, f)} :: f in m ==> Listed(items, f)
  }

  /** One more measurement. */
  function Charge(m: map<string, real>, f: string, t: real): map<string, real> {
    m[f := (if f in m then m[f] else 0.0) + t]
  }

  /** The total time of each name over a stream of measurements. */
  function Tally(stream: seq<Item>): map<string, real> {
    if stream == [] then map[]
    else Charge(Tally(stream[..|stream| - 1]), stream[|stream| - 1].func, stream[|stream| - 1].time)
  }

  function Sum(items: seq<Item>): real {
    if items == [] then 0.0 else Sum(items[..|items| - 1]) + items[|items| - 1].time
  }

  ghost predicate Descending(items: seq<Item>) {
    forall i, j :: 0 <= i < j < |items| ==> items[i].time >= items[j].time
  }

  lemma {:induction false} SumUpdate(items: seq<Item>, i: nat, x: Item)
    requires i < |items|
    ensures Sum(items[i := x]) == Sum(items) - items[i].time + x.time
    decreases |items|
  {
    var n := |items| - 1;
    if i == n {
      assert items[i := x][..n] == items[..n];
    } else {
      SumUpdate(items[..n], i, x);
      assert items[i := x][..n] == items[..n][i := x];
    }
  }

  function Swapped(items: seq<Item>, i: nat, j: nat): (r: seq<Item>)
    requires i < |items| && j < |items|
    ensures |r| == |items|
  {
    items[i := items[j]][j := items[i]]
  }

  function Other(i: nat, j: nat, k: nat): nat {
    if k == i then j else if k == j then i else k
  }

  lemma SwapSum(items: seq<Item>, i: nat, j: nat)
    requires i < j < |items|
    ensures Sum(Swapped(items, i, j)) == Sum(items)
  {
    SumUpdate(items, i, items[j]);
    SumUpdate(items[i := items[j]], j, items[i]);
  }

  lemma RepresentsMoved(items: seq<Item>, r: seq<Item>, i: nat, j: nat, m: map<string, real>)
    requires i < j < |items| && Represents(items, m) && |r| == |items|
    requires forall k {:trigger r[k]} :: 0 <= k < |r| ==> r[k] == items[Other(i, j, k)]
    ensures Represents(r, m)
  {
    forall a, b
      ensures Apart(r, a, b)
    {
      if 0 <= a < |r| && 0 <= b < |r| && a != b {
        assert Apart(items, Other(i, j, a), Other(i, j, b));
      }
    }
    forall a
      ensures Correct(r, m, a)
    {
      if 0 <= a < |r| {
        assert Correct(items, m, Other(i, j, a));
      }
    }
    forall f | f in m
      ensures Listed(r, f)
    {
      assert Listed(items, f);
      var k :| 0 <= k < |items| && items[k].func == f;
      assert r[Other(i, j, k)].func == f;
    }
  }

  /** Swapping two entries keeps the contents and the sum. */
  lemma SwapKeeps(items: seq<Item>, i: nat, j: nat, m: map<string, real>)
    requires i < j < |items| && Represents(items, m)
    ensures Represents(Swapped(items, i, j), m) && Sum(Swapped(items, i, j)) == Sum(items)
  {
    SwapSum(items, i, j);
    RepresentsMoved(items, Swapped(items, i, j), i, j, m);
  }

  /** Adding to an entry that is there. */
  lemma AddKeeps(items: seq<Item>, m: map<string, real>, k: nat, t: real, r: seq<Item>)
    requires Represents(items, m) && k < |items| && r == items[k := items[k].(time := items[k].time + t)]
    ensures Represents(r, Charge(m, items[k].func, t)) && Sum(r) == Sum(items) + t
  {
    var f := items[k].func;
    SumUpdate(items, k, r[k]);
    assert Correct(items, m, k);
    forall a, b
      ensures Apart(r, a, b)
    {
      assert Apart(items, a, b);
    }
    forall a
      ensures Correct(r, Charge(m, f, t), a)
    {
      assert Correct(items, m, a) && Apart(items, a, k);
    }
    forall g | g in Charge(m, f, t)
      ensures Listed(r, g)
    {
      assert Listed(items, g);
      var i :| 0 <= i < |items| && items[i].func == g;
      assert r[i].func == g;
    }
  }

  /** Adding an entry for a new name. */
  lemma NewKeeps(items: seq<Item>, m: map<string, real>, f: string, t: real, r: seq<Item>)
    requires Represents(items, m) && (forall i :: 0 <= i < |items| ==> items[i].func != f) && r == items + [Item(f, t)]
    ensures Represents(r, Charge(m, f, t)) && Sum(r) == Sum(items) + t
  {
    assert r[..|items|] == items;
    assert f !in m by {
      assert !Listed(items, f);
    }
    forall a, b
      ensures Apart(r, a, b)
    {
      assert Apart(items, a, b);
    }
    forall a
      ensures Correct(r, Charge(m, f, t), a)
    {
      assert Correct(items, m, a);
    }
    forall g | g in Charge(m, f, t)
      ensures Listed(r, g)
    {
      if g == f {
        assert r[|items|].func == g;
      } else {
        assert Listed(items, g);
        var i :| 0 <= i < |items| && items[i].func == g;
        assert r[i].func == g;
      }
    }
  }

  /** The first entry with the name, or -1. */
  function IndexOf(items: seq<Item>, f: string, from: nat): (k: int)
    requires from <= |items|
    ensures k == -1 || (from <= k < |items| && items[k].func == f)
    ensures forall i :: from <= i < (if k == -1 then |items| else k) ==> items[i].func != f
    decreases |items| - from
  {
    if from == |items| then -1 else if items[from].func == f then from else IndexOf(items, f, from + 1)
  }

  /** What append makes of the list. */
  function Added(items: seq<Item>, f: string, t: real): (r: seq<Item>)
    ensures r != []
  {
    var k := IndexOf(items, f, 0);
    if k == -1 then items + [Item(f, t)] else items[k := items[k].(time := items[k].time + t)]
  }

  /** append keeps each name once with the sum of its times. */
  lemma AddedRepresents(items: seq<Item>, m: map<string, real>, f: string, t: real)
    requires Represents(items, m)
    ensures Represents(Added(items, f, t), Charge(m, f, t)) && Sum(Added(items, f, t)) == Sum(items) + t
  {
    var k := IndexOf(items, f, 0);
    if k == -1 {
      NewKeeps(items, m, f, t, Added(items, f, t));
    } else {
      AddKeeps(items, m, k, t, Added(items, f, t));
    }
  }

  /** Entry i against entry j. */
  function SortRowStep(items: seq<Item>, i: nat, j: nat): (r: seq<Item>)
    requires i < j < |items|
    ensures |r| == |items|
  {
    if items[j].time > items[i].time then Swapped(items, i, j) else items
  }

  /** The inner loop of sort: entry i against entries from j on. */
  function SortRow(items: seq<Item>, i: nat, j: nat): (r: seq<Item>)
    requires i < j <= |items|
    ensures |r| == |items|
    decreases |items| - j
  {
    if j == |items| then items
    else SortRow(SortRowStep(items, i, j), i, j + 1)
  }

  /** The outer loop of sort, from entry i on. */
  function SortFrom(items: seq<Item>, i: nat): (r: seq<Item>)
    requires i < |items|
    ensures |r| == |items|
    decreases |items| - i
  {
    if i + 1 == |items| then items else SortFrom(SortRow(items, i, i + 1), i + 1)
  }

  /** Entries before i are in place; entry i is at least as large as those up to j. */
  ghost predicate SortedTo(items: seq<Item>, i: nat, j: nat) {
    (forall a, b :: 0 <= a < i && a < b < |items| ==> items[a].time >= items[b].time) &&
    forall b :: i < b < j && b < |items| ==> items[i].time >= items[b].time
  }

  lemma SwapSorts(items: seq<Item>, i: nat, j: nat)
    requires i < j < |items| && SortedTo(items, i, j)
    ensures SortedTo(SortRowStep(items, i, j), i, j + 1)
  {
  }

  lemma {:induction false} SortRowSorts(items: seq<Item>, i: nat, j: nat)
    requires i < j <= |items| && SortedTo(items, i, j)
    ensures SortedTo(SortRow(items, i, j), i, |items|)
    decreases |items| - j
  {
    if j < |items| {
      SwapSorts(items, i, j);
      SortRowSorts(SortRowStep(items, i, j), i, j + 1);
    }
  }

  /** sort leaves the times non-increasing. */
  lemma {:induction false} SortFromSorts(items: seq<Item>, i: nat)
    requires i < |items| && SortedTo(items, i, i + 1)
    ensures Descending(SortFrom(items, i))
    decreases |items| - i
  {
    if i + 1 < |items| {
      SortRowSorts(items, i, i + 1);
      SortFromSorts(SortRow(items, i, i + 1), i + 1);
    }
  }

  lemma {:induction false} SortRowKeeps(items: seq<Item>, i: nat, j: nat, m: map<string, real>)
    requires i < j <= |items| && Represents(items, m)
    ensures Represents(SortRow(items, i, j), m) && Sum(SortRow(items, i, j)) == Sum(items)
    decreases |items| - j
  {
    if j < |items| {
      if items[j].time > items[i].time {
        SwapKeeps(items, i, j, m);
      }
      SortRowKeeps(SortRowStep(items, i, j), i, j + 1, m);
    }
  }

  /** sort loses and invents nothing. */
  lemma {:induction false} SortFromKeeps(items: seq<Item>, i: nat, m: map<string, real>)
    requires i < |items| && Represents(items, m)
    ensures Represents(SortFrom(items, i), m) && Sum(SortFrom(items, i)) == Sum(items)
    decreases |items| - i
  {
    if i + 1 < |items| {
      SortRowKeeps(items, i, i + 1, m);
      SortFromKeeps(SortRow(items, i, i + 1), i + 1, m);
    }
  }

  lemma {:induction false} SortRowIdle(items: seq<Item>, i: nat, j: nat)
    requires i < j <= |items| && Descending(items)
    ensures SortRow(items, i, j) == items
    decreases |items| - j
  {
    if j < |items| {
      SortRowIdle(items, i, j + 1);
    }
  }

  /** sort leaves a list that is in order as it is, entries with equal times included. */
  lemma {:induction false} SortFromIdle(items: seq<Item>, i: nat)
    requires i < |items| && Descending(items)
    ensures SortFrom(items, i) == items
    decreases |items| - i
  {
    if i + 1 < |items| {
      SortRowIdle(items, i, i + 1);
      SortFromIdle(items, i + 1);
    }
  }

  // ----- the linked list -----------------------------------------------------------------

  class Node {
    var func: string
    var time: real
    var next: Node?

    constructor (func: string, time: real)
      ensures this.func == func && this.time == time && next == null
    {
      this.func, this.time, next := func, time, null;
    }
  }

  ghost predicate Linked(nodes: seq<Node>)
    reads nodes`next
  {
    (forall i, j :: 0 <= i < j < |nodes| ==> nodes[i] != nodes[j]) &&
    forall i {:trigger nodes[i].next} :: 0 <= i < |nodes| ==> nodes[i].next == if i + 1 < |nodes| then nodes[i + 1] else null
  }

  /** The nodes carry these items. */
  ghost predicate Carries(nodes: seq<Node>, items: seq<Item>)
    reads nodes`func, nodes`time
  {
    |items| == |nodes| &&
    forall i {:trigger items[i]} {:trigger nodes[i].func} {:trigger nodes[i].time} :: 0 <= i < |nodes| ==>
      nodes[i].func == items[i].func && nodes[i].time == items[i].time
  }

  method AddTime(q: Node, t: real, ghost nodes: seq<Node>, ghost items: seq<Item>, ghost k: nat)
    requires Linked(nodes) && Carries(nodes, items) && k < |nodes| && q == nodes[k]
    modifies q`time
    ensures Carries(nodes, items[k := items[k].(time := items[k].time + t)])
  {
    q.time := q.time + t;
  }

  /** append: add the time to the entry with that name, or put the new node at the end. */
  method Append(head: Node?, p: Node, ghost nodes: seq<Node>, ghost items: seq<Item>)
    returns (h: Node, ghost nodes': seq<Node>)
    requires Linked(nodes) && Carries(nodes, items)
    requires head == (if nodes == [] then null else nodes[0]) && p !in nodes
    modifies nodes`time, nodes`next, p`next
    ensures nodes' != [] && h == nodes'[0] && (nodes' == nodes || nodes' == nodes + [p])
    ensures Linked(nodes') && Carries(nodes', Added(items, p.func, p.time))
  {
    if head == null {
      p.next := null;
      return p, [p];
    }
    h := head;
    var q := head;
    ghost var k := 0;
    while q.next != null
      invariant 0 <= k < |nodes| && q == nodes[k]
      invariant IndexOf(items, p.func, 0) == IndexOf(items, p.func, k)
      decreases |nodes| - k
    {
      if q.func == p.func {
        AddTime(q, p.time, nodes, items, k);
        return h, nodes;
      }
      q := q.next;
      k := k + 1;
    }
    if q.func == p.func {
      AddTime(q, p.time, nodes, items, k);
      return h, nodes;
    }
    q.next := p;
    p.next := null;
    nodes' := nodes + [p];
  }

  /** Exchange what two nodes carry; the links stay. */
  method SwapPayload(p: Node, q: Node, ghost nodes: seq<Node>, ghost items: seq<Item>, ghost i: nat, ghost j: nat)
    requires Linked(nodes) && Carries(nodes, items) && i < j < |nodes| && p == nodes[i] && q == nodes[j]
    modifies p`func, p`time, q`func, q`time
    ensures Carries(nodes, Swapped(items, i, j))
  {
    assert p != q;
    var f, t := q.func, q.time;
    q.func, q.time := p.func, p.time;
    p.func, p.time := f, t;
    ghost var r := Swapped(items, i, j);
    forall k | 0 <= k < |nodes|
      ensures nodes[k].func == r[k].func && nodes[k].time == r[k].time
    {
      assert k != i ==> nodes[k] != p;
      assert k != j ==> nodes[k] != q;
    }
  }

  /** One turn of the inner loop. */
  method CompareAndSwap(p: Node, q: Node, ghost nodes: seq<Node>, ghost items: seq<Item>, ghost i: nat, ghost j: nat)
    requires Linked(nodes) && Carries(nodes, items) && i < j < |nodes| && p == nodes[i] && q == nodes[j]
    modifies p`func, p`time, q`func, q`time
    ensures Carries(nodes, SortRowStep(items, i, j))
  {
    assert items[i].time == p.time && items[j].time == q.time;
    if q.time > p.time {
      SwapPayload(p, q, nodes, items, i, j);
    }
  }

  /** The inner loop of sort. */
  method SortOne(p: Node, ghost nodes: seq<Node>, ghost items: seq<Item>, ghost i: nat)
    requires Linked(nodes) && Carries(nodes, items) && i < |nodes| && p == nodes[i]
    modifies nodes`func, nodes`time
    ensures Carries(nodes, SortRow(items, i, i + 1))
  {
    ghost var now := items;
    var q := p.next;
    ghost var j := i + 1;
    while q != null
      invariant i < j <= |nodes| && q == (if j < |nodes| then nodes[j] else null)
      invariant Carries(nodes, now) && SortRow(now, i, j) == SortRow(items, i, i + 1)
      decreases |nodes| - j
    {
      CompareAndSwap(p, q, nodes, now, i, j);
      now := SortRowStep(now, i, j);
      q := q.next;
      j := j + 1;
    }
  }

  /** sort: exchange payloads until the times do not increase along the list. */
  method Sort(head: Node, ghost nodes: seq<Node>, ghost items: seq<Item>)
    requires Linked(nodes) && Carries(nodes, items) && nodes != [] && head == nodes[0]
    modifies nodes`func, nodes`time
    ensures Carries(nodes, SortFrom(items, 0))
  {
    ghost var now := items;
    var p := head;
    ghost var i := 0;
    while p.next != null
      invariant 0 <= i < |nodes| && p == nodes[i]
      invariant Carries(nodes, now) && SortFrom(now, i) == SortFrom(items, 0)
      decreases |nodes| - i
    {
      SortOne(p, nodes, now, i);
      now := SortRow(now, i, i + 1);
      p := p.next;
      i := i + 1;
    }
  }

  // ----- the report ----------------------------------------------------------------------

  datatype Line = Line(func: string, percent: int)

  function Percent(t: real, total: real): int
    requires total > 0.0
  {
    (t / total * 100.0).Floor
  }

  /** A percentage is the share of the total, rounded down. */
  lemma PercentIsShare(t: real, total: real)
    requires total > 0.0
    ensures Percent(t, total) as real <= 100.0 * t / total < Percent(t, total) as real + 1.0
  {
    assert 100.0 * t / total == t / total * 100.0;
  }

  /** show: the first entries with their truncated percentages. */
  method Show(head: Node, total: real, ghost nodes: seq<Node>, ghost items: seq<Item>) returns (out: seq<Line>)
    requires Linked(nodes) && Carries(nodes, items) && nodes != [] && head == nodes[0] && total > 0.0
    ensures |out| == if |items| < MAX_OUTPUT_NUM then |items| else MAX_OUTPUT_NUM
    ensures forall k :: 0 <= k < |out| ==> out[k] == Line(items[k].func, Percent(items[k].time, total))
  {
    out := [];
    var num := 1;
    var p: Node? := head;
    while p != null
      invariant num == |out| + 1 && |out| <= |items| && |out| < MAX_OUTPUT_NUM
      invariant p == (if |out| < |nodes| then nodes[|out|] else null)
      invariant forall k :: 0 <= k < |out| ==> out[k] == Line(items[k].func, Percent(items[k].time, total))
      decreases |items| - |out|
    {
      out := out + [Line(p.func, Percent(p.time, total))];
      if num == MAX_OUTPUT_NUM {
        break;
      }
      num := num + 1;
      p := p.next;
    }
  }

  function PercentSum(items: seq<Item>, total: real): int
    requires total > 0.0
  {
    if items == [] then 0 else PercentSum(items[..|items| - 1], total) + Percent(items[|items| - 1].time, total)
  }

  lemma DivideSum(a: real, b: real, c: real)
    requires c > 0.0
    ensures (a + b) / c * 100.0 == a / c * 100.0 + b / c * 100.0
  {
    assert (a + b) / c == a / c + b / c;
  }

  lemma {:induction false} PercentAtMostShare(items: seq<Item>, total: real)
    requires total > 0.0
    ensures PercentSum(items, total) as real <= Sum(items) / total * 100.0
    decreases |items|
  {
    if items != [] {
      var front, x := items[..|items| - 1], items[|items| - 1];
      PercentAtMostShare(front, total);
      DivideSum(Sum(front), x.time, total);
    }
  }

  ghost predicate NonNegative(items: seq<Item>) {
    forall i :: 0 <= i < |items| ==> items[i].time >= 0.0
  }

  lemma {:induction false} SumOfFront(items: seq<Item>, k: nat)
    requires NonNegative(items) && k <= |items|
    ensures Sum(items[..k]) <= Sum(items)
    decreases |items|
  {
    var n := |items| - 1;
    if k == |items| {
      assert items[..k] == items;
    } else {
      SumOfFront(items[..n], k);
      assert items[..n][..k] == items[..k];
    }
  }

  lemma ShareAtMostAll(a: real, total: real)
    requires a <= total && total > 0.0
    ensures a / total * 100.0 <= 100.0
  {
    assert a / total <= 1.0;
  }

  /** The percentages shown for the first k entries add up to at most 100. */
  lemma PercentagesAtMost100(items: seq<Item>, total: real, k: nat)
    requires NonNegative(items) && total > 0.0 && Sum(items) == total && k <= |items|
    ensures PercentSum(items[..k], total) <= 100
  {
    PercentAtMostShare(items[..k], total);
    SumOfFront(items, k);
    ShareAtMostAll(Sum(items[..k]), total);
  }

  function LineSum(out: seq<Line>): int {
    if out == [] then 0 else LineSum(out[..|out| - 1]) + out[|out| - 1].percent
  }

  /** The report's lines are those of the first entries. */
  ghost predicate Shows(out: seq<Line>, items: seq<Item>, total: real)
    requires total > 0.0
  {
    |out| <= |items| && forall k :: 0 <= k < |out| ==> out[k] == Line(items[k].func, Percent(items[k].time, total))
  }

  lemma {:induction false} LineSumIs(out: seq<Line>, items: seq<Item>, total: real)
    requires total > 0.0 && Shows(out, items, total)
    ensures LineSum(out) == PercentSum(items[..|out|], total)
    decreases |out|
  {
    if out != [] {
      var n := |out| - 1;
      LineSumIs(out[..n], items, total);
      assert items[..|out|][..n] == items[..n];
    }
  }

  /** A name that is shown has at least the time of any name that is not. */
  lemma ShownAreLargest(out: seq<Line>, items: seq<Item>, m: map<string, real>, total: real)
    requires total > 0.0 && Shows(out, items, total) && Represents(items, m) && Descending(items)
    ensures forall k :: 0 <= k < |out| ==> out[k].func in m && out[k].percent == Percent(m[out[k].func], total)
    ensures forall k, f :: 0 <= k < |out| && f in m && (forall l :: 0 <= l < |out| ==> out[l].func != f) ==>
      m[out[k].func] >= m[f]
  {
    forall k | 0 <= k < |out|
      ensures out[k].func in m && out[k].percent == Percent(m[out[k].func], total) && m[out[k].func] == items[k].time
    {
      assert Correct(items, m, k);
    }
    forall k, f | 0 <= k < |out| && f in m && (forall l :: 0 <= l < |out| ==> out[l].func != f)
      ensures m[out[k].func] >= m[f]
    {
      assert Listed(items, f);
      var i :| 0 <= i < |items| && items[i].func == f;
      assert Correct(items, m, i) && Correct(items, m, k);
      assert forall l :: 0 <= l < |out| ==> items[l].func == out[l].func;
    }
  }

  // ----- the program ---------------------------------------------------------------------

  lemma {:induction false} TallyNonNegative(stream: seq<Item>)
    requires NonNegative(stream)
    ensures forall f :: f in Tally(stream) ==> Tally(stream)[f] >= 0.0
    decreases |stream|
  {
    if stream != [] {
      TallyNonNegative(stream[..|stream| - 1]);
    }
  }

  /** No entry of the list is negative when no measurement was. */
  lemma ItemsNonNegative(items: seq<Item>, stream: seq<Item>)
    requires NonNegative(stream) && Represents(items, Tally(stream))
    ensures NonNegative(items)
  {
    TallyNonNegative(stream);
    forall i | 0 <= i < |items|
      ensures items[i].time >= 0.0
    {
      assert Correct(items, Tally(stream), i);
    }
  }

  /** The list after a stream of measurements: each name once with the sum of its times, largest first. */
  ghost predicate Profiles(items: seq<Item>, stream: seq<Item>, total: real) {
    Represents(items, Tally(stream)) && Descending(items) && Sum(items) == total && Sum(stream) == total
  }

  /** One more measurement. */
  lemma FeedKeeps(items: seq<Item>, stream: seq<Item>, total: real, x: Item, longer: seq<Item>)
    requires Profiles(items, stream, total) && longer == stream + [x]
    ensures Profiles(SortFrom(Added(items, x.func, x.time), 0), longer, total + x.time)
  {
    assert longer[..|longer| - 1] == stream;
    AddedRepresents(items, Tally(stream), x.func, x.time);
    var added := Added(items, x.func, x.time);
    SortFromSorts(added, 0);
    SortFromKeeps(added, 0, Charge(Tally(stream), x.func, x.time));
  }

  /** The linked list from `head` carries these items. */
  ghost predicate Holds(head: Node?, nodes: seq<Node>, items: seq<Item>)
    reads nodes
  {
    Linked(nodes) && Carries(nodes, items) && head == if nodes == [] then null else nodes[0]
  }

  /** append, then sort. */
  method File(head: Node?, p: Node, ghost nodes: seq<Node>, ghost items: seq<Item>)
    returns (h: Node, ghost nodes': seq<Node>)
    requires Holds(head, nodes, items) && p !in nodes
    modifies nodes, p
    ensures nodes' == nodes || nodes' == nodes + [p]
    ensures Holds(h, nodes', SortFrom(Added(items, old(p.func), old(p.time)), 0))
  {
    ghost var added := Added(items, p.func, p.time);
    h, nodes' := Append(head, p, nodes, items);
    Sort(h, nodes', added);
  }

  /** A new node for the measurement, filed. */
  method Record(head: Node?, x: Item, ghost nodes: seq<Node>, ghost items: seq<Item>, ghost stream: seq<Item>, total: real)
    returns (h: Node, total': real, ghost nodes': seq<Node>, ghost items': seq<Item>, ghost stream': seq<Item>)
    requires Holds(head, nodes, items) && Profiles(items, stream, total)
    modifies nodes
    ensures forall n :: n in nodes' && n !in nodes ==> fresh(n)
    ensures stream' == stream + [x] && total' == total + x.time
    ensures Holds(h, nodes', items') && Profiles(items', stream', total')
  {
    total', stream' := total + x.time, stream + [x];
    FeedKeeps(items, stream, total, x, stream');
    var p := new Node(x.func, x.time);
    h, nodes' := File(head, p, nodes, items);
    items' := SortFrom(Added(items, x.func, x.time), 0);
  }

  /** The list and the total as measurements arrive. */
  class Profile {
    var head: Node?
    var total: real
    ghost var nodes: seq<Node>
    ghost var items: seq<Item>
    ghost var stream: seq<Item>

    /** The linked list carries the profile of the measurements so far. */
    ghost predicate Valid()
      reads this, nodes
    {
      Holds(head, nodes, items) && Profiles(items, stream, total)
    }

    constructor ()
      ensures Valid() && stream == [] && nodes == []
    {
      head, total := null, 0.0;
      nodes, items, stream := [], [], [];
    }

    /** One measurement: add it to the total, file it in the list. */
    method Feed(func: string, time: real)
      requires Valid()
      modifies this, nodes
      ensures Valid() && stream == old(stream) + [Item(func, time)] && total == old(total) + time
      ensures head != null && forall x :: x in nodes && x !in old(nodes) ==> fresh(x)
    {
      var h: Node;
      var total';
      ghost var nodes', items', stream';
      h, total', nodes', items', stream' := Record(head, Item(func, time), nodes, items, stream, total);
      head, total, nodes, items, stream := h, total', nodes', items', stream';
    }

    /** The report names the largest entries, and its percentages add up to at most 100. */
    method Report() returns (out: seq<Line>)
      requires Valid() && head != null && total > 0.0 && NonNegative(stream)
      ensures |out| == if |items| < 8 then |items| else 8
      ensures forall k :: 0 <= k < |out| ==> out[k].func in Tally(stream) && out[k].percent == Percent(Tally(stream)[out[k].func], total)
      ensures LineSum(out) <= 100
      ensures forall k, f :: 0 <= k < |out| && f in Tally(stream) && (forall l :: 0 <= l < |out| ==> out[l].func != f) ==>
        Tally(stream)[out[k].func] >= Tally(stream)[f]
    {
      out := Show(head, total, nodes, items);
      ItemsNonNegative(items, stream);
      PercentagesAtMost100(items, total, |out|);
      LineSumIs(out, items, total);
      ShownAreLargest(out, items, Tally(stream), total);
    }
  }
}
