/**
 The process hierarchy as values: parent links, child lists, ancestry and preorder trees.
 Everything here is about a sequence `par` of parent links (index of the parent, or -1).
 */
module ProcForest {
  import opened SeqFacts

  /** Every parent link is -1 or an index of the table. */
  predicate LinksOk(par: seq<int>) {
    forall i :: 0 <= i < |par| ==> -1 <= par[i] < |par|
  }

  // ----- child lists ---------------------------------------------------------------------

  /** The first index at or after `from` whose parent is `p`, or -1. */
  function Next(par: seq<int>, p: int, from: nat): (r: int)
    requires from <= |par|
    ensures r == -1 || (from <= r < |par| && par[r] == p)
    ensures forall j :: from <= j < (if r == -1 then |par| else r) ==> par[j] != p
    decreases |par| - from
  {
    if from == |par| then -1
    else if par[from] == p then from
    else Next(par, p, from + 1)
  }

  /** The children of `p` at or after `from`, in increasing index order. */
  function Kids(par: seq<int>, p: int, from: nat): (r: seq<int>)
    requires from <= |par|
    decreases |par| - from
  {
    var c := Next(par, p, from);
    if c == -1 then [] else [c] + Kids(par, p, c + 1)
  }

  /** A child list holds every process with that parent, and its indices increase. */
  lemma {:induction false} KidsExact(par: seq<int>, p: int, from: nat)
    requires from <= |par|
    ensures forall i :: i in Kids(par, p, from) <==> from <= i < |par| && par[i] == p
    ensures forall a, b :: 0 <= a < b < |Kids(par, p, from)| ==> Kids(par, p, from)[a] < Kids(par, p, from)[b]
    decreases |par| - from
  {
    var c := Next(par, p, from);
    if c != -1 {
      KidsExact(par, p, c + 1);
      var r, rest := Kids(par, p, from), Kids(par, p, c + 1);
      assert r == [c] + rest;
      assert forall i :: i in r <==> i == c || i in rest;
      forall a, b | 0 <= a < b < |r|
        ensures r[a] < r[b]
      {
        assert r[b] == rest[b - 1] && rest[b - 1] in rest;
      }
    }
  }

  /** Hiding a process cuts its own parent link and nothing else. */
  function Masked(par: seq<int>, show: seq<bool>): (r: seq<int>)
    requires |par| == |show|
    ensures IsMask(r, par, show)
    ensures LinksOk(par) ==> LinksOk(r)
  {
    seq(|par|, i requires 0 <= i < |par| => if show[i] then par[i] else -1)
  }

  predicate IsShown(show: seq<bool>, i: int) {
    0 <= i < |show| && show[i]
  }

  function Filter(s: seq<int>, show: seq<bool>): (r: seq<int>) {
    if s == [] then [] else (if IsShown(show, s[0]) then [s[0]] else []) + Filter(s[1..], show)
  }

  /** `m` is `par` with the hidden processes cut off. */
  ghost predicate IsMask(m: seq<int>, par: seq<int>, show: seq<bool>) {
    |m| == |par| == |show| &&
    forall i {:trigger m[i]} :: 0 <= i < |m| ==> m[i] == if show[i] then par[i] else -1
  }

  /** The next visible child: the next child if it is shown, else the next visible one after it. */
  lemma MaskedNext(m: seq<int>, par: seq<int>, show: seq<bool>, p: nat, from: nat)
    requires IsMask(m, par, show) && from <= |par|
    ensures var c := Next(par, p, from);
            Next(m, p, from) == if c == -1 || show[c] then c else Next(m, p, c + 1)
  {
    var c, r := Next(par, p, from), Next(m, p, from);
    assert r != -1 ==> par[r] == p;
    if c != -1 && show[c] {
      assert m[c] == p;
    } else if c != -1 {
      var q := Next(m, p, c + 1);
      assert m[c] != p;
      assert q != -1 ==> m[q] == p;
    }
  }

  lemma FilterCons(c: int, rest: seq<int>, show: seq<bool>)
    ensures Filter([c] + rest, show) == (if IsShown(show, c) then [c] else []) + Filter(rest, show)
  {
    assert ([c] + rest)[1..] == rest;
  }

  lemma MaskedKidsStep(m: seq<int>, par: seq<int>, show: seq<bool>, p: nat, from: nat, c: nat, visible: seq<int>)
    requires IsMask(m, par, show) && from <= |par| && c == Next(par, p, from) && visible == Kids(m, p, c + 1)
    ensures Kids(m, p, from) == (if IsShown(show, c) then [c] else []) + visible
  {
    MaskedNext(m, par, show, p, from);
    if show[c] {
      KidsCons(m, p, from);
    } else {
      KidsByNext(m, p, from, c + 1);
      ConcatNil(visible);
    }
  }

  /** The visible child list is the full child list filtered, in the same order. */
  lemma {:induction false} MaskedKids(m: seq<int>, par: seq<int>, show: seq<bool>, p: nat, from: nat)
    requires IsMask(m, par, show) && from <= |par|
    ensures Kids(m, p, from) == Filter(Kids(par, p, from), show)
    decreases |par| - from
  {
    var c := Next(par, p, from);
    if c == -1 {
      MaskedNext(m, par, show, p, from);
    } else {
      MaskedKids(m, par, show, p, c + 1);
      MaskedKidsStep(m, par, show, p, from, c, Kids(m, p, c + 1));
      KidsCons(par, p, from);
      FilterCons(c, Kids(par, p, c + 1), show);
    }
  }

  lemma KidsCons(par: seq<int>, p: int, from: nat)
    requires from <= |par| && Next(par, p, from) != -1
    ensures Kids(par, p, from) == [Next(par, p, from)] + Kids(par, p, Next(par, p, from) + 1)
  {
  }

  lemma KidsByNext(par: seq<int>, p: int, a: nat, b: nat)
    requires a <= |par| && b <= |par| && Next(par, p, a) == Next(par, p, b)
    ensures Kids(par, p, a) == Kids(par, p, b)
  {
  }

  /** The next sister of `i`: the next process with the same parent. */
  function SisterOf(par: seq<int>, i: nat): (r: int)
    requires i < |par|
    ensures r == -1 || i < r < |par|
  {
    if par[i] == -1 then -1 else Next(par, par[i], i + 1)
  }

  lemma SisterIsNext(par: seq<int>, p: nat, from: nat)
    requires from <= |par| && Next(par, p, from) != -1
    ensures SisterOf(par, Next(par, p, from)) == Next(par, p, Next(par, p, from) + 1)
  {
  }

  /** How the child lists change when the table is looked at one process further. */
  lemma NextSnoc(par: seq<int>, p: int, from: nat, me: nat)
    requires from <= me < |par|
    ensures Next(par[..me + 1], p, from) ==
            if Next(par[..me], p, from) != -1 then Next(par[..me], p, from)
            else if par[me] == p then me else -1
  {
    var a, b := par[..me], par[..me + 1];
    var r, r' := Next(a, p, from), Next(b, p, from);
    assert b[me] == par[me];
    if r != -1 {
      assert b[r] == p;
    }
    if r' != -1 && r' != me {
      assert a[r'] == p;
    }
  }

  // ----- ancestry ------------------------------------------------------------------------

  /** The k-th ancestor of `i`, or -1 when there are fewer than k. */
  function Up(par: seq<int>, i: int, k: nat): (r: int)
    requires LinksOk(par) && -1 <= i < |par|
    ensures -1 <= r < |par|
    ensures i == -1 ==> r == -1
    decreases k
  {
    if k == 0 || i == -1 then i else Up(par, par[i], k - 1)
  }

  /** `a` is `d` or one of its ancestors. */
  ghost predicate Anc(par: seq<int>, a: int, d: int)
    requires LinksOk(par) && -1 <= d < |par|
  {
    exists k: nat :: Up(par, d, k) == a
  }

  /** No process is its own proper ancestor. */
  ghost predicate Acyclic(par: seq<int>)
    requires LinksOk(par)
  {
    forall i, k: nat :: 0 <= i < |par| && 0 < k ==> Up(par, i, k) != i
  }

  lemma {:induction false} UpAdd(par: seq<int>, i: int, a: nat, b: nat)
    requires LinksOk(par) && -1 <= i < |par|
    ensures Up(par, Up(par, i, a), b) == Up(par, i, a + b)
    decreases a
  {
    if a != 0 && i != -1 {
      UpAdd(par, par[i], a - 1, b);
    }
  }

  /** One more step up, taken at the top instead of at the bottom. */
  lemma UpLast(par: seq<int>, i: int, k: nat)
    requires LinksOk(par) && -1 <= i < |par|
    ensures Up(par, i, k + 1) == if Up(par, i, k) == -1 then -1 else par[Up(par, i, k)]
  {
    UpAdd(par, i, k, 1);
    var x := Up(par, i, k);
    if x != -1 {
      assert Up(par, x, 1) == Up(par, par[x], 0);
    }
  }

  lemma {:induction false} Pigeonhole(s: seq<int>, n: nat)
    requires forall i :: 0 <= i < |s| ==> 0 <= s[i] < n
    requires n < |s|
    ensures exists a, b :: 0 <= a < b < |s| && s[a] == s[b]
    decreases n
  {
    var last := |s| - 1;
    var z := s[last];
    if n > 0 {
      if exists a :: 0 <= a < last && s[a] == z {
      } else {
        // rename the value n - 1 to z, which the rest does not use
        var t := seq(last, i requires 0 <= i < last => if s[i] == n - 1 then z else s[i]);
        Pigeonhole(t, n - 1);
        var a, b :| 0 <= a < b < |t| && t[a] == t[b];
        assert s[a] == s[b];
      }
    }
  }

  /** Without cycles no ancestor chain is as long as the table: every upward walk ends. */
  lemma ChainBound(par: seq<int>, i: int, k: nat)
    requires LinksOk(par) && Acyclic(par) && 0 <= i < |par|
    requires Up(par, i, k) != -1
    ensures k < |par|
  {
    if |par| <= k {
      var n := |par|;
      var s := seq(n + 1, j requires 0 <= j <= n => Up(par, i, j));
      forall j | 0 <= j < |s|
        ensures 0 <= s[j] < n
      {
        UpAdd(par, i, j, k - j);
      }
      Pigeonhole(s, n);
      var a, b :| 0 <= a < b < |s| && s[a] == s[b];
      UpAdd(par, i, a, b - a);
    }
  }

  /** Ancestry seen from below: through the parent. */
  lemma AncByParent(par: seq<int>, a: int, d: int)
    requires LinksOk(par) && 0 <= d < |par| && 0 <= a
    ensures Anc(par, a, d) <==> a == d || (par[d] != -1 && Anc(par, a, par[d]))
  {
    if a == d {
      assert Up(par, d, 0) == a;
    } else if Anc(par, a, d) {
      var k: nat :| Up(par, d, k) == a;
      assert Up(par, par[d], k - 1) == a;
    } else if Anc(par, a, par[d]) {
      var k: nat :| Up(par, par[d], k) == a;
      assert Up(par, d, k + 1) == a;
    }
  }

  /** `rank` counts down towards the root and stays within the size of the table. */
  ghost predicate Ranked(par: seq<int>, rank: seq<nat>) {
    |rank| == |par| && LinksOk(par) &&
    forall i :: 0 <= i < |par| ==> rank[i] <= |par| && (par[i] != -1 ==> rank[par[i]] < rank[i])
  }

  /** The number of processes met going up from `i`, counting at most `fuel`. */
  function ChainLength(par: seq<int>, i: int, fuel: nat): (r: nat)
    requires LinksOk(par) && -1 <= i < |par|
    ensures r <= fuel
    decreases fuel
  {
    if i == -1 || fuel == 0 then 0 else 1 + ChainLength(par, par[i], fuel - 1)
  }

  lemma {:induction false} ChainLengthStable(par: seq<int>, i: int, fuel: nat)
    requires LinksOk(par) && -1 <= i < |par| && Up(par, i, fuel) == -1
    ensures ChainLength(par, i, fuel + 1) == ChainLength(par, i, fuel)
    decreases fuel
  {
    if i != -1 && fuel > 0 {
      ChainLengthStable(par, par[i], fuel - 1);
    }
  }

  /** Parent links without a cycle can be ranked. */
  lemma AcyclicRanked(par: seq<int>) returns (rank: seq<nat>)
    requires LinksOk(par) && Acyclic(par)
    ensures Ranked(par, rank)
  {
    var n := |par|;
    rank := seq(n, i requires 0 <= i < n => ChainLength(par, i, n));
    forall i | 0 <= i < n && par[i] != -1
      ensures rank[par[i]] < rank[i]
    {
      if Up(par, i, n) != -1 {
        ChainBound(par, i, n);
      }
      ChainLengthStable(par, par[i], n - 1);
    }
  }

  /** `d` is a child of `a` with index below `bound`, or a descendant of one. */
  ghost predicate BelowKids(par: seq<int>, a: int, bound: int, d: int)
    requires LinksOk(par) && -1 <= d < |par| && bound <= |par|
  {
    exists c :: 0 <= c < bound && par[c] == a && Anc(par, c, d)
  }

  /** Ancestry seen from above: through exactly one child. */
  lemma AncByChild(par: seq<int>, a: int, d: int)
    requires LinksOk(par) && 0 <= d < |par| && 0 <= a < |par|
    ensures Anc(par, a, d) <==> a == d || BelowKids(par, a, |par|, d)
  {
    if Anc(par, a, d) && a != d {
      var k: nat :| Up(par, d, k) == a;
      UpLast(par, d, k - 1);
      var c := Up(par, d, k - 1);
      assert 0 <= c < |par| && par[c] == a && Anc(par, c, d);
    }
    if a == d {
      assert Up(par, d, 0) == a;
    }
    forall c | 0 <= c < |par| && par[c] == a && Anc(par, c, d)
      ensures Anc(par, a, d)
    {
      var k: nat :| Up(par, d, k) == c;
      UpLast(par, d, k);
      assert Up(par, d, k + 1) == a;
    }
  }

  // ----- preorder trees ------------------------------------------------------------------

  datatype Tree<T> = Node(data: T, kids: seq<Tree<T>>)

  /** The tree below `i`, cut after `limit` levels. */
  function Subtree(par: seq<int>, i: nat, limit: nat): (t: Tree<nat>)
    requires limit > 0
    decreases limit, 0
  {
    Node(i, Forest(par, i, 0, limit - 1))
  }

  /** The trees below the children of `i` at or after `from`. */
  function Forest(par: seq<int>, i: nat, from: nat, limit: nat): (ts: seq<Tree<nat>>)
    requires from <= |par|
    decreases limit, 1, |par| - from
  {
    var c := Next(par, i, from);
    if c == -1 || limit == 0 then [] else [Subtree(par, c, limit)] + Forest(par, i, c + 1, limit)
  }

  /** A printed process: its index and the depth it is printed at. */
  datatype Entry = Entry(idx: nat, depth: nat)

  /** The preorder of `Subtree(par, i, limit)`, with the depths counted from `d`. */
  function Preorder(t: Tree<nat>, d: nat): (es: seq<Entry>)
  {
    [Entry(t.data, d)] + PreorderAll(t.kids, d + 1)
  }

  function PreorderAll(ts: seq<Tree<nat>>, d: nat): (es: seq<Entry>)
  {
    if ts == [] then [] else Preorder(ts[0], d) + PreorderAll(ts[1..], d)
  }

  /** The processes of the preorder are exactly the descendants less than `limit` levels down. */
  lemma {:induction false} PreorderExact(par: seq<int>, i: nat, limit: nat, d: nat, e: Entry)
    requires LinksOk(par) && i < |par| && limit > 0
    ensures e in Preorder(Subtree(par, i, limit), d) <==>
            e.idx < |par| && d <= e.depth < d + limit && Up(par, e.idx, e.depth - d) == i
    decreases limit, 0, 0
  {
    ForestExact(par, i, 0, limit - 1, d + 1, e);
    var es := Preorder(Subtree(par, i, limit), d);
    assert e in es <==> e == Entry(i, d) || e in PreorderAll(Forest(par, i, 0, limit - 1), d + 1);
    if e.idx < |par| && d < e.depth {
      UpLast(par, e.idx, e.depth - d - 1);
    }
  }

  lemma {:induction false} ForestExact(par: seq<int>, i: nat, from: nat, limit: nat, d: nat, e: Entry)
    requires LinksOk(par) && i < |par| && from <= |par|
    ensures e in PreorderAll(Forest(par, i, from, limit), d) <==>
            e.idx < |par| && d <= e.depth < d + limit &&
            from <= Up(par, e.idx, e.depth - d) && par[Up(par, e.idx, e.depth - d)] == i
    decreases limit, 1, |par| - from
  {
    var c := Next(par, i, from);
    if c != -1 && limit != 0 {
      var ts := Forest(par, i, from, limit);
      assert ts[1..] == Forest(par, i, c + 1, limit);
      PreorderExact(par, c, limit, d, e);
      ForestExact(par, i, c + 1, limit, d, e);
    }
  }

  /** No process is printed twice at the same depth, whatever the links are. */
  lemma {:induction false} PreorderDistinct(par: seq<int>, i: nat, limit: nat, d: nat)
    requires LinksOk(par) && i < |par| && limit > 0
    ensures Distinct(Preorder(Subtree(par, i, limit), d))
    decreases limit, 0, 0
  {
    ForestDistinct(par, i, 0, limit - 1, d + 1);
    var rest := PreorderAll(Forest(par, i, 0, limit - 1), d + 1);
    forall e | e in rest
      ensures e !in [Entry(i, d)]
    {
      ForestExact(par, i, 0, limit - 1, d + 1, e);
    }
    DistinctConcat([Entry(i, d)], rest);
  }

  lemma {:induction false} ForestDistinct(par: seq<int>, i: nat, from: nat, limit: nat, d: nat)
    requires LinksOk(par) && i < |par| && from <= |par|
    ensures Distinct(PreorderAll(Forest(par, i, from, limit), d))
    decreases limit, 1, |par| - from
  {
    var c := Next(par, i, from);
    if c != -1 && limit != 0 {
      assert Forest(par, i, from, limit)[1..] == Forest(par, i, c + 1, limit);
      PreorderDistinct(par, c, limit, d);
      ForestDistinct(par, i, c + 1, limit, d);
      var first, rest := Preorder(Subtree(par, c, limit), d), PreorderAll(Forest(par, i, c + 1, limit), d);
      forall e | e in first
        ensures e !in rest
      {
        PreorderExact(par, c, limit, d, e);
        ForestExact(par, i, c + 1, limit, d, e);
      }
      DistinctConcat(first, rest);
    }
  }

  /** Without cycles a process sits at one depth only, so it is printed at most once. */
  lemma OneDepth(par: seq<int>, root: nat, x: nat, j: nat, k: nat)
    requires LinksOk(par) && Acyclic(par) && root < |par| && x < |par|
    requires Up(par, x, j) == root && Up(par, x, k) == root
    ensures j == k
  {
    var lo, hi := if j < k then j else k, if j < k then k else j;
    UpAdd(par, x, lo, hi - lo);
  }

  // ----- visible sets --------------------------------------------------------------------

  /** Whatever is shown has its whole ancestry shown. */
  ghost predicate ClosedUp(par: seq<int>, show: seq<bool>)
    requires LinksOk(par) && |show| == |par|
  {
    forall i :: 0 <= i < |par| && show[i] && par[i] != -1 ==> show[par[i]]
  }

  /** In an upward-closed set, hiding the rest changes no ancestry between shown processes. */
  lemma {:induction false} MaskedUp(par: seq<int>, show: seq<bool>, i: int, k: nat)
    requires LinksOk(par) && |show| == |par| && ClosedUp(par, show)
    requires 0 <= i < |par| && show[i]
    ensures Up(Masked(par, show), i, k) == Up(par, i, k)
    ensures Up(par, i, k) != -1 ==> show[Up(par, i, k)]
    decreases k
  {
    if k > 0 && par[i] != -1 {
      MaskedUp(par, show, par[i], k - 1);
    } else if k > 0 {
      assert Up(Masked(par, show), -1, k - 1) == -1;
    }
  }

  /** Below a shown process only shown processes are reached, at the depth they really have. */
  lemma MaskedReach(par: seq<int>, show: seq<bool>, root: nat, i: nat, k: nat)
    requires LinksOk(par) && |show| == |par| && ClosedUp(par, show)
    requires root < |par| && i < |par| && show[root]
    ensures Up(Masked(par, show), i, k) == root <==> Up(par, i, k) == root && show[i]
  {
    if show[i] {
      MaskedUp(par, show, i, k);
    } else if k > 0 {
      assert Up(Masked(par, show), -1, k - 1) == -1;
    }
  }

  /** What is printed for a shown root: exactly its shown descendants less than `limit` deep, each once. */
  lemma PrintedExactly(par: seq<int>, show: seq<bool>, root: nat, limit: nat)
    requires LinksOk(par) && |show| == |par| && ClosedUp(par, show) && Acyclic(par)
    requires root < |par| && show[root] && limit > 0
    ensures var es := Preorder(Subtree(Masked(par, show), root, limit), 0);
            && (forall i: nat, d: nat :: Entry(i, d) in es <==>
                  i < |par| && show[i] && d < limit && Up(par, i, d) == root)
            && (forall a, b :: 0 <= a < b < |es| ==> es[a].idx != es[b].idx)
  {
    var m := Masked(par, show);
    var es := Preorder(Subtree(m, root, limit), 0);
    forall i: nat, d: nat
      ensures Entry(i, d) in es <==> i < |par| && show[i] && d < limit && Up(par, i, d) == root
    {
      PreorderExact(m, root, limit, 0, Entry(i, d));
      if i < |par| {
        MaskedReach(par, show, root, i, d);
      }
    }
    PreorderDistinct(m, root, limit, 0);
    forall a, b | 0 <= a < b < |es|
      ensures es[a].idx != es[b].idx
    {
      assert Entry(es[a].idx, es[a].depth) in es && Entry(es[b].idx, es[b].depth) in es;
      if es[a].idx == es[b].idx {
        OneDepth(par, root, es[a].idx, es[a].depth, es[b].depth);
      }
    }
  }
}
