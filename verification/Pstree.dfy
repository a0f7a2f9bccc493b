/**
 pstree: building the hierarchy from the process table, choosing what to show and
 dropping the rest, all in place on the array of process records.
 */
module Pstree {
  import opened ProcForest

  datatype Proc = Proc(pid: int, ppid: int, pgid: int, name: string, cmd: string, thcount: nat,
                       shown: bool, parent: int, child: int, sister: int)

  /** The command-line options that select processes. */
  datatype Options = Options(showall: bool, name: string, uOption: bool, ipid: int,
                             sOption: bool, str: string, myPid: int)

  // ----- specification -------------------------------------------------------------------

  /** The last process with the given pid, or -1. */
  function PidIndex(ps: seq<Proc>, pid: int): (r: int)
    ensures -1 <= r < |ps|
    ensures r != -1 ==> ps[r].pid == pid
    ensures forall j :: r < j < |ps| ==> ps[j].pid != pid
  {
    if ps == [] then -1
    else if ps[|ps| - 1].pid == pid then |ps| - 1
    else PidIndex(ps[..|ps| - 1], pid)
  }

  /** The parent of each process: the process its ppid names, unless that is itself. */
  function Parents(ps: seq<Proc>): (par: seq<int>)
    ensures |par| == |ps| && LinksOk(par)
    ensures forall i :: 0 <= i < |ps| ==> par[i] != i
  {
    seq(|ps|, i requires 0 <= i < |ps| =>
      var k := PidIndex(ps, ps[i].ppid); if k == i then -1 else k)
  }

  /** A table as it is read: no links, nothing marked. */
  predicate Fresh(ps: seq<Proc>) {
    forall i :: 0 <= i < |ps| ==>
      !ps[i].shown && ps[i].parent == -1 && ps[i].child == -1 && ps[i].sister == -1
  }

  predicate OnlyLinksDiffer(ps: seq<Proc>, qs: seq<Proc>) {
    |qs| == |ps| &&
    forall i :: 0 <= i < |ps| ==>
      qs[i] == ps[i].(parent := qs[i].parent, child := qs[i].child, sister := qs[i].sister)
  }

  /** The links of `ps` are the child lists of `par`. */
  predicate Linked(ps: seq<Proc>, par: seq<int>) {
    |par| == |ps| && LinksOk(par) &&
    forall i {:trigger ps[i]} :: 0 <= i < |ps| ==>
      ps[i].parent == par[i] && ps[i].child == Next(par, i, 0) && ps[i].sister == SisterOf(par, i)
  }

  /** The process itself is selected by the options. */
  predicate Matches(p: Proc, o: Options) {
    p.name == o.name || (o.uOption && p.name != "root") || p.pid == o.ipid ||
    (o.sOption && Contains(p.cmd, o.str) && p.pid != o.myPid)
  }

  predicate Contains(s: string, t: string) {
    exists k :: 0 <= k <= |s| && t <= s[k..]
  }

  /** `i` is related to a selected process among the first `bound`: an ancestor, a descendant or itself. */
  ghost predicate Related(ps: seq<Proc>, par: seq<int>, o: Options, bound: int, i: int)
    requires |par| == |ps| && LinksOk(par) && 0 <= i < |ps| && bound <= |ps|
  {
    exists m :: 0 <= m < bound && Matches(ps[m], o) && (Anc(par, i, m) || Anc(par, m, i))
  }

  ghost predicate Shown(ps: seq<Proc>, par: seq<int>, o: Options, i: int)
    requires |par| == |ps| && LinksOk(par) && 0 <= i < |ps|
  {
    o.showall || Related(ps, par, o, |ps|, i)
  }

  ghost function ShownSet(ps: seq<Proc>, par: seq<int>, o: Options): (show: seq<bool>)
    requires |par| == |ps| && LinksOk(par)
    ensures |show| == |ps|
  {
    seq(|ps|, i requires 0 <= i < |ps| => Shown(ps, par, o, i))
  }

  /** What is shown is never cut off from its root. */
  lemma ShownClosedUp(ps: seq<Proc>, par: seq<int>, o: Options)
    requires |par| == |ps| && LinksOk(par)
    ensures ClosedUp(par, ShownSet(ps, par, o))
  {
    var show := ShownSet(ps, par, o);
    forall i | 0 <= i < |par| && show[i] && par[i] != -1
      ensures show[par[i]]
    {
      if !o.showall {
        var m :| 0 <= m < |ps| && Matches(ps[m], o) && (Anc(par, i, m) || Anc(par, m, i));
        RelatedUp(par, m, i);
      }
    }
  }

  lemma RelatedUp(par: seq<int>, m: int, i: int)
    requires LinksOk(par) && 0 <= i < |par| && 0 <= m < |par| && par[i] != -1
    requires Anc(par, i, m) || Anc(par, m, i)
    ensures Anc(par, par[i], m) || Anc(par, m, par[i])
  {
    if Anc(par, i, m) {
      var k: nat :| Up(par, m, k) == i;
      UpLast(par, m, k);
    } else {
      var k: nat :| Up(par, i, k) == m;
      assert Up(par, m, 0) == m;
      assert Up(par, par[i], k - 1) == m;
    }
  }

  // ----- child lists as they are walked --------------------------------------------------

  predicate SistersIncrease(ps: seq<Proc>) {
    forall i :: 0 <= i < |ps| ==> ps[i].sister == -1 || i < ps[i].sister < |ps|
  }

  /** The processes met when following sister links from `c`. */
  function Walk(ps: seq<Proc>, c: int): (r: seq<int>)
    requires SistersIncrease(ps) && -1 <= c < |ps|
    decreases if c == -1 then 0 else |ps| + 1 - c
  {
    if c == -1 then [] else [c] + Walk(ps, ps[c].sister)
  }

  lemma {:induction false} WalkIsKids(ps: seq<Proc>, par: seq<int>, p: nat, from: nat)
    requires |par| == |ps| && SistersIncrease(ps) && from <= |par|
    requires forall i {:trigger ps[i]} :: 0 <= i < |ps| && par[i] == p ==> ps[i].sister == SisterOf(par, i)
    ensures Walk(ps, Next(par, p, from)) == Kids(par, p, from)
    decreases |par| - from
  {
    var c := Next(par, p, from);
    if c != -1 {
      SisterIsNext(par, p, from);
      WalkIsKids(ps, par, p, c + 1);
      KidsCons(par, p, from);
      assert Walk(ps, c) == [c] + Walk(ps, ps[c].sister);
    }
  }

  /**
   After MakeTree the list of `p` holds exactly the other processes whose ppid is looked up as
   `p`, in increasing order; the table may have cycles and repeated pids.
   */
  lemma ChildListsExact(ps: seq<Proc>, linked: seq<Proc>, p: nat)
    requires OnlyLinksDiffer(ps, linked) && Linked(linked, Parents(ps)) && p < |ps|
    ensures SistersIncrease(linked)
    ensures var list := Walk(linked, linked[p].child);
            && (forall i :: i in list <==> 0 <= i < |ps| && i != p && PidIndex(ps, ps[i].ppid) == p)
            && forall a, b :: 0 <= a < b < |list| ==> list[a] < list[b]
  {
    WalkIsKids(linked, Parents(ps), p, 0);
    KidsOfParents(ps, p, Walk(linked, linked[p].child));
  }

  lemma KidsOfParents(ps: seq<Proc>, p: nat, kids: seq<int>)
    requires p < |ps| && kids == Kids(Parents(ps), p, 0)
    ensures forall i :: i in kids <==> 0 <= i < |ps| && i != p && PidIndex(ps, ps[i].ppid) == p
    ensures forall a, b :: 0 <= a < b < |kids| ==> kids[a] < kids[b]
  {
    KidsExact(Parents(ps), p, 0);
  }

  /** The links of shown processes are the child lists of the shown part. */
  predicate Pruned(ps: seq<Proc>, par: seq<int>, show: seq<bool>) {
    |par| == |ps| && |show| == |ps| && LinksOk(par) &&
    forall i {:trigger ps[i]} :: 0 <= i < |ps| && show[i] ==>
      ps[i].child == Next(Masked(par, show), i, 0) && ps[i].sister == SisterOf(Masked(par, show), i)
  }

  /** After pruning, a shown process lists the children it had before that are shown, in the same order. */
  lemma PrunedWalk(before: seq<Proc>, after: seq<Proc>, par: seq<int>, show: seq<bool>, p: nat)
    requires Linked(before, par) && |after| == |before| && p < |before|
    requires Pruned(after, par, show) && SistersIncrease(after) && show[p]
    ensures SistersIncrease(before)
    ensures Walk(after, after[p].child) == Filter(Walk(before, before[p].child), show)
  {
    WalkIsKids(before, par, p, 0);
    WalkIsKids(after, Masked(par, show), p, 0);
    MaskedKids(Masked(par, show), par, show, p, 0);
  }

  // ----- the program ---------------------------------------------------------------------

  method GetPidIndex(P: array<Proc>, pid: int) returns (me: int)
    ensures -1 <= me < P.Length
    ensures me != -1 ==> P[me].pid == pid
    ensures forall j :: me < j < P.Length ==> P[j].pid != pid
  {
    me := P.Length - 1;
    while me >= 0 && P[me].pid != pid
      invariant -1 <= me < P.Length
      invariant forall j :: me < j < P.Length ==> P[j].pid != pid
    {
      me := me - 1;
    }
  }

  /** The record of process `i` once the first `me` processes are linked in. */
  function LinkedSoFar(p: Proc, par: seq<int>, me: nat, i: nat): Proc
    requires me <= |par| && i < |par|
  {
    p.(parent := if i < me then par[i] else -1,
       child := Next(par[..me], i, 0),
       sister := if i < me then SisterOf(par[..me], i) else -1)
  }

  /** The step of MakeTree for a process without a parent changes no list. */
  lemma LinkOrphan(par: seq<int>, me: nat, i: nat)
    requires me < |par| && i < |par| && par[me] == -1
    ensures Next(par[..me + 1], i, 0) == Next(par[..me], i, 0)
    ensures i < me ==> SisterOf(par[..me + 1], i) == SisterOf(par[..me], i)
    ensures i == me ==> SisterOf(par[..me + 1], i) == -1
  {
    NextSnoc(par, i, 0, me);
    if i < me {
      NextSnoc(par, par[i], i + 1, me);
    }
  }

  /** The step for a process with parent `p`: it becomes the last in p's list and nothing else moves. */
  lemma LinkChild(par: seq<int>, me: nat, i: nat, last: int)
    requires LinksOk(par) && me < |par| && i < |par| && par[me] != -1
    requires last == -1 || (0 <= last < me && par[last] == par[me])
    requires last == -1 ==> Next(par[..me], par[me], 0) == -1
    requires last != -1 ==> Next(par[..me], par[me], last + 1) == -1
    ensures Next(par[..me + 1], i, 0) == if i == par[me] && last == -1 then me else Next(par[..me], i, 0)
    ensures i < me ==> SisterOf(par[..me + 1], i) == if i == last then me else SisterOf(par[..me], i)
    ensures i == me ==> SisterOf(par[..me + 1], i) == -1
  {
    NextSnoc(par, i, 0, me);
    assert last != -1 ==> par[..me][last] == par[me];
    if i < me {
      NextSnoc(par, par[i], i + 1, me);
      assert par[..me][i] == par[i];
    }
  }

  /** The table `now` is `ps` with its first `me` processes linked in. */
  ghost predicate SoFar(ps: seq<Proc>, now: seq<Proc>, par: seq<int>, me: nat) {
    |now| == |ps| && |par| == |ps| && me <= |ps| &&
    forall i {:trigger now[i]} {:trigger ps[i]} :: 0 <= i < |ps| ==> now[i] == LinkedSoFar(ps[i], par, me, i)
  }

  lemma SamePid(ps: seq<Proc>, now: seq<Proc>, pid: int, k: int)
    requires |now| == |ps| && forall j :: 0 <= j < |ps| ==> now[j].pid == ps[j].pid
    requires -1 <= k < |now| && (k != -1 ==> now[k].pid == pid)
    requires forall j :: k < j < |now| ==> now[j].pid != pid
    ensures k == PidIndex(ps, pid)
  {
    var r := PidIndex(ps, pid);
    assert r != -1 ==> now[r].pid == pid;
    assert k != -1 ==> ps[k].pid == pid;
  }

  lemma SoFarStep(ps: seq<Proc>, now: seq<Proc>, par: seq<int>, me: nat, last: int, next: seq<Proc>)
    requires SoFar(ps, now, par, me) && LinksOk(par) && me < |ps|
    requires par[me] != -1 && par[me] != me
    requires last == -1 || (0 <= last < me && par[last] == par[me])
    requires Next(par[..me], par[me], last + 1) == -1
    requires var linked := now[me := now[me].(parent := par[me])];
             next == if last == -1 then linked[par[me] := linked[par[me]].(child := me)]
                     else linked[last := linked[last].(sister := me)]
    ensures SoFar(ps, next, par, me + 1)
  {
    forall i | 0 <= i < |ps|
      ensures next[i] == LinkedSoFar(ps[i], par, me + 1, i)
    {
      LinkChild(par, me, i, last);
    }
  }

  lemma SoFarSkip(ps: seq<Proc>, now: seq<Proc>, par: seq<int>, me: nat)
    requires SoFar(ps, now, par, me) && me < |ps| && par[me] == -1
    ensures SoFar(ps, now, par, me + 1)
  {
    forall i | 0 <= i < |ps|
      ensures now[i] == LinkedSoFar(ps[i], par, me + 1, i)
    {
      LinkOrphan(par, me, i);
    }
  }

  ghost predicate ListsSoFar(now: seq<Proc>, par: seq<int>, me: nat) {
    |now| == |par| && me <= |par| &&
    forall i {:trigger now[i]} :: 0 <= i < |par| ==>
      now[i].child == Next(par[..me], i, 0) && (i < me ==> now[i].sister == SisterOf(par[..me], i))
  }

  /** The end of a child list: the sister links only go up, so the walk stops. */
  method LastChild(P: array<Proc>, parent: nat, ghost par: seq<int>, ghost me: nat) returns (sister: nat)
    requires ListsSoFar(P[..], par, me) && parent < P.Length && P[parent].child != -1
    ensures sister < me && par[sister] == parent && Next(par[..me], parent, sister + 1) == -1
  {
    assert P[parent] == P[..][parent];
    sister := P[parent].child;
    assert par[..me][sister] == parent;
    while P[sister].sister != -1
      invariant 0 <= sister < me && par[sister] == parent
      invariant P[sister].sister == Next(par[..me], parent, sister + 1)
      decreases me - sister
    {
      sister := P[sister].sister;
      assert par[..me][sister] == parent;
      assert P[sister] == P[..][sister];
    }
  }

  /** The lookup of the parent of `me`, which the links made so far do not disturb. */
  method FindParent(P: array<Proc>, me: nat, ghost ps: seq<Proc>, ghost par: seq<int>) returns (parent: int)
    requires me < P.Length && par == Parents(ps) && SoFar(ps, P[..], par, me)
    ensures -1 <= parent < P.Length && par[me] == if parent == me then -1 else parent
  {
    ghost var now := P[..];
    assert now[me].ppid == ps[me].ppid;
    parent := GetPidIndex(P, P[me].ppid);
    assert forall j :: 0 <= j < |ps| ==> P[j].pid == now[j].pid == ps[j].pid;
    SamePid(ps, now, ps[me].ppid, parent);
  }

  lemma SoFarLists(ps: seq<Proc>, now: seq<Proc>, par: seq<int>, me: nat, parent: int)
    requires SoFar(ps, now, par, me) && me < |ps|
    ensures ListsSoFar(now[me := now[me].(parent := parent)], par, me)
  {
  }

  /** Links process `me` to its parent: as first child, or behind the last one. */
  method LinkOne(P: array<Proc>, me: nat, ghost ps: seq<Proc>, ghost par: seq<int>)
    requires me < P.Length && par == Parents(ps) && SoFar(ps, P[..], par, me)
    modifies P
    ensures SoFar(ps, P[..], par, me + 1)
  {
    ghost var now := P[..];
    var parent := FindParent(P, me, ps, par);
    if parent != me && parent != -1 {
      P[me] := P[me].(parent := parent);
      ghost var linked := now[me := now[me].(parent := parent)];
      SoFarLists(ps, now, par, me, parent);
      assert P[..] == linked;
      if P[parent].child == -1 {
        assert linked[parent].child == Next(par[..me], parent, 0);
        P[parent] := P[parent].(child := me);
        SoFarStep(ps, now, par, me, -1, P[..]);
      } else {
        var sister := LastChild(P, parent, par, me);
        P[sister] := P[sister].(sister := me);
        SoFarStep(ps, now, par, me, sister, P[..]);
      }
    } else {
      SoFarSkip(ps, now, par, me);
    }
  }

  lemma SoFarDone(ps: seq<Proc>, now: seq<Proc>, par: seq<int>)
    requires SoFar(ps, now, par, |ps|) && par == Parents(ps)
    ensures OnlyLinksDiffer(ps, now) && Linked(now, par)
  {
    assert par[..|ps|] == par;
  }

  method MakeTree(P: array<Proc>)
    requires Fresh(P[..])
    modifies P
    ensures OnlyLinksDiffer(old(P[..]), P[..])
    ensures Linked(P[..], Parents(old(P[..])))
  {
    ghost var ps := P[..];
    ghost var par := Parents(ps);
    var me := 0;
    while me < P.Length
      invariant 0 <= me <= P.Length
      invariant SoFar(ps, P[..], par, me)
    {
      LinkOne(P, me, ps, par);
      me := me + 1;
    }
    SoFarDone(ps, P[..], par);
  }

  /** `now` is `ps` with `me` and its descendants marked. */
  ghost predicate MarkedBelow(ps: seq<Proc>, now: seq<Proc>, par: seq<int>, me: nat)
    requires LinksOk(par) && |par| == |ps|
  {
    |now| == |ps| && forall i :: 0 <= i < |ps| ==> now[i] == ps[i].(shown := ps[i].shown || Anc(par, me, i))
  }

  /** `now` is `ps` with `me` and the descendants of its children below `bound` marked. */
  ghost predicate MarkedKids(ps: seq<Proc>, now: seq<Proc>, par: seq<int>, me: nat, bound: nat)
    requires LinksOk(par) && |par| == |ps| && bound <= |ps|
  {
    |now| == |ps| && forall i :: 0 <= i < |ps| ==>
      now[i] == ps[i].(shown := ps[i].shown || i == me || BelowKids(par, me, bound, i))
  }

  lemma MarkedOneMore(ps: seq<Proc>, now: seq<Proc>, next: seq<Proc>, par: seq<int>, me: nat, from: nat)
    requires Linked(ps, par) && from <= |ps| && Next(par, me, from) != -1
    requires MarkedKids(ps, now, par, me, from) && MarkedBelow(now, next, par, Next(par, me, from))
    ensures MarkedKids(ps, next, par, me, Next(par, me, from) + 1)
    ensures Linked(next, par)
  {
    var c := Next(par, me, from);
    forall i | 0 <= i < |ps|
      ensures BelowKids(par, me, c + 1, i) <==> BelowKids(par, me, from, i) || Anc(par, c, i)
    {
    }
  }

  lemma MarkedAll(ps: seq<Proc>, now: seq<Proc>, par: seq<int>, me: nat, from: nat)
    requires Linked(ps, par) && from <= |ps| && me < |ps| && Next(par, me, from) == -1
    requires MarkedKids(ps, now, par, me, from)
    ensures MarkedBelow(ps, now, par, me)
  {
    forall i | 0 <= i < |ps|
      ensures Anc(par, me, i) <==> i == me || BelowKids(par, me, from, i)
    {
      AncByChild(par, me, i);
    }
  }

  /** What the marking loop knows at a child: the invariant of MarkChildren. */
  ghost predicate AtChild(ps: seq<Proc>, now: seq<Proc>, par: seq<int>, me: nat, from: nat, child: int) {
    Linked(ps, par) && Linked(now, par) && from <= |ps| &&
    child == Next(par, me, from) && MarkedKids(ps, now, par, me, from)
  }

  lemma AtFirstChild(ps: seq<Proc>, par: seq<int>, me: nat)
    requires Linked(ps, par) && me < |ps|
    ensures AtChild(ps, ps[me := ps[me].(shown := true)], par, me, 0, ps[me].child)
  {
  }

  lemma AtNextChild(ps: seq<Proc>, now: seq<Proc>, next: seq<Proc>, par: seq<int>, me: nat, from: nat, child: nat)
    requires AtChild(ps, now, par, me, from, child)
    requires MarkedBelow(now, next, par, child)
    ensures child < |next| && AtChild(ps, next, par, me, child + 1, next[child].sister)
  {
    MarkedOneMore(ps, now, next, par, me, from);
    SisterIsNext(par, me, from);
  }

  lemma AtLastChild(ps: seq<Proc>, now: seq<Proc>, par: seq<int>, me: nat, from: nat)
    requires AtChild(ps, now, par, me, from, -1) && me < |ps|
    ensures MarkedBelow(ps, now, par, me)
  {
    MarkedAll(ps, now, par, me, from);
  }

  /** Marks `me` and everything below it. */
  method MarkChildren(P: array<Proc>, me: nat, ghost par: seq<int>, ghost rank: seq<nat>)
    requires Linked(P[..], par) && Ranked(par, rank) && me < P.Length
    modifies P
    ensures MarkedBelow(old(P[..]), P[..], par, me)
    decreases P.Length - rank[me]
  {
    ghost var ps := P[..];
    AtFirstChild(ps, par, me);
    P[me] := P[me].(shown := true);
    var child := P[me].child;
    ghost var from := 0;
    assert P[..] == ps[me := ps[me].(shown := true)];
    while child != -1
      invariant AtChild(ps, P[..], par, me, from, child)
      decreases P.Length - from
    {
      ghost var now := P[..];
      MarkChildren(P, child, par, rank);
      AtNextChild(ps, now, P[..], par, me, from, child);
      from := child + 1;
      child := P[child].sister;
    }
    AtLastChild(ps, P[..], par, me, from);
  }

  /** `i` is a proper ancestor of `me`. */
  ghost predicate Above(par: seq<int>, i: int, me: nat)
    requires LinksOk(par) && me < |par|
  {
    par[me] != -1 && Anc(par, i, par[me])
  }

  /** The part of the ancestry of `me` from `parent` upward is still to be marked. */
  ghost predicate AtParent(ps: seq<Proc>, now: seq<Proc>, par: seq<int>, me: nat, parent: int) {
    Linked(ps, par) && |now| == |ps| && me < |ps| && -1 <= parent < |ps| &&
    forall i :: 0 <= i < |ps| ==> Pending(ps[i], now[i], par, me, parent, i)
  }

  ghost predicate Pending(p: Proc, q: Proc, par: seq<int>, me: nat, parent: int, i: nat)
    requires LinksOk(par) && me < |par| && i < |par| && -1 <= parent < |par|
  {
    q == p.(shown := q.shown) && (p.shown ==> q.shown) &&
    (q.shown || (parent != -1 && Anc(par, i, parent)) <==> p.shown || Above(par, i, me))
  }

  lemma AtNextParent(ps: seq<Proc>, now: seq<Proc>, par: seq<int>, me: nat, parent: nat)
    requires AtParent(ps, now, par, me, parent)
    ensures AtParent(ps, now[parent := now[parent].(shown := true)], par, me, par[parent])
  {
    var next := now[parent := now[parent].(shown := true)];
    forall i | 0 <= i < |ps|
      ensures Pending(ps[i], next[i], par, me, par[parent], i)
    {
      AncByParent(par, i, parent);
      assert Pending(ps[i], now[i], par, me, parent, i);
    }
  }

  lemma PendingLinked(ps: seq<Proc>, now: seq<Proc>, par: seq<int>, me: nat)
    requires AtParent(ps, now, par, me, -1)
    ensures Linked(now, par)
  {
    assert forall i :: 0 <= i < |ps| ==> Pending(ps[i], now[i], par, me, -1, i);
  }

  /** Marks the proper ancestors of `me`. */
  method MarkParents(P: array<Proc>, me: nat, ghost par: seq<int>, ghost rank: seq<nat>)
    requires Linked(P[..], par) && Ranked(par, rank) && me < P.Length
    modifies P
    ensures AtParent(old(P[..]), P[..], par, me, -1)
  {
    ghost var ps := P[..];
    assert ps[me].parent == par[me];
    var parent := P[me].parent;
    while parent != -1
      invariant AtParent(ps, P[..], par, me, parent)
      decreases if parent == -1 then 0 else rank[parent] + 1
    {
      AtNextParent(ps, P[..], par, me, parent);
      assert P[..][parent].parent == par[parent];
      P[parent] := P[parent].(shown := true);
      parent := P[parent].parent;
    }
  }

  /** `now` is `ps` with everything related to a selected process below `bound` marked. */
  ghost predicate MarkedUpTo(ps: seq<Proc>, now: seq<Proc>, par: seq<int>, o: Options, bound: nat) {
    Linked(ps, par) && |now| == |ps| && bound <= |ps| &&
    forall i :: 0 <= i < |ps| ==>
      now[i] == ps[i].(shown := if o.showall then i < bound else Related(ps, par, o, bound, i))
  }

  lemma MarkedUpToLinked(ps: seq<Proc>, now: seq<Proc>, par: seq<int>, o: Options, bound: nat)
    requires MarkedUpTo(ps, now, par, o, bound)
    ensures Linked(now, par)
    ensures bound < |ps| ==> Matches(now[bound], o) == Matches(ps[bound], o)
  {
  }

  lemma RelatedOneMore(ps: seq<Proc>, par: seq<int>, o: Options, me: nat, i: nat)
    requires |par| == |ps| && LinksOk(par) && me < |ps| && i < |ps|
    ensures Related(ps, par, o, me + 1, i) <==>
            Related(ps, par, o, me, i) || (Matches(ps[me], o) && (Above(par, i, me) || Anc(par, me, i)))
  {
    AncByParent(par, i, me);
    assert Up(par, i, 0) == i;
  }

  lemma MarkRelatives(ps: seq<Proc>, now: seq<Proc>, mid: seq<Proc>, next: seq<Proc>, par: seq<int>, o: Options, me: nat)
    requires MarkedUpTo(ps, now, par, o, me) && !o.showall && me < |ps| && Matches(ps[me], o)
    requires AtParent(now, mid, par, me, -1) && MarkedBelow(mid, next, par, me)
    ensures MarkedUpTo(ps, next, par, o, me + 1)
  {
    forall i | 0 <= i < |ps|
      ensures next[i] == ps[i].(shown := Related(ps, par, o, me + 1, i))
    {
      RelatedOneMore(ps, par, o, me, i);
      assert Pending(now[i], mid[i], par, me, -1, i);
    }
  }

  lemma MarkNothing(ps: seq<Proc>, now: seq<Proc>, par: seq<int>, o: Options, me: nat)
    requires MarkedUpTo(ps, now, par, o, me) && !o.showall && me < |ps| && !Matches(ps[me], o)
    ensures MarkedUpTo(ps, now, par, o, me + 1)
  {
    forall i | 0 <= i < |ps|
      ensures Related(ps, par, o, me + 1, i) <==> Related(ps, par, o, me, i)
    {
      RelatedOneMore(ps, par, o, me, i);
    }
  }

  /** One turn of MarkProcs. */
  method MarkOne(P: array<Proc>, me: nat, o: Options, ghost ps: seq<Proc>, ghost par: seq<int>, ghost rank: seq<nat>)
    requires me < P.Length && MarkedUpTo(ps, P[..], par, o, me)
    requires o.showall || Ranked(par, rank)
    modifies P
    ensures MarkedUpTo(ps, P[..], par, o, me + 1)
  {
    ghost var now := P[..];
    MarkedUpToLinked(ps, now, par, o, me);
    assert P[me] == now[me];
    if o.showall {
      P[me] := P[me].(shown := true);
      assert P[..] == now[me := now[me].(shown := true)];
    } else if Matches(P[me], o) {
      MarkParents(P, me, par, rank);
      ghost var mid := P[..];
      PendingLinked(now, mid, par, me);
      MarkChildren(P, me, par, rank);
      MarkRelatives(ps, now, mid, P[..], par, o, me);
    } else {
      MarkNothing(ps, now, par, o, me);
    }
  }

  method MarkProcs(P: array<Proc>, o: Options, ghost par: seq<int>)
    requires Linked(P[..], par) && (o.showall || Acyclic(par))
    requires forall i :: 0 <= i < P.Length ==> !P[i].shown
    modifies P
    ensures MarkedUpTo(old(P[..]), P[..], par, o, P.Length)
  {
    ghost var ps := P[..];
    ghost var rank: seq<nat> := [];
    if !o.showall {
      rank := AcyclicRanked(par);
    }
    var me := 0;
    assert forall i :: 0 <= i < |ps| ==> ps[i] == P[i];
    while me < P.Length
      invariant 0 <= me <= P.Length
      invariant MarkedUpTo(ps, P[..], par, o, me)
    {
      MarkOne(P, me, o, ps, par, rank);
      me := me + 1;
    }
  }

  /** Marking everything that is to be shown gives exactly the shown set. */
  lemma MarkedIsShown(ps: seq<Proc>, now: seq<Proc>, par: seq<int>, o: Options)
    requires MarkedUpTo(ps, now, par, o, |ps|)
    ensures forall i :: 0 <= i < |ps| ==> now[i] == ps[i].(shown := ShownSet(ps, par, o)[i])
  {
  }

  function ShownFlags(ps: seq<Proc>): (show: seq<bool>)
    ensures |show| == |ps|
  {
    seq(|ps|, i requires 0 <= i < |ps| => ps[i].shown)
  }

  /** The record of a shown process once hidden children and sisters are dropped. */
  function DropLinks(p: Proc, m: seq<int>, i: nat): Proc
    requires i < |m|
  {
    p.(child := Next(m, i, 0), sister := SisterOf(m, i))
  }

  /** `now` is `ps` with the links of its first `bound` shown processes rewritten. */
  ghost predicate Dropped(ps: seq<Proc>, now: seq<Proc>, par: seq<int>, bound: nat) {
    Linked(ps, par) && |now| == |ps| && bound <= |ps| &&
    var m := Masked(par, ShownFlags(ps));
    forall i {:trigger now[i]} {:trigger ps[i]} :: 0 <= i < |ps| ==> now[i] == if ps[i].shown && i < bound then DropLinks(ps[i], m, i) else ps[i]
  }

  /** A walk along the full list of `p` that has skipped only hidden processes since `from`. */
  ghost predicate Skipping(par: seq<int>, show: seq<bool>, p: nat, from: nat, at: nat, c: int) {
    |par| == |show| && from <= at <= |par| && c == Next(par, p, at) &&
    Next(Masked(par, show), p, from) == Next(Masked(par, show), p, at)
  }

  lemma SkipStep(par: seq<int>, show: seq<bool>, p: nat, from: nat, at: nat, c: nat)
    requires Skipping(par, show, p, from, at, c) && !show[c]
    ensures Skipping(par, show, p, from, c + 1, SisterOf(par, c))
  {
    SisterIsNext(par, p, at);
    MaskedNext(Masked(par, show), par, show, p, at);
  }

  lemma SkipDone(par: seq<int>, show: seq<bool>, p: nat, from: nat, at: nat, c: int)
    requires Skipping(par, show, p, from, at, c) && (c == -1 || show[c])
    ensures c == Next(Masked(par, show), p, from)
  {
    MaskedNext(Masked(par, show), par, show, p, at);
  }

  /** Hidden processes still carry the sister links MakeTree gave them. */
  ghost predicate HiddenIntact(ps: seq<Proc>, now: seq<Proc>, par: seq<int>) {
    |par| == |ps| == |now| &&
    forall i {:trigger now[i]} {:trigger ps[i]} :: 0 <= i < |ps| ==>
      now[i].shown == ps[i].shown && (!ps[i].shown ==> now[i].sister == SisterOf(par, i))
  }

  /** Skips the hidden processes of a child list. */
  method SkipHidden(P: array<Proc>, start: int, ghost ps: seq<Proc>, ghost par: seq<int>, ghost p: nat, ghost from: nat)
    returns (c: int)
    requires HiddenIntact(ps, P[..], par) && from <= P.Length && start == Next(par, p, from)
    ensures c == Next(Masked(par, ShownFlags(ps)), p, from)
  {
    ghost var show, now, at := ShownFlags(ps), P[..], from;
    c := start;
    while c != -1 && !P[c].shown
      invariant Skipping(par, show, p, from, at, c)
      decreases P.Length - at
    {
      assert P[c] == now[c];
      SkipStep(par, show, p, from, at, c);
      at := c + 1;
      c := P[c].sister;
    }
    assert c != -1 ==> P[c] == now[c];
    SkipDone(par, show, p, from, at, c);
  }

  lemma DropStep(ps: seq<Proc>, now: seq<Proc>, par: seq<int>, me: nat)
    requires Dropped(ps, now, par, me) && me < |ps| && ps[me].shown
    ensures var m := Masked(par, ShownFlags(ps));
            Dropped(ps, now[me := now[me].(child := Next(m, me, 0), sister := SisterOf(m, me))], par, me + 1)
  {
  }

  /** The list `me` is in, before and after hiding; a list nobody is in when `me` has no parent. */
  lemma ListOf(par: seq<int>, show: seq<bool>, me: nat) returns (p: nat)
    requires |par| == |show| && me < |par| && show[me] && LinksOk(par)
    ensures SisterOf(par, me) == Next(par, p, me + 1)
    ensures SisterOf(Masked(par, show), me) == Next(Masked(par, show), p, me + 1)
  {
    p := if par[me] == -1 then |par| else par[me];
    if par[me] == -1 {
      var c := Next(par, p, me + 1);
      MaskedNext(Masked(par, show), par, show, p, me + 1);
    }
  }

  lemma DroppedAt(ps: seq<Proc>, now: seq<Proc>, par: seq<int>, me: nat)
    requires Dropped(ps, now, par, me) && me < |ps|
    ensures now[me] == ps[me] && now[me].child == Next(par, me, 0) && now[me].sister == SisterOf(par, me)
    ensures HiddenIntact(ps, now, par)
  {
  }

  lemma ChildKeepsIntact(ps: seq<Proc>, now: seq<Proc>, par: seq<int>, me: nat, child: int)
    requires HiddenIntact(ps, now, par) && me < |ps|
    ensures HiddenIntact(ps, now[me := now[me].(child := child)], par)
  {
  }

  lemma DropSkip(ps: seq<Proc>, now: seq<Proc>, par: seq<int>, me: nat)
    requires Dropped(ps, now, par, me) && me < |ps| && !ps[me].shown
    ensures Dropped(ps, now, par, me + 1)
  {
  }

  /** The first loop of a turn of DropProcs. */
  method DropChild(P: array<Proc>, me: nat, ghost ps: seq<Proc>, ghost par: seq<int>)
    requires me < P.Length && HiddenIntact(ps, P[..], par) && P[me].child == Next(par, me, 0)
    modifies P
    ensures P[..] == old(P[..])[me := old(P[me]).(child := Next(Masked(par, ShownFlags(ps)), me, 0))]
  {
    var child := SkipHidden(P, P[me].child, ps, par, me, 0);
    P[me] := P[me].(child := child);
  }

  /** The second loop. */
  method DropSister(P: array<Proc>, me: nat, ghost ps: seq<Proc>, ghost par: seq<int>)
    requires me < P.Length && HiddenIntact(ps, P[..], par) && LinksOk(par) && ps[me].shown && P[me].sister == SisterOf(par, me)
    modifies P
    ensures P[..] == old(P[..])[me := old(P[me]).(sister := SisterOf(Masked(par, ShownFlags(ps)), me))]
  {
    ghost var p := ListOf(par, ShownFlags(ps), me);
    var sister := SkipHidden(P, P[me].sister, ps, par, p, me + 1);
    P[me] := P[me].(sister := sister);
  }

  /** One turn of DropProcs. */
  method DropOne(P: array<Proc>, me: nat, ghost ps: seq<Proc>, ghost par: seq<int>)
    requires me < P.Length && Dropped(ps, P[..], par, me)
    modifies P
    ensures Dropped(ps, P[..], par, me + 1)
  {
    ghost var now := P[..];
    DroppedAt(ps, now, par, me);
    if P[me].shown {
      ghost var child, sister := Next(Masked(par, ShownFlags(ps)), me, 0), SisterOf(Masked(par, ShownFlags(ps)), me);
      ChildKeepsIntact(ps, now, par, me, child);
      DropStep(ps, now, par, me);
      DropChild(P, me, ps, par);
      DropSister(P, me, ps, par);
      assert P[..] == now[me := now[me].(child := child, sister := sister)];
    } else {
      DropSkip(ps, now, par, me);
    }
  }

  method DropProcs(P: array<Proc>, ghost par: seq<int>)
    requires Linked(P[..], par)
    modifies P
    ensures Dropped(old(P[..]), P[..], par, P.Length)
  {
    ghost var ps := P[..];
    var me := 0;
    while me < P.Length
      invariant 0 <= me <= P.Length && Dropped(ps, P[..], par, me)
    {
      DropOne(P, me, ps, par);
      me := me + 1;
    }
  }

  /** Dropping leaves exactly the links of the shown part. */
  lemma DroppedIsPruned(ps: seq<Proc>, now: seq<Proc>, par: seq<int>)
    requires Dropped(ps, now, par, |ps|)
    ensures Pruned(now, par, ShownFlags(ps)) && SistersIncrease(now)
  {
  }
}
