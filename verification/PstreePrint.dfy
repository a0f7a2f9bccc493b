/**
 pstree: printing the pruned hierarchy.
 */
module PstreePrint {
  import opened ProcForest
  import opened SeqFacts
  import opened Pstree
  import opened PstreeText

  // ----- what is printed -----------------------------------------------------------------

  /** The body of the line of process `p`. */
  function ProcBody(p: Proc, branch: bool): (s: string)
    ensures s != "" && s[0] == '-'
  {
    var thread := if p.thcount > 1 then "[" + Digits(p.thcount, 1) + "]" else "";
    Body(branch, p.pid == p.pgid, p.pid, p.name + " " + thread + p.cmd)
  }

  /** The forest of indices stays inside the table. */
  predicate Inside(ts: seq<Tree<nat>>, n: nat) {
    ts == [] || (ts[0].data < n && Inside(ts[0].kids, n) && Inside(ts[1..], n))
  }

  /** The body of each process, where `m` are the parent links of the shown processes. */
  function Bodies(ps: seq<Proc>, m: seq<int>): (bs: seq<string>)
    requires |m| == |ps|
    ensures |bs| == |ps|
    ensures forall i :: 0 <= i < |bs| ==> bs[i] != "" && bs[i][0] == '-'
  {
    seq(|ps|, i requires 0 <= i < |ps| => ProcBody(ps[i], Next(m, i, 0) != -1))
  }

  /** The forest of bodies printed for a forest of processes. */
  function Label(bs: seq<string>, ts: seq<Tree<nat>>): (r: seq<Tree<string>>)
    requires Inside(ts, |bs|)
    ensures |r| == |ts|
  {
    if ts == [] then [] else [Node(bs[ts[0].data], Label(bs, ts[0].kids))] + Label(bs, ts[1..])
  }

  lemma {:induction false} ForestInside(m: seq<int>, i: nat, from: nat, limit: nat)
    requires from <= |m|
    ensures Inside(Forest(m, i, from, limit), |m|)
    decreases limit, |m| - from
  {
    var c := Next(m, i, from);
    if c != -1 && limit != 0 {
      var ts := Forest(m, i, from, limit);
      ForestInside(m, c, 0, limit - 1);
      ForestInside(m, i, c + 1, limit);
      assert ts[1..] == Forest(m, i, c + 1, limit);
    }
  }

  /** The lines for process `i` and everything visible below it. */
  function TreeText(bs: seq<string>, m: seq<int>, i: nat, limit: nat, head: string, more: bool): seq<string>
    requires |m| == |bs| && i < |m| && limit > 0
    decreases limit, 0, 0
  {
    [Line(head, more, bs[i])] + BelowText(bs, m, i, 0, limit - 1, NextHead(head, more))
  }

  /** The lines below process `i`, from child `from` on. */
  function BelowText(bs: seq<string>, m: seq<int>, i: nat, from: nat, limit: nat, head: string): seq<string>
    requires |m| == |bs| && from <= |m|
    decreases limit, 1, |m| - from
  {
    var c := Next(m, i, from);
    if c == -1 || limit == 0 then []
    else TreeText(bs, m, c, limit, head, Next(m, i, c + 1) != -1) + BelowText(bs, m, i, c + 1, limit, head)
  }

  lemma LabelCons(bs: seq<string>, t: Tree<nat>, rest: seq<Tree<nat>>)
    requires t.data < |bs| && Inside(t.kids, |bs|) && Inside(rest, |bs|)
    ensures Inside([t] + rest, |bs|)
    ensures Label(bs, [t] + rest) ==
            [Node(bs[t.data], Label(bs, t.kids))] + Label(bs, rest)
  {
    assert ([t] + rest)[1..] == rest;
  }

  lemma ForestLinesStep(t: Tree<string>, rest: seq<Tree<string>>, head: string)
    ensures ForestLines([t] + rest, head) == Lines(t, head, rest != []) + ForestLines(rest, head)
  {
    assert ([t] + rest)[1..] == rest;
  }

  lemma ForestTextStep(bs: seq<string>, t: Tree<nat>, rest: seq<Tree<nat>>, head: string, first: seq<string>, tail: seq<string>)
    requires t.data < |bs| && Inside(t.kids, |bs|) && Inside(rest, |bs|)
    requires first == Lines(Node(bs[t.data], Label(bs, t.kids)), head, rest != [])
    requires tail == ForestLines(Label(bs, rest), head)
    ensures Inside([t] + rest, |bs|) && first + tail == ForestLines(Label(bs, [t] + rest), head)
  {
    LabelCons(bs, t, rest);
    ForestLinesStep(Node(bs[t.data], Label(bs, t.kids)), Label(bs, rest), head);
  }

  /** The text of a process is the text of the tree below it. */
  lemma {:induction false} TreeTextIsLines(bs: seq<string>, m: seq<int>, i: nat, limit: nat, head: string, more: bool)
    requires |m| == |bs| && i < |m| && limit > 0
    ensures var kids := Subtree(m, i, limit).kids;
            Inside(kids, |m|) && TreeText(bs, m, i, limit, head, more) == Lines(Node(bs[i], Label(bs, kids)), head, more)
    decreases limit, 0, 0
  {
    BelowTextIsForest(bs, m, i, 0, limit - 1, NextHead(head, more));
  }

  /** The text below a process is the text of the forest below it. */
  lemma {:induction false} BelowTextIsForest(bs: seq<string>, m: seq<int>, i: nat, from: nat, limit: nat, head: string)
    requires |m| == |bs| && from <= |m|
    ensures Inside(Forest(m, i, from, limit), |m|)
    ensures BelowText(bs, m, i, from, limit, head) == ForestLines(Label(bs, Forest(m, i, from, limit)), head)
    decreases limit, 1, |m| - from
  {
    var c := Next(m, i, from);
    if c != -1 && limit != 0 {
      var more, rest := Next(m, i, c + 1) != -1, Forest(m, i, c + 1, limit);
      TreeTextIsLines(bs, m, c, limit, head, more);
      BelowTextIsForest(bs, m, i, c + 1, limit, head);
      assert more == (rest != []);
      ForestTextStep(bs, Subtree(m, c, limit), rest, head,
                     TreeText(bs, m, c, limit, head, more), BelowText(bs, m, i, c + 1, limit, head));
    }
  }

  // ----- the program ---------------------------------------------------------------------

  /** The links of the shown processes are the child lists of `m`, and only shown processes are listed. */
  predicate Drawn(ps: seq<Proc>, m: seq<int>) {
    |m| == |ps| && LinksOk(m) &&
    forall i {:trigger ps[i]} :: 0 <= i < |ps| ==>
      && (m[i] != -1 ==> ps[i].shown)
      && (ps[i].shown ==> ps[i].child == Next(m, i, 0) && ps[i].sister == SisterOf(m, i))
  }

  lemma PrunedIsDrawn(ps: seq<Proc>, par: seq<int>)
    requires Pruned(ps, par, ShownFlags(ps))
    ensures Drawn(ps, Masked(par, ShownFlags(ps)))
  {
  }

  lemma DrawnChild(ps: seq<Proc>, m: seq<int>, idx: nat, from: nat)
    requires Drawn(ps, m) && from <= |ps|
    ensures var c := Next(m, idx, from);
            c != -1 ==> ps[c].shown && ps[c].sister == Next(m, idx, c + 1)
  {
    if Next(m, idx, from) != -1 {
      SisterIsNext(m, idx, from);
    }
  }

  /** The printing loop is at `child`, and what is still to come completes `out` to `all`. */
  ghost predicate AtKid(bs: seq<string>, m: seq<int>, idx: nat, from: nat, child: int, rem: nat, head: string,
                        out: seq<string>, all: seq<string>) {
    |bs| == |m| && from <= |m| && child == Next(m, idx, from) &&
    out + BelowText(bs, m, idx, from, rem, head) == all
  }

  lemma AtFirstKid(bs: seq<string>, ps: seq<Proc>, m: seq<int>, idx: nat, rem: nat, head: string, out: seq<string>)
    requires Drawn(ps, m) && |bs| == |m| && idx < |ps| && ps[idx].shown
    ensures AtKid(bs, m, idx, 0, ps[idx].child, rem, head, out, out + BelowText(bs, m, idx, 0, rem, head))
  {
  }

  lemma AtNextKid(bs: seq<string>, ps: seq<Proc>, m: seq<int>, idx: nat, from: nat, c: nat, rem: nat, head: string,
                  out: seq<string>, all: seq<string>)
    requires Drawn(ps, m) && AtKid(bs, m, idx, from, c, rem, head, out, all)
    ensures c < |ps| && ps[c].shown
    ensures var printed := if rem == 0 then [] else TreeText(bs, m, c, rem, head, ps[c].sister != -1);
            AtKid(bs, m, idx, c + 1, ps[c].sister, rem, head, out + printed, all)
  {
    DrawnChild(ps, m, idx, from);
    var rest := BelowText(bs, m, idx, c + 1, rem, head);
    if rem == 0 {
      ConcatNil(out);
    } else {
      ConcatAssoc(out, TreeText(bs, m, c, rem, head, ps[c].sister != -1), rest);
    }
  }

  lemma AtLastKid(bs: seq<string>, m: seq<int>, idx: nat, from: nat, rem: nat, head: string,
                  out: seq<string>, all: seq<string>)
    requires AtKid(bs, m, idx, from, -1, rem, head, out, all)
    ensures out == all
  {
    ConcatNil(out);
  }

  /** `bs[i]` is the body that is printed for process `i`. */
  predicate BodyIs(ps: seq<Proc>, bs: seq<string>, i: nat) {
    i < |ps| && i < |bs| && bs[i] == ProcBody(ps[i], ps[i].child != -1)
  }

  ghost predicate Worded(ps: seq<Proc>, bs: seq<string>) {
    |bs| == |ps| && forall i {:trigger BodyIs(ps, bs, i)} :: 0 <= i < |ps| && ps[i].shown ==> BodyIs(ps, bs, i)
  }

  lemma BodiesWorded(ps: seq<Proc>, m: seq<int>)
    requires Drawn(ps, m)
    ensures Worded(ps, Bodies(ps, m))
  {
  }

  /** The printer: how deep it is, how deep it may go, and the lines it has put out. */
  class Printer {
    var atLdepth: nat
    const maxLdepth: nat
    var out: seq<string>

    constructor (maxLdepth: nat)
      ensures this.maxLdepth == maxLdepth && atLdepth == 0 && out == []
    {
      this.maxLdepth := maxLdepth;
      atLdepth := 0;
      out := [];
    }

    method PrintTree(P: array<Proc>, idx: nat, head: string, ghost m: seq<int>, ghost bs: seq<string>)
      requires Drawn(P[..], m) && Worded(P[..], bs) && idx < P.Length && atLdepth <= maxLdepth
      requires head != "" ==> P[idx].shown
      modifies this
      ensures atLdepth == old(atLdepth)
      ensures out == old(out) +
        if !P[idx].shown || atLdepth == maxLdepth then []
        else TreeText(bs, m, idx, maxLdepth - atLdepth, head, P[idx].sister != -1)
      decreases maxLdepth - atLdepth, 0
    {
      if head == "" && !P[idx].shown {
        return;
      }
      if atLdepth == maxLdepth {
        return;
      }
      atLdepth := atLdepth + 1;
      assert P[..][idx] == P[idx];
      ghost var line := Line(head, P[idx].sister != -1, bs[idx]);
      var nhead := PutLine(P, idx, head, bs);
      ghost var below := BelowText(bs, m, idx, 0, maxLdepth - atLdepth, nhead);
      PrintChildren(P, idx, nhead, m, bs);
      ConcatAssoc(old(out), [line], below);
      atLdepth := atLdepth - 1;
    }

    /** The line of one process; returns the head for the lines of its children. */
    method PutLine(P: array<Proc>, idx: nat, head: string, ghost bs: seq<string>) returns (nhead: string)
      requires Worded(P[..], bs) && idx < P.Length && P[idx].shown
      modifies this`out
      ensures out == old(out) + [Line(head, P[idx].sister != -1, bs[idx])]
      ensures nhead == NextHead(head, P[idx].sister != -1) && nhead != ""
    {
      assert P[..][idx] == P[idx] && BodyIs(P[..], bs, idx);
      out := out + [Line(head, P[idx].sister != -1, ProcBody(P[idx], P[idx].child != -1))];
      nhead := NextHead(head, P[idx].sister != -1);
    }

    /** One turn of the loop of PrintTree. */
    method PrintKid(P: array<Proc>, ghost idx: nat, child: nat, nhead: string, ghost m: seq<int>, ghost bs: seq<string>,
                    ghost from: nat, ghost all: seq<string>)
      requires Drawn(P[..], m) && Worded(P[..], bs) && atLdepth <= maxLdepth && nhead != ""
      requires AtKid(bs, m, idx, from, child, maxLdepth - atLdepth, nhead, out, all)
      modifies this
      ensures atLdepth == old(atLdepth) && child < P.Length
      ensures AtKid(bs, m, idx, child + 1, P[child].sister, maxLdepth - atLdepth, nhead, out, all)
      decreases maxLdepth - atLdepth, 1
    {
      AtNextKid(bs, P[..], m, idx, from, child, maxLdepth - atLdepth, nhead, out, all);
      assert P[..][child] == P[child];
      PrintTree(P, child, nhead, m, bs);
    }

    /** The loop of PrintTree over the children. */
    method PrintChildren(P: array<Proc>, idx: nat, nhead: string, ghost m: seq<int>, ghost bs: seq<string>)
      requires Drawn(P[..], m) && Worded(P[..], bs) && idx < P.Length && atLdepth <= maxLdepth
      requires P[idx].shown && nhead != ""
      modifies this
      ensures atLdepth == old(atLdepth)
      ensures out == old(out) + BelowText(bs, m, idx, 0, maxLdepth - atLdepth, nhead)
      decreases maxLdepth - atLdepth, 2
    {
      ghost var ps, rem, from := P[..], maxLdepth - atLdepth, 0;
      ghost var all := out + BelowText(bs, m, idx, 0, rem, nhead);
      AtFirstKid(bs, ps, m, idx, rem, nhead, out);
      var child := P[idx].child;
      while child != -1
        invariant atLdepth == old(atLdepth)
        invariant AtKid(bs, m, idx, from, child, rem, nhead, out, all)
        decreases P.Length - from
      {
        PrintKid(P, idx, child, nhead, m, bs, from, all);
        from := child + 1;
        child := P[child].sister;
      }
      AtLastKid(bs, m, idx, from, rem, nhead, out, all);
    }
  }
}
