/**
 pstree: what each printed line says about the process it was printed for, its ancestors and sisters.
 */
module PstreeLines {
  import opened ProcForest
  import opened SeqFacts
  import opened Pstree
  import opened PstreeText
  import opened PstreePrint

  // ----- the line of one process ---------------------------------------------------------

  /** A visible sister follows. */
  predicate More(m: seq<int>, i: int) {
    0 <= i < |m| && SisterOf(m, i) != -1
  }

  /** The head of the line of `i` at depth d. */
  function HeadFor(m: seq<int>, i: nat, d: nat): string
    requires LinksOk(m) && i < |m|
    decreases d
  {
    if d == 0 || m[i] == -1 then "" else NextHead(HeadFor(m, m[i], d - 1), More(m, m[i]))
  }

  function LineOf(bs: seq<string>, m: seq<int>, e: Entry): string
    requires LinksOk(m) && |bs| == |m|
  {
    if e.idx < |m| then Line(HeadFor(m, e.idx, e.depth), More(m, e.idx), bs[e.idx]) else ""
  }

  function LinesOf(bs: seq<string>, m: seq<int>, es: seq<Entry>): (r: seq<string>)
    requires LinksOk(m) && |bs| == |m|
    ensures |r| == |es|
    ensures forall k {:trigger r[k]} :: 0 <= k < |es| ==> r[k] == LineOf(bs, m, es[k])
  {
    seq(|es|, k requires 0 <= k < |es| => LineOf(bs, m, es[k]))
  }

  lemma LinesOfConcat(bs: seq<string>, m: seq<int>, a: seq<Entry>, b: seq<Entry>)
    requires LinksOk(m) && |bs| == |m|
    ensures LinesOf(bs, m, a + b) == LinesOf(bs, m, a) + LinesOf(bs, m, b)
  {
  }

  /** Process `i` is at depth d: the head and the sign of its line are its own. */
  predicate Placed(m: seq<int>, i: nat, d: nat, head: string, more: bool) {
    LinksOk(m) && i < |m| && head == HeadFor(m, i, d) && (d > 0 ==> more == More(m, i)) && (d == 0 ==> head == "")
  }

  lemma RootLine(bs: seq<string>, m: seq<int>, i: nat, d: nat, head: string, more: bool)
    requires |bs| == |m| && Placed(m, i, d, head, more)
    ensures LinesOf(bs, m, [Entry(i, d)]) == [Line(head, more, bs[i])]
    ensures NextHead(head, more) == NextHead(HeadFor(m, i, d), More(m, i))
  {
  }

  /** The children of a process at depth d are at depth d + 1. */
  lemma KidPlaced(m: seq<int>, i: nat, d: nat, from: nat, head: string)
    requires LinksOk(m) && i < |m| && from <= |m| && Next(m, i, from) != -1
    requires head == NextHead(HeadFor(m, i, d), More(m, i))
    ensures var c := Next(m, i, from); Placed(m, c, d + 1, head, Next(m, i, c + 1) != -1)
  {
    SisterIsNext(m, i, from);
  }

  /** What the recursion prints is the line of each process of the preorder, by itself. */
  lemma {:induction false} TreeIsLines(bs: seq<string>, m: seq<int>, i: nat, limit: nat, d: nat, head: string, more: bool)
    requires |bs| == |m| && limit > 0 && Placed(m, i, d, head, more)
    ensures TreeText(bs, m, i, limit, head, more) == LinesOf(bs, m, Preorder(Subtree(m, i, limit), d))
    decreases limit, 0, 0
  {
    RootLine(bs, m, i, d, head, more);
    BelowIsLines(bs, m, i, 0, limit - 1, d, NextHead(head, more));
    LinesOfConcat(bs, m, [Entry(i, d)], PreorderAll(Forest(m, i, 0, limit - 1), d + 1));
  }

  lemma {:induction false} BelowIsLines(bs: seq<string>, m: seq<int>, i: nat, from: nat, limit: nat, d: nat, head: string)
    requires |bs| == |m| && LinksOk(m) && i < |m| && from <= |m| && head == NextHead(HeadFor(m, i, d), More(m, i))
    ensures BelowText(bs, m, i, from, limit, head) == LinesOf(bs, m, PreorderAll(Forest(m, i, from, limit), d + 1))
    decreases limit, 1, |m| - from
  {
    var c := Next(m, i, from);
    if c != -1 && limit != 0 {
      KidPlaced(m, i, d, from, head);
      TreeIsLines(bs, m, c, limit, d + 1, head, Next(m, i, c + 1) != -1);
      BelowIsLines(bs, m, i, c + 1, limit, d, head);
      BelowStep(bs, m, d, Subtree(m, c, limit), Forest(m, i, c + 1, limit));
    }
  }

  lemma BelowStep(bs: seq<string>, m: seq<int>, d: nat, t: Tree<nat>, rest: seq<Tree<nat>>)
    requires |bs| == |m| && LinksOk(m)
    ensures LinesOf(bs, m, PreorderAll([t] + rest, d + 1)) ==
            LinesOf(bs, m, Preorder(t, d + 1)) + LinesOf(bs, m, PreorderAll(rest, d + 1))
  {
    assert ([t] + rest)[1..] == rest;
    LinesOfConcat(bs, m, Preorder(t, d + 1), PreorderAll(rest, d + 1));
  }

  // ----- the columns of a line -----------------------------------------------------------

  /** The sign in front of a line or a column: a sister follows or not. */
  function Sign(more: bool, last: char): char {
    if more then '|' else last
  }

  /** The columns of the head: blanks, and in front of each of them but the first the sign of the
      ancestor at that depth. */
  ghost predicate Columns(head: string, m: seq<int>, i: nat, d: nat)
    requires LinksOk(m) && i < |m|
  {
    |head| == (if d == 0 then 0 else 2 * d - 1) &&
    (forall a :: 0 <= a < d ==> head[2 * a] == ' ') &&
    forall a :: 1 <= a < d ==> head[2 * a - 1] == Sign(More(m, Up(m, i, d - a)), ' ')
  }

  lemma NextColumns(head: string, m: seq<int>, i: nat, d: nat)
    requires LinksOk(m) && i < |m| && m[i] != -1 && d > 0 && Columns(head, m, m[i], d - 1)
    ensures Columns(NextHead(head, More(m, m[i])), m, i, d)
  {
    var h := NextHead(head, More(m, m[i]));
    forall a | 1 <= a < d
      ensures h[2 * a - 1] == Sign(More(m, Up(m, i, d - a)), ' ')
    {
      assert Up(m, i, d - a) == Up(m, m[i], d - 1 - a);
    }
  }

  lemma {:induction false} HeadColumns(m: seq<int>, i: nat, d: nat)
    requires LinksOk(m) && i < |m| && Up(m, i, d) != -1
    ensures Columns(HeadFor(m, i, d), m, i, d)
    decreases d
  {
    if d > 0 {
      HeadColumns(m, m[i], d - 1);
      NextColumns(HeadFor(m, m[i], d - 1), m, i, d);
    }
  }

  /** The columns of a whole line: those of the head, then the sign of the process itself, then the body. */
  ghost predicate LineColumns(line: string, m: seq<int>, i: nat, d: nat, body: string)
    requires LinksOk(m) && i < |m|
  {
    |line| >= 2 * d && line[2 * d..] == body &&
    (forall a :: 0 <= a < d ==> line[2 * a] == ' ') &&
    (forall a :: 1 <= a < d ==> line[2 * a - 1] == Sign(More(m, Up(m, i, d - a)), ' ')) &&
    (d > 0 ==> line[2 * d - 1] == Sign(More(m, i), '\\'))
  }

  lemma LineHasColumns(bs: seq<string>, m: seq<int>, e: Entry)
    requires LinksOk(m) && |bs| == |m| && e.idx < |m| && Up(m, e.idx, e.depth) != -1
    ensures LineColumns(LineOf(bs, m, e), m, e.idx, e.depth, bs[e.idx])
  {
    HeadColumns(m, e.idx, e.depth);
  }

  // ----- the body ------------------------------------------------------------------------

  /** The body says of a process what the table has, and whether a visible child follows. */
  ghost predicate BodyFits(body: string, p: Proc, children: bool) {
    BodyTells(body, children, p.pid == p.pgid, p.pid, p.name, p.thcount, p.cmd)
  }

  lemma BodyOfTells(branch: bool, leader: bool, pid: int, name: string, threads: nat, mark: string, cmd: string)
    requires ThreadMark(mark, threads)
    ensures BodyTells(Body(branch, leader, pid, name + " " + mark + cmd), branch, leader, pid, name, threads, cmd)
  {
    var b := Body(branch, leader, pid, name + " " + mark + cmd);
    PidIsFiveWide(pid);
    ConcatAssoc(name + " ", mark, cmd);
    assert b[4..] == PidText(pid) + " " + (name + " " + (mark + cmd));
    assert TailTells(b[4..], PidText(pid), mark, pid, name, threads, cmd);
  }

  lemma ProcBodyTells(p: Proc, branch: bool)
    ensures BodyFits(ProcBody(p, branch), p, branch)
  {
    if p.thcount > 1 {
      MarkOf(p.thcount);
      BodyOfTells(branch, p.pid == p.pgid, p.pid, p.name, p.thcount, "[" + Digits(p.thcount, 1) + "]", p.cmd);
    } else {
      BodyOfTells(branch, p.pid == p.pgid, p.pid, p.name, p.thcount, "", p.cmd);
    }
  }
}
