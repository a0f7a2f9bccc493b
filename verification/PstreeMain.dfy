/**
 pstree from the table as it was read to the printed text, and what that text is.
 */
module PstreeMain {
  import opened ProcForest
  import opened SeqFacts
  import opened Pstree
  import opened PstreeText
  import opened PstreePrint
  import opened PstreeLines

  /** The parent links of the shown processes. */
  ghost function Visible(ps: seq<Proc>, o: Options): (m: seq<int>)
    ensures |m| == |ps| && LinksOk(m)
  {
    Masked(Parents(ps), ShownSet(ps, Parents(ps), o))
  }

  ghost function VisibleBodies(ps: seq<Proc>, o: Options): (bs: seq<string>)
    ensures |bs| == |ps|
    ensures forall i :: 0 <= i < |bs| ==> bs[i] != "" && bs[i][0] == '-'
  {
    Bodies(ps, Visible(ps, o))
  }

  /** The tree of bodies below process `i`. */
  function BodyTree(bs: seq<string>, m: seq<int>, i: nat, limit: nat): (t: Tree<string>)
    requires i < |bs| == |m| && limit > 0
  {
    ForestInside(m, i, 0, limit - 1);
    Node(bs[i], Label(bs, Forest(m, i, 0, limit - 1)))
  }

  /** The tree of bodies shown for process `i`. */
  ghost function VisibleTree(ps: seq<Proc>, o: Options, i: nat, limit: nat): (t: Tree<string>)
    requires i < |ps| && limit > 0
  {
    BodyTree(VisibleBodies(ps, o), Visible(ps, o), i, limit)
  }

  /** The text for one pid: nothing for an unknown or hidden process, else the lines of its visible tree. */
  ghost function TextFor(ps: seq<Proc>, o: Options, pid: int, limit: nat): seq<string>
    requires limit > 0
  {
    var i := PidIndex(ps, pid);
    if i == -1 || !Shown(ps, Parents(ps), o, i) then [] else Lines(VisibleTree(ps, o, i, limit), "", false)
  }

  ghost function TextForAll(ps: seq<Proc>, o: Options, pids: seq<int>, limit: nat): seq<string>
    requires limit > 0
  {
    if pids == [] then []
    else TextForAll(ps, o, pids[..|pids| - 1], limit) + TextFor(ps, o, pids[|pids| - 1], limit)
  }

  // ----- the program ---------------------------------------------------------------------

  /** `qs` is the table `ps` with marks and links filled in; everything read stays. */
  predicate SameRead(ps: seq<Proc>, qs: seq<Proc>) {
    |qs| == |ps| &&
    forall i {:trigger qs[i]} :: 0 <= i < |ps| ==>
      qs[i] == ps[i].(shown := qs[i].shown, parent := qs[i].parent, child := qs[i].child, sister := qs[i].sister)
  }

  lemma SameShown(ps: seq<Proc>, qs: seq<Proc>, par: seq<int>, o: Options)
    requires SameRead(ps, qs) && |par| == |ps| && LinksOk(par)
    ensures ShownSet(qs, par, o) == ShownSet(ps, par, o)
  {
    assert forall i :: 0 <= i < |ps| ==> Matches(qs[i], o) == Matches(ps[i], o);
    forall i | 0 <= i < |ps|
      ensures Shown(qs, par, o, i) == Shown(ps, par, o, i)
    {
    }
  }

  lemma SameBodies(ps: seq<Proc>, qs: seq<Proc>, m: seq<int>)
    requires SameRead(ps, qs) && |m| == |ps|
    ensures Bodies(qs, m) == Bodies(ps, m)
  {
    forall i | 0 <= i < |ps|
      ensures Bodies(qs, m)[i] == Bodies(ps, m)[i]
    {
      assert qs[i].pid == ps[i].pid;
    }
  }

  /** What the first three stages leave for the printer. */
  ghost predicate Ready(ps: seq<Proc>, qs: seq<Proc>, o: Options) {
    SameRead(ps, qs) && Drawn(qs, Visible(ps, o)) && ShownFlags(qs) == ShownSet(ps, Parents(ps), o)
  }

  lemma MarkedStage(ps: seq<Proc>, linked: seq<Proc>, marked: seq<Proc>, par: seq<int>, o: Options)
    requires OnlyLinksDiffer(ps, linked) && MarkedUpTo(linked, marked, par, o, |ps|)
    ensures SameRead(ps, marked) && ShownFlags(marked) == ShownSet(ps, par, o)
  {
    MarkedIsShown(linked, marked, par, o);
    SameShown(ps, linked, par, o);
  }

  lemma DroppedStage(ps: seq<Proc>, marked: seq<Proc>, dropped: seq<Proc>, par: seq<int>)
    requires SameRead(ps, marked) && Dropped(marked, dropped, par, |ps|)
    ensures SameRead(ps, dropped) && ShownFlags(dropped) == ShownFlags(marked)
    ensures Drawn(dropped, Masked(par, ShownFlags(marked)))
  {
    DroppedIsPruned(marked, dropped, par);
    assert ShownFlags(dropped) == ShownFlags(marked);
    PrunedIsDrawn(dropped, par);
  }

  lemma StagesReady(ps: seq<Proc>, linked: seq<Proc>, marked: seq<Proc>, dropped: seq<Proc>, o: Options)
    requires OnlyLinksDiffer(ps, linked) && Linked(linked, Parents(ps))
    requires MarkedUpTo(linked, marked, Parents(ps), o, |ps|)
    requires Dropped(marked, dropped, Parents(ps), |ps|)
    ensures Ready(ps, dropped, o)
  {
    var par := Parents(ps);
    MarkedStage(ps, linked, marked, par, o);
    DroppedStage(ps, marked, dropped, par);
  }

  /** MakeTree, MarkProcs and DropProcs in a row. */
  method Prepare(P: array<Proc>, o: Options)
    requires Fresh(P[..]) && (o.showall || Acyclic(Parents(P[..])))
    modifies P
    ensures Ready(old(P[..]), P[..], o)
  {
    ghost var ps := P[..];
    ghost var par := Parents(ps);
    MakeTree(P);
    ghost var linked := P[..];
    assert forall i :: 0 <= i < P.Length ==> P[i] == linked[i] && !linked[i].shown;
    MarkProcs(P, o, par);
    ghost var marked := P[..];
    MarkedUpToLinked(linked, marked, par, o, |ps|);
    DropProcs(P, par);
    StagesReady(ps, linked, marked, P[..], o);
  }

  /** At the root the head is empty, so it does not matter whether a sister follows. */
  lemma RootText(bs: seq<string>, m: seq<int>, i: nat, limit: nat, more: bool)
    requires |m| == |bs| && i < |m| && limit > 0
    ensures TreeText(bs, m, i, limit, "", more) == Lines(BodyTree(bs, m, i, limit), "", false)
  {
    BelowTextIsForest(bs, m, i, 0, limit - 1, NextHead("", more));
    assert NextHead("", more) == NextHead("", false);
    assert Line("", more, bs[i]) == Line("", false, bs[i]);
  }

  lemma ReadyWorded(ps: seq<Proc>, qs: seq<Proc>, o: Options)
    requires Ready(ps, qs, o)
    ensures Worded(qs, VisibleBodies(ps, o))
  {
    BodiesWorded(qs, Visible(ps, o));
    SameBodies(ps, qs, Visible(ps, o));
  }

  lemma ReadyShown(ps: seq<Proc>, qs: seq<Proc>, o: Options, i: nat)
    requires Ready(ps, qs, o) && i < |ps|
    ensures qs[i].shown == Shown(ps, Parents(ps), o, i)
  {
    assert qs[i].shown == ShownFlags(qs)[i];
  }

  /** Prints the tree of one process. */
  method PrintRoot(P: array<Proc>, printer: Printer, idx: nat, ghost m: seq<int>, ghost bs: seq<string>)
    requires Drawn(P[..], m) && Worded(P[..], bs) && idx < P.Length
    requires printer.atLdepth == 0 && printer.maxLdepth > 0
    modifies printer
    ensures printer.atLdepth == 0
    ensures printer.out == old(printer.out) +
      if P[idx].shown then Lines(BodyTree(bs, m, idx, printer.maxLdepth), "", false) else []
  {
    RootText(bs, m, idx, printer.maxLdepth, P[idx].sister != -1);
    printer.PrintTree(P, idx, "", m, bs);
  }

  /** The whole program: prepare the table, then print the tree of each requested pid. */
  method Run(P: array<Proc>, o: Options, pids: seq<int>, maxLdepth: nat) returns (out: seq<string>)
    requires Fresh(P[..]) && (o.showall || Acyclic(Parents(P[..]))) && maxLdepth > 0
    modifies P
    ensures out == TextForAll(old(P[..]), o, pids, maxLdepth)
  {
    ghost var ps := P[..];
    Prepare(P, o);
    ghost var qs := P[..];
    var printer := new Printer(maxLdepth);
    var k := 0;
    while k < |pids|
      invariant 0 <= k <= |pids| && printer.atLdepth == 0 && fresh(printer) && P[..] == qs
      invariant printer.out == TextForAll(ps, o, pids[..k], maxLdepth)
    {
      PrintPid(P, printer, pids[k], ps, o);
      TextForOneMore(ps, o, pids, k, maxLdepth);
      k := k + 1;
    }
    assert pids[..k] == pids;
    out := printer.out;
  }

  lemma TextForOneMore(ps: seq<Proc>, o: Options, pids: seq<int>, k: nat, limit: nat)
    requires k < |pids| && limit > 0
    ensures TextForAll(ps, o, pids[..k + 1], limit) ==
            TextForAll(ps, o, pids[..k], limit) + TextFor(ps, o, pids[k], limit)
  {
    assert pids[..k + 1][..k] == pids[..k];
  }

  /** The texts of the pids come one after the other. */
  lemma {:induction false} TextInOrder(ps: seq<Proc>, o: Options, a: seq<int>, b: seq<int>, limit: nat)
    requires limit > 0
    ensures TextForAll(ps, o, a + b, limit) == TextForAll(ps, o, a, limit) + TextForAll(ps, o, b, limit)
    ensures |a| == 1 ==> TextForAll(ps, o, a, limit) == TextFor(ps, o, a[0], limit)
    decreases |b|
  {
    if b == [] {
      ConcatNil(a);
      ConcatNil(TextForAll(ps, o, a, limit));
    } else {
      var front, pid := b[..|b| - 1], b[|b| - 1];
      TextInOrder(ps, o, a, front, limit);
      assert (a + b)[..|a + b| - 1] == a + front;
      ConcatAssoc(TextForAll(ps, o, a, limit), TextForAll(ps, o, front, limit), TextFor(ps, o, pid, limit));
    }
  }

  method PrintPid(P: array<Proc>, printer: Printer, pid: int, ghost ps: seq<Proc>, ghost o: Options)
    requires Ready(ps, P[..], o) && printer.atLdepth == 0 && printer.maxLdepth > 0
    modifies printer
    ensures printer.atLdepth == 0
    ensures printer.out == old(printer.out) + TextFor(ps, o, pid, printer.maxLdepth)
  {
    var idx := GetPidIndex(P, pid);
    SamePid(ps, P[..], pid, idx);
    if idx > -1 {
      ReadyWorded(ps, P[..], o);
      ReadyShown(ps, P[..], o, idx);
      PrintRoot(P, printer, idx, Visible(ps, o), VisibleBodies(ps, o));
    } else {
      ConcatNil(printer.out);
    }
  }

  // ----- what the text is ----------------------------------------------------------------

  /** The rows of a list of entries. */
  function RowsOf(bs: seq<string>, es: seq<Entry>): (rows: seq<Row>)
    ensures |rows| == |es|
  {
    seq(|es|, k requires 0 <= k < |es| => Row(es[k].depth, if es[k].idx < |bs| then bs[es[k].idx] else ""))
  }

  lemma RowsOfConcat(bs: seq<string>, a: seq<Entry>, b: seq<Entry>)
    ensures RowsOf(bs, a + b) == RowsOf(bs, a) + RowsOf(bs, b)
  {
  }

  /** The rows of a labelled forest are its preorder, labelled. */
  lemma {:induction false} RowsArePreorder(bs: seq<string>, ts: seq<Tree<nat>>, d: nat)
    requires Inside(ts, |bs|)
    ensures Rows(Label(bs, ts), d) == RowsOf(bs, PreorderAll(ts, d))
    decreases ts
  {
    if ts != [] {
      var t, ls := ts[0], Label(bs, ts);
      var kids, rest := PreorderAll(t.kids, d + 1), PreorderAll(ts[1..], d);
      RowsArePreorder(bs, t.kids, d + 1);
      RowsArePreorder(bs, ts[1..], d);
      assert ls[0] == Node(bs[t.data], Label(bs, t.kids)) && ls[1..] == Label(bs, ts[1..]);
      RowsOfConcat(bs, [Entry(t.data, d)] + kids, rest);
      RowsOfConcat(bs, [Entry(t.data, d)], kids);
      assert RowsOf(bs, [Entry(t.data, d)]) == [Row(d, bs[t.data])];
      ConcatAssoc([Row(d, bs[t.data])], RowsOf(bs, kids), RowsOf(bs, rest));
    }
  }

  lemma {:induction false} LabelDashed(bs: seq<string>, ts: seq<Tree<nat>>)
    requires Inside(ts, |bs|) && forall i :: 0 <= i < |bs| ==> bs[i] != "" && bs[i][0] == '-'
    ensures Dashed(Label(bs, ts))
    decreases ts
  {
    if ts != [] {
      LabelDashed(bs, ts[0].kids);
      LabelDashed(bs, ts[1..]);
      assert Label(bs, ts)[1..] == Label(bs, ts[1..]);
    }
  }

  /** The entries printed for process `i`, in order. */
  ghost function Entries(ps: seq<Proc>, o: Options, i: nat, limit: nat): seq<Entry>
    requires i < |ps| && limit > 0
  {
    Preorder(Subtree(Visible(ps, o), i, limit), 0)
  }

  lemma BodyTreeRows(bs: seq<string>, m: seq<int>, i: nat, limit: nat)
    requires i < |bs| == |m| && limit > 0
    requires forall k :: 0 <= k < |bs| ==> bs[k] != "" && bs[k][0] == '-'
    ensures var t := BodyTree(bs, m, i, limit);
            Dashed([t]) && Rows([t], 0) == RowsOf(bs, Preorder(Subtree(m, i, limit), 0))
  {
    var s, t := Subtree(m, i, limit), BodyTree(bs, m, i, limit);
    ForestInside(m, i, 0, limit - 1);
    LabelCons(bs, s, []);
    ConcatNil([s]);
    ConcatNil([t]);
    assert Label(bs, [s]) == [t];
    LabelDashed(bs, [s]);
    RowsArePreorder(bs, [s], 0);
    ConcatNil(Preorder(s, 0));
  }

  /** Line k of the text shows the depth and the pid of the k-th entry. */
  lemma LinesShowEntries(ps: seq<Proc>, o: Options, i: nat, limit: nat)
    requires i < |ps| && limit > 0
    ensures var es, text := Entries(ps, o, i, limit), Lines(VisibleTree(ps, o, i, limit), "", false);
            |text| == |es| &&
            forall k :: 0 <= k < |es| ==>
              es[k].idx < |ps| && DepthOf(text[k]) == es[k].depth && PidOf(BodyOf(text[k])) == ps[es[k].idx].pid
  {
    var t, m := VisibleTree(ps, o, i, limit), Visible(ps, o);
    var es, text, bs := Entries(ps, o, i, limit), Lines(t, "", false), VisibleBodies(ps, o);
    BodyTreeRows(bs, m, i, limit);
    DecodeForest([t], "", 0);
    ConcatNil(text);
    forall k | 0 <= k < |es|
      ensures es[k].idx < |ps| && DepthOf(text[k]) == es[k].depth && PidOf(BodyOf(text[k])) == ps[es[k].idx].pid
    {
      PreorderExact(m, i, limit, 0, es[k]);
      assert Decode(text)[k] == RowsOf(bs, es)[k];
      ShowsPid(ps, m, es[k].idx);
    }
  }

  lemma ShowsPid(ps: seq<Proc>, m: seq<int>, i: nat)
    requires |m| == |ps| && i < |ps|
    ensures PidOf(Bodies(ps, m)[i]) == ps[i].pid
  {
    var p, thread := ps[i], if ps[i].thcount > 1 then "[" + Digits(ps[i].thcount, 1) + "]" else "";
    BodyShowsPid(Next(m, i, 0) != -1, p.pid == p.pgid, p.pid, p.name + " " + thread + p.cmd);
  }

  // ----- what a line says, in terms of the table -----------------------------------------

  ghost predicate IsShownProc(ps: seq<Proc>, o: Options, i: int) {
    0 <= i < |ps| && Shown(ps, Parents(ps), o, i)
  }

  /** What it takes to be shown: being an ancestor or a descendant of a process with the name asked for, of
      anybody but root, with the pid asked for, or with the text asked for in its command, or that one itself. */
  lemma ShownMeans(ps: seq<Proc>, o: Options, i: nat)
    requires i < |ps|
    ensures IsShownProc(ps, o, i) <==> o.showall || exists m ::
              && 0 <= m < |ps| && (Anc(Parents(ps), i, m) || Anc(Parents(ps), m, i))
              && (|| ps[m].name == o.name
                  || (o.uOption && ps[m].name != "root")
                  || ps[m].pid == o.ipid
                  || (o.sOption && ps[m].pid != o.myPid && Occurs(ps[m].cmd, o.str)))
  {
    forall m | 0 <= m < |ps|
      ensures Contains(ps[m].cmd, o.str) <==> Occurs(ps[m].cmd, o.str)
    {
      ContainsMeans(ps[m].cmd, o.str);
    }
  }

  /** The characters of `t` stand in `s` from position k on. */
  ghost predicate OccursAt(s: string, t: string, k: int) {
    0 <= k && k + |t| <= |s| && forall j :: 0 <= j < |t| ==> s[k + j] == t[j]
  }

  ghost predicate Occurs(s: string, t: string) {
    exists k :: OccursAt(s, t, k)
  }

  lemma ContainsMeans(s: string, t: string)
    ensures Contains(s, t) <==> Occurs(s, t)
  {
    if Contains(s, t) {
      var k :| 0 <= k <= |s| && t <= s[k..];
      assert forall j :: 0 <= j < |t| ==> s[k..][j] == t[j];
      assert OccursAt(s, t, k);
    }
    forall k | OccursAt(s, t, k)
      ensures t <= s[k..]
    {
      assert forall j :: 0 <= j < |t| ==> s[k..][j] == s[k + j];
    }
  }

  /** A shown process has `i` as its parent. */
  ghost predicate HasShownChild(ps: seq<Proc>, o: Options, i: int) {
    exists j :: IsShownProc(ps, o, j) && Parents(ps)[j] == i
  }

  /** A shown process further down the table has the same parent as `i`. */
  ghost predicate LaterShownSister(ps: seq<Proc>, o: Options, i: int) {
    0 <= i < |ps| && Parents(ps)[i] != -1 &&
    exists j :: i < j && IsShownProc(ps, o, j) && Parents(ps)[j] == Parents(ps)[i]
  }

  /** Everything the line of process `i` at depth d says: for each ancestor but the root whether a shown
      sister of it follows, the same for the process itself, whether it has shown children, and its
      pid, group leadership, name, threads and command. */
  ghost predicate LineTells(line: string, ps: seq<Proc>, o: Options, i: nat, d: nat)
    requires i < |ps|
  {
    var p := ps[i];
    |line| >= 2 * d &&
    (forall a :: 0 <= a < d ==> line[2 * a] == ' ') &&
    (forall a :: 1 <= a < d ==>
       line[2 * a - 1] == if LaterShownSister(ps, o, Up(Parents(ps), i, d - a)) then '|' else ' ') &&
    (d > 0 ==> line[2 * d - 1] == if LaterShownSister(ps, o, i) then '|' else '\\') &&
    BodyTells(line[2 * d..], HasShownChild(ps, o, i), p.pid == p.pgid, p.pid, p.name, p.thcount, p.cmd)
  }

  lemma VisibleMeans(ps: seq<Proc>, o: Options, j: int)
    requires 0 <= j < |ps|
    ensures Visible(ps, o)[j] == if IsShownProc(ps, o, j) then Parents(ps)[j] else -1
  {
    assert ShownSet(ps, Parents(ps), o)[j] == IsShownProc(ps, o, j);
  }

  lemma ChildMeans(ps: seq<Proc>, o: Options, i: nat)
    requires i < |ps|
    ensures Next(Visible(ps, o), i, 0) != -1 <==> HasShownChild(ps, o, i)
  {
    var c := Next(Visible(ps, o), i, 0);
    if c != -1 {
      VisibleMeans(ps, o, c);
    }
    forall j | IsShownProc(ps, o, j) && Parents(ps)[j] == i
      ensures c != -1
    {
      VisibleMeans(ps, o, j);
    }
  }

  lemma MoreMeans(ps: seq<Proc>, o: Options, i: nat)
    requires IsShownProc(ps, o, i)
    ensures More(Visible(ps, o), i) <==> LaterShownSister(ps, o, i)
  {
    var m := Visible(ps, o);
    VisibleMeans(ps, o, i);
    var c := SisterOf(m, i);
    if c != -1 {
      VisibleMeans(ps, o, c);
    }
    if LaterShownSister(ps, o, i) {
      var j :| i < j && IsShownProc(ps, o, j) && Parents(ps)[j] == Parents(ps)[i];
      VisibleMeans(ps, o, j);
      assert m[j] == m[i];
    }
  }

  /** Going up from a visible process meets shown processes only, the same as in the whole table. */
  lemma AncestorsShown(ps: seq<Proc>, o: Options, i: nat, k: nat)
    requires IsShownProc(ps, o, i)
    ensures Up(Visible(ps, o), i, k) == Up(Parents(ps), i, k)
    ensures Up(Parents(ps), i, k) != -1 ==> IsShownProc(ps, o, Up(Parents(ps), i, k))
  {
    var show := ShownSet(ps, Parents(ps), o);
    ShownClosedUp(ps, Parents(ps), o);
    assert show[i];
    MaskedUp(Parents(ps), show, i, k);
  }

  lemma UpStays(par: seq<int>, i: nat, d: nat, k: nat)
    requires LinksOk(par) && i < |par| && Up(par, i, d) != -1 && k <= d
    ensures Up(par, i, k) != -1
  {
    UpAdd(par, i, k, d - k);
  }

  /** The sign of an ancestor's column is about the ancestor in the whole table. */
  lemma AncestorMore(ps: seq<Proc>, o: Options, i: nat, d: nat, k: nat)
    requires IsShownProc(ps, o, i) && Up(Visible(ps, o), i, d) != -1 && k <= d
    ensures More(Visible(ps, o), Up(Visible(ps, o), i, k)) <==> LaterShownSister(ps, o, Up(Parents(ps), i, k))
  {
    UpStays(Visible(ps, o), i, d, k);
    AncestorsShown(ps, o, i, k);
    MoreMeans(ps, o, Up(Parents(ps), i, k));
  }

  lemma ColumnsAre(line: string, m: seq<int>, ps: seq<Proc>, o: Options, i: nat, d: nat, body: string)
    requires i < |ps| && LinksOk(m) && |m| == |ps| && LineColumns(line, m, i, d, body)
    requires forall k :: 0 <= k < d ==> (More(m, Up(m, i, k)) <==> LaterShownSister(ps, o, Up(Parents(ps), i, k)))
    requires BodyFits(body, ps[i], HasShownChild(ps, o, i))
    ensures LineTells(line, ps, o, i, d)
  {
    forall a | 1 <= a < d
      ensures line[2 * a - 1] == if LaterShownSister(ps, o, Up(Parents(ps), i, d - a)) then '|' else ' '
    {
      assert More(m, Up(m, i, d - a)) <==> LaterShownSister(ps, o, Up(Parents(ps), i, d - a));
    }
    if d > 0 {
      assert Up(m, i, 0) == i && Up(Parents(ps), i, 0) == i;
    }
  }

  lemma ColumnsTell(ps: seq<Proc>, o: Options, i: nat, d: nat, line: string, body: string)
    requires IsShownProc(ps, o, i) && Up(Visible(ps, o), i, d) != -1
    requires LineColumns(line, Visible(ps, o), i, d, body) && BodyFits(body, ps[i], Next(Visible(ps, o), i, 0) != -1)
    ensures LineTells(line, ps, o, i, d)
  {
    ChildMeans(ps, o, i);
    forall k: nat | k < d
      ensures More(Visible(ps, o), Up(Visible(ps, o), i, k)) <==> LaterShownSister(ps, o, Up(Parents(ps), i, k))
    {
      AncestorMore(ps, o, i, d, k);
    }
    ColumnsAre(line, Visible(ps, o), ps, o, i, d, body);
  }

  /** Each line says everything about its process. */
  lemma LinesTell(ps: seq<Proc>, o: Options, i: nat, limit: nat)
    requires IsShownProc(ps, o, i) && limit > 0
    ensures var es, text := Entries(ps, o, i, limit), Lines(VisibleTree(ps, o, i, limit), "", false);
            |text| == |es| && forall k :: 0 <= k < |es| ==> es[k].idx < |ps| && LineTells(text[k], ps, o, es[k].idx, es[k].depth)
  {
    var m, bs, es := Visible(ps, o), VisibleBodies(ps, o), Entries(ps, o, i, limit);
    var text := Lines(VisibleTree(ps, o, i, limit), "", false);
    RootText(bs, m, i, limit, false);
    TreeIsLines(bs, m, i, limit, 0, "", false);
    assert text == LinesOf(bs, m, es);
    forall k | 0 <= k < |es|
      ensures es[k].idx < |ps| && LineTells(text[k], ps, o, es[k].idx, es[k].depth)
    {
      EntryTells(ps, o, i, limit, es[k]);
      assert text[k] == LineOf(bs, m, es[k]);
    }
  }

  lemma EntryTells(ps: seq<Proc>, o: Options, root: nat, limit: nat, e: Entry)
    requires IsShownProc(ps, o, root) && limit > 0 && e in Entries(ps, o, root, limit)
    ensures e.idx < |ps| && LineTells(LineOf(VisibleBodies(ps, o), Visible(ps, o), e), ps, o, e.idx, e.depth)
  {
    var m, bs := Visible(ps, o), VisibleBodies(ps, o);
    EntryShown(ps, o, root, limit, e);
    LineHasColumns(bs, m, e);
    ProcBodyTells(ps[e.idx], Next(m, e.idx, 0) != -1);
    ColumnsTell(ps, o, e.idx, e.depth, LineOf(bs, m, e), bs[e.idx]);
  }

  lemma EntryShown(ps: seq<Proc>, o: Options, root: nat, limit: nat, e: Entry)
    requires IsShownProc(ps, o, root) && limit > 0 && e in Entries(ps, o, root, limit)
    ensures IsShownProc(ps, o, e.idx) && Up(Visible(ps, o), e.idx, e.depth) == root
  {
    EntryReached(Visible(ps, o), root, limit, e);
    VisibleMeans(ps, o, e.idx);
  }

  /** An entry is the root, or has a parent. */
  lemma EntryReached(m: seq<int>, root: nat, limit: nat, e: Entry)
    requires LinksOk(m) && root < |m| && limit > 0 && e in Preorder(Subtree(m, root, limit), 0)
    ensures e.idx < |m| && Up(m, e.idx, e.depth) == root && (e.idx == root || m[e.idx] != -1)
  {
    PreorderExact(m, root, limit, 0, e);
  }

  /** Nothing is printed exactly for an unknown or hidden process. */
  lemma NothingPrinted(ps: seq<Proc>, o: Options, pid: int, limit: nat)
    requires limit > 0
    ensures TextFor(ps, o, pid, limit) == [] <==>
            (forall i :: 0 <= i < |ps| ==> ps[i].pid != pid) || !IsShownProc(ps, o, PidIndex(ps, pid))
  {
  }

  /**
   The main result: for a table without cycles, the text printed for a shown process lists exactly
   its shown descendants (itself included) less than `limit` levels down, each on one line that
   shows its pid at its depth, in preorder.
   */
  lemma PrintsExactly(ps: seq<Proc>, o: Options, pid: int, limit: nat)
    requires Acyclic(Parents(ps)) && limit > 0
    requires PidIndex(ps, pid) != -1 && Shown(ps, Parents(ps), o, PidIndex(ps, pid))
    ensures var root, par, text := PidIndex(ps, pid), Parents(ps), TextFor(ps, o, pid, limit);
            var es := Entries(ps, o, root, limit);
            && |text| == |es|
            && (forall k :: 0 <= k < |es| ==>
                  && es[k].idx < |ps| && DepthOf(text[k]) == es[k].depth && PidOf(BodyOf(text[k])) == ps[es[k].idx].pid
                  && LineTells(text[k], ps, o, es[k].idx, es[k].depth))
            && (forall i: nat, d: nat :: Entry(i, d) in es <==>
                  i < |ps| && Shown(ps, par, o, i) && d < limit && Up(par, i, d) == root)
            && (forall a, b :: 0 <= a < b < |es| ==> es[a].idx != es[b].idx)
  {
    var root, par := PidIndex(ps, pid), Parents(ps);
    LinesTell(ps, o, root, limit);
    LinesShowEntries(ps, o, root, limit);
    ShownClosedUp(ps, par, o);
    PrintedExactly(par, ShownSet(ps, par, o), root, limit);
  }

  /** Printing loses nothing: the visible tree can be read back from the text. */
  lemma PrintingCanBeUndone(ps: seq<Proc>, o: Options, pid: int, limit: nat)
    requires limit > 0 && PidIndex(ps, pid) != -1 && Shown(ps, Parents(ps), o, PidIndex(ps, pid))
    ensures Read(TextFor(ps, o, pid, limit)) == [VisibleTree(ps, o, PidIndex(ps, pid), limit)]
  {
    BodyTreeRows(VisibleBodies(ps, o), Visible(ps, o), PidIndex(ps, pid), limit);
    TextRoundTrip(VisibleTree(ps, o, PidIndex(ps, pid), limit));
  }
}
