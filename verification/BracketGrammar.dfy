/**
 The bracket monitor admits exactly what the grammar of balanced words allows next, and with a thread
 for each bracket it can print every beginning of such a word.
 */
module BracketGrammar {
  import opened Wrappers
  import opened SeqFacts
  import opened BracketMonitor
  import opened BracketProtocol

  /** `v` begins a balanced word at most 4 deep with no square bracket opened inside a round one. */
  ghost predicate Begins(v: string) {
    exists w, rest :: Fits(w, 0, false) && Text(w) == v + rest
  }

  // ----- words can be replayed -----------------------------------------------------------

  predicate InRound(stack: string) {
    stack != "" && stack[|stack| - 1] == ROUND_OPEN
  }

  lemma PushOpener(stack: string, open: char)
    requires Nested(stack) && |stack| < 4 && IsOpener(open) && (InRound(stack) ==> open == ROUND_OPEN)
    ensures Nested(stack + [open]) && Push(stack, open) == Some(stack + [open])
    ensures InRound(stack + [open]) == (open == ROUND_OPEN)
  {
    assert forall i :: 0 <= i < |stack| && stack[i] == ROUND_OPEN ==> stack[|stack| - 1] == ROUND_OPEN;
  }

  lemma PopCloser(stack: string, open: char)
    requires IsOpener(open)
    ensures Push(stack + [open], CloserOf(open)) == Some(stack)
  {
    assert (stack + [open])[..|stack|] == stack;
  }

  lemma ReplayCons(stack: string, c: char, v: string)
    ensures ReplayFrom(stack, [c] + v) == match Push(stack, c) case None => None case Some(next) => ReplayFrom(next, v)
  {
    assert ([c] + v)[1..] == v;
  }

  lemma TextOfWrap(open: char, inner: Word, rest: Word)
    ensures Text(Wrap(open, inner, rest)) == [open] + (Text(inner) + ([CloserOf(open)] + Text(rest)))
  {
  }

  /** Reading a word that fits leaves the stack as it was. */
  lemma {:induction false} WordReplays(stack: string, w: Word)
    requires Nested(stack) && Fits(w, |stack|, InRound(stack))
    ensures ReplayFrom(stack, Text(w)) == Some(stack)
    decreases w
  {
    match w
    case Empty =>
    case Wrap(open, inner, rest) =>
      var up, close := stack + [open], CloserOf(open);
      PushOpener(stack, open);
      WordReplays(up, inner);
      WordReplays(stack, rest);
      PopCloser(stack, open);
      TextOfWrap(open, inner, rest);
      ReplayCons(stack, open, Text(inner) + ([close] + Text(rest)));
      ReplayFromConcat(up, Text(inner), [close] + Text(rest));
      ReplayCons(up, close, Text(rest));
  }

  lemma {:induction false} BracketsConcat(a: string, b: string)
    ensures BracketsOf(a + b) == BracketsOf(a) + BracketsOf(b)
    decreases |a|
  {
    if a == "" {
      assert a + b == b;
    } else {
      assert (a + b)[0] == a[0] && (a + b)[1..] == a[1..] + b;
      BracketsConcat(a[1..], b);
      ConcatAssoc(if IsBracket(a[0]) then [a[0]] else "", BracketsOf(a[1..]), BracketsOf(b));
    }
  }

  /** A text replays exactly when its brackets begin a word. */
  lemma ReplaysIffBegins(out: string)
    ensures Replay(out).Some? <==> Begins(BracketsOf(out))
  {
    var v := BracketsOf(out);
    ReplayForward(out);
    ReplayIgnoresRest("", out);
    if Replay(out).Some? {
      ReplayNested(out);
      var w := ReplayedIsPrefix(out, Replay(out).value);
      assert Text(w) == v + Closing(Replay(out).value);
    }
    if Begins(v) {
      var w, rest :| Fits(w, 0, false) && Text(w) == v + rest;
      WordReplays("", w);
      ReplayFromConcat("", v, rest);
    }
  }

  // ----- what is admitted ----------------------------------------------------------------

  lemma AdmitsIffPush(s: Shared, c: char)
    requires s.quota == 1 && s.count == |s.buff| && IsBracket(c)
    ensures Admits(s, c) <==> Push(s.buff, c).Some?
  {
  }

  lemma BracketsSnoc(out: string, c: char)
    requires IsBracket(c)
    ensures BracketsOf(out + [c]) == BracketsOf(out) + [c]
  {
    BracketsConcat(out, [c]);
    assert [c][1..] == "";
  }

  /** In every reachable state with a free quota, a bracket is admitted exactly when some word goes on with it. */
  lemma AdmitsExactly(roles: string, run: seq<State>, k: nat, c: char)
    requires Run(roles, run) && k < |run| && run[k].shared.quota == 1 && IsBracket(c)
    ensures Admits(run[k].shared, c) <==> Begins(BracketsOf(run[k].out) + [c])
  {
    RunInv(roles, run, k);
    var s := run[k];
    AdmitsIffPush(s.shared, c);
    ReplaySnoc(s.out, c);
    ReplaysIffBegins(s.out + [c]);
    BracketsSnoc(s.out, c);
  }

  // ----- what can be printed -------------------------------------------------------------

  /** Nobody holds the quota, everybody is about to test, and `v` has been printed. */
  ghost predicate Rested(roles: string, run: seq<State>, v: string) {
    Run(roles, run) && Resting(roles, run[|run| - 1], v)
  }

  predicate Resting(roles: string, s: State, v: string) {
    s.out == v && s.shared.quota == 1 && |s.pcs| == |roles| && forall t :: 0 <= t < |roles| ==> s.pcs[t] == Ready
  }

  lemma RestedAtFirst(roles: string) returns (run: seq<State>)
    ensures Rested(roles, run, "")
  {
    run := [State(INITIAL, seq(|roles|, i => Ready), "")];
  }

  /** An admitted thread goes through brac_before and brac_after undisturbed. */
  lemma RestedNext(roles: string, run: seq<State>, v: string, t: nat) returns (longer: seq<State>)
    requires Rested(roles, run, v) && t < |roles| && IsBracket(roles[t]) && Admits(run[|run| - 1].shared, roles[t])
    ensures Rested(roles, longer, v + [roles[t]])
  {
    longer := Extend(roles, run, Test(t));
    longer := Extend(roles, longer, Put(t));
    longer := Extend(roles, longer, Finish(t));
  }

  lemma ShorterBegins(v: string, c: char)
    requires Begins(v + [c])
    ensures Begins(v)
  {
    var w, rest :| Fits(w, 0, false) && Text(w) == v + [c] + rest;
    ConcatAssoc(v, [c], rest);
  }

  lemma {:induction false} OnlyBracketsKept(v: string)
    requires forall i :: 0 <= i < |v| ==> IsBracket(v[i])
    ensures BracketsOf(v) == v
  {
    if v != "" {
      OnlyBracketsKept(v[1..]);
      assert [v[0]] + v[1..] == v;
    }
  }

  lemma {:induction false} WordBrackets(w: Word, d: nat, inRound: bool)
    requires Fits(w, d, inRound)
    ensures forall i :: 0 <= i < |Text(w)| ==> IsBracket(Text(w)[i])
    decreases w
  {
    match w
    case Empty =>
    case Wrap(open, inner, rest) =>
      WordBrackets(inner, d + 1, open == ROUND_OPEN);
      WordBrackets(rest, d, inRound);
  }

  lemma BeginsBrackets(v: string)
    requires Begins(v)
    ensures forall i :: 0 <= i < |v| ==> IsBracket(v[i])
  {
    var w, rest :| Fits(w, 0, false) && Text(w) == v + rest;
    WordBrackets(w, 0, false);
    forall i | 0 <= i < |v|
      ensures IsBracket(v[i])
    {
      assert Text(w)[i] == v[i];
    }
  }

  lemma ThreadFor(roles: string, c: char) returns (t: nat)
    requires AllRoles(roles) && IsBracket(c)
    ensures t < |roles| && roles[t] == c
  {
    assert c in roles;
    t :| t < |roles| && roles[t] == c;
  }

  /** With a thread for each bracket, every beginning of a word is printed by some run. */
  lemma {:induction false} EveryBeginningIsPrinted(roles: string, v: string) returns (run: seq<State>)
    requires AllRoles(roles) && Begins(v)
    ensures Rested(roles, run, v)
    decreases |v|
  {
    if v == "" {
      run := RestedAtFirst(roles);
    } else {
      var front, c := v[..|v| - 1], v[|v| - 1];
      assert v == front + [c];
      ShorterBegins(front, c);
      BeginsBrackets(v);
      run := EveryBeginningIsPrinted(roles, front);
      var t := ThreadFor(roles, c);
      OnlyBracketsKept(front);
      AdmitsExactly(roles, run, |run| - 1, c);
      run := RestedNext(roles, run, front, t);
    }
  }

  /** The brackets that runs print are exactly the beginnings of words. */
  lemma PrintedExactly(roles: string, v: string)
    requires AllRoles(roles)
    ensures Begins(v) <==> exists run: seq<State>, k: nat :: Run(roles, run) && k < |run| && BracketsOf(run[k].out) == v
  {
    if Begins(v) {
      var run := EveryBeginningIsPrinted(roles, v);
      BeginsBrackets(v);
      OnlyBracketsKept(v);
      assert BracketsOf(run[|run| - 1].out) == v;
    }
    forall run: seq<State>, k: nat | Run(roles, run) && k < |run| && BracketsOf(run[k].out) == v
      ensures Begins(v)
    {
      OutputIsSafe(roles, run, k);
    }
  }
}
