/**
 The bracket monitor: which threads its broadcasts may leave asleep, and how long it can go on
 without printing a bracket.
 */
module BracketWaking {
  import opened Wrappers
  import opened BracketMonitor
  import opened BracketProtocol

  // ----- who may oversleep ---------------------------------------------------------------

  /** No bracket thread that would be admitted is asleep. */
  ghost predicate NoneOversleeps(roles: string, s: State) {
    |s.pcs| == |roles| &&
    forall t :: 0 <= t < |roles| && IsBracket(roles[t]) && Admits(s.shared, roles[t]) ==> s.pcs[t] != Asleep
  }

  predicate Opens(roles: string, t: int) {
    0 <= t < |roles| && IsOpener(roles[t])
  }

  /** Thread `u` closes what thread `t` opens. */
  predicate ClosesFor(roles: string, t: int, u: int) {
    Opens(roles, t) && 0 <= u < |roles| && roles[u] == CloserOf(roles[t])
  }

  /** At most one thread opens, and at most one thread closes what it opens. */
  ghost predicate OnePair(roles: string) {
    (forall t, u :: Opens(roles, t) && Opens(roles, u) ==> t == u) &&
    forall t, u, v :: ClosesFor(roles, t, u) && ClosesFor(roles, t, v) ==> u == v
  }

  /** What holds throughout when there is one pair: the buffer holds what some thread opens, and nobody oversleeps. */
  ghost predicate Quiet(roles: string, s: State) {
    Inv(roles, s) && NoneOversleeps(roles, s) && forall i :: 0 <= i < |s.shared.buff| ==> s.shared.buff[i] in roles
  }

  /** With one pair, whatever closes the last open bracket is the one closer. */
  lemma OneCloser(roles: string, buff: string, t: nat, u: nat)
    requires OnePair(roles) && t < |roles| && u < |roles| && IsCloser(roles[t]) && IsCloser(roles[u])
    requires forall i :: 0 <= i < |buff| ==> buff[i] in roles
    requires |buff| >= 2 && Closes(buff, roles[t]) && Closes(buff[..|buff| - 1], roles[u])
    ensures t == u
  {
    var n := |buff|;
    assert buff[n - 1] in roles && buff[n - 2] in roles;
    var a :| 0 <= a < |roles| && roles[a] == buff[n - 1];
    var b :| 0 <= b < |roles| && roles[b] == buff[n - 2];
    assert Opens(roles, a) && Opens(roles, b);
    assert ClosesFor(roles, a, t) && ClosesFor(roles, a, u);
  }

  lemma QuietFinish(roles: string, s: State, t: nat, s': State)
    requires OnePair(roles) && Quiet(roles, s) && Enabled(roles, s, Finish(t)) && s' == Apply(roles, s, Finish(t))
    requires IsBracket(roles[t])
    ensures NoneOversleeps(roles, s')
  {
    assert Holds(roles, s, t);
    forall u: nat | u < |roles| && IsBracket(roles[u]) && Admits(s'.shared, roles[u])
      ensures s'.pcs[u] != Asleep
    {
      if u != t && !WokenBy(roles[t], roles[u]) {
        if IsOpener(roles[t]) {
          assert Opens(roles, t) && Opens(roles, u);
        } else {
          OneCloser(roles, s.shared.buff, t, u);
        }
      }
    }
  }

  lemma QuietStep(roles: string, s: State, a: Action)
    requires OnePair(roles) && Quiet(roles, s) && Enabled(roles, s, a)
    ensures Quiet(roles, Apply(roles, s, a))
  {
    StepInv(roles, s, a);
    if a.Finish? && IsBracket(roles[a.t]) {
      QuietFinish(roles, s, a.t, Apply(roles, s, a));
    }
  }

  lemma {:induction false} QuietRun(roles: string, run: seq<State>, k: nat)
    requires OnePair(roles) && Run(roles, run) && k < |run|
    ensures Quiet(roles, run[k])
  {
    if k == 0 {
      InitInv(roles, run[0]);
    } else {
      QuietRun(roles, run, k - 1);
      assert StepAt(roles, run, k);
      var a :| Enabled(roles, run[k - 1], a) && run[k] == Apply(roles, run[k - 1], a);
      QuietStep(roles, run[k - 1], a);
    }
  }

  function Last(run: seq<State>): State
    requires run != []
  {
    run[|run| - 1]
  }

  /** The threads `t` and `u` are about to test, and the quota is free. */
  predicate BothReady(s: State, t: nat, u: nat) {
    t < |s.pcs| && u < |s.pcs| && s.pcs[t] == s.pcs[u] == Ready && s.shared.quota == 1
  }

  /** Thread `t` takes the quota, `u` finds it taken and sleeps, and `t` does not wake its own kind. */
  lemma LeftAsleep(roles: string, run: seq<State>, t: nat, u: nat) returns (longer: seq<State>)
    requires Run(roles, run) && |Last(run).pcs| == |roles| && BothReady(Last(run), t, u) && t != u
    requires IsBracket(roles[t]) && IsBracket(roles[u]) && !WokenBy(roles[t], roles[u])
    requires Admits(Last(run).shared, roles[t])
    requires Admits(Finished(Taken(Last(run).shared, roles[t]), roles[t]), roles[u])
    ensures Run(roles, longer) && !NoneOversleeps(roles, Last(longer))
  {
    longer := Extend(roles, run, Test(t));
    longer := Extend(roles, longer, Test(u));
    assert Last(longer).pcs[u] == Asleep && Last(longer).pcs[t] == Admitted;
    longer := Extend(roles, longer, Put(t));
    longer := Extend(roles, longer, Finish(t));
    assert Last(longer).pcs[u] == Asleep && Admits(Last(longer).shared, roles[u]);
  }

  lemma Start(roles: string) returns (run: seq<State>)
    ensures Run(roles, run) && Init(roles, Last(run))
  {
    run := [State(INITIAL, seq(|roles|, i => Ready), "")];
  }

  /** Two openers: the second is left asleep behind the first. */
  lemma TwoOpeners(roles: string, t: nat, u: nat) returns (run: seq<State>)
    requires Opens(roles, t) && Opens(roles, u) && t != u
    ensures Run(roles, run) && !NoneOversleeps(roles, Last(run))
  {
    run := Start(roles);
    var a, b := if roles[u] == SQUARE_OPEN then u else t, if roles[u] == SQUARE_OPEN then t else u;
    assert "" + [roles[a]] == [roles[a]];
    assert Nested([roles[a]] + [roles[b]]);
    run := LeftAsleep(roles, run, a, b);
  }

  /** Opener `o` prints one bracket; `t` and `u` stay ready. */
  lemma OpenOnce(roles: string, run: seq<State>, o: nat, t: nat, u: nat) returns (longer: seq<State>)
    requires Run(roles, run) && |Last(run).pcs| == |roles| && o < |roles| && Last(run).pcs[o] == Ready
    requires BothReady(Last(run), t, u) && t != o && u != o && IsOpener(roles[o]) && Admits(Last(run).shared, roles[o])
    ensures Run(roles, longer) && |Last(longer).pcs| == |roles| && Last(longer).pcs[o] == Ready
    ensures BothReady(Last(longer), t, u)
    ensures Last(longer).shared == Shared(Last(run).shared.buff + [roles[o]], Last(run).shared.count + 1, 1)
  {
    longer := Extend(roles, run, Test(o));
    longer := Extend(roles, longer, Put(o));
    longer := Extend(roles, longer, Finish(o));
  }

  lemma OpenTwice(roles: string, o: nat, t: nat, u: nat) returns (run: seq<State>)
    requires Opens(roles, o) && t < |roles| && u < |roles| && t != o && u != o
    ensures Run(roles, run) && |Last(run).pcs| == |roles| && BothReady(Last(run), t, u)
    ensures Last(run).shared == Shared([roles[o], roles[o]], 2, 1)
  {
    var c := roles[o];
    run := Start(roles);
    assert "" + [c] == [c];
    run := OpenOnce(roles, run, o, t, u);
    assert [c] + [c] == [c, c] && Nested([c, c]);
    run := OpenOnce(roles, run, o, t, u);
  }

  lemma CloserAfterCloser(c: char)
    requires IsOpener(c)
    ensures var s, d := Shared([c, c], 2, 1), CloserOf(c); Admits(s, d) && Admits(Finished(Taken(s, d), d), d)
  {
    assert [c, c][..1] == [c];
  }

  /** Two closers of one opener: the second is left asleep behind the first when two brackets are open. */
  lemma TwoClosers(roles: string, o: nat, t: nat, u: nat) returns (run: seq<State>)
    requires ClosesFor(roles, o, t) && ClosesFor(roles, o, u) && t != u
    ensures Run(roles, run) && !NoneOversleeps(roles, Last(run))
  {
    run := OpenTwice(roles, o, t, u);
    CloserAfterCloser(roles[o]);
    run := LeftAsleep(roles, run, t, u);
  }

  /** Nobody oversleeps in any state of any run. */
  ghost predicate NeverOversleeps(roles: string) {
    forall run, k: nat :: Run(roles, run) && k < |run| ==> NoneOversleeps(roles, run[k])
  }

  /** Every thread that would be admitted is awake in every state of every run exactly when at most
      one thread opens brackets and at most one closes what that one opens. */
  lemma OversleepsUnlessOnePair(roles: string)
    ensures NeverOversleeps(roles) <==> OnePair(roles)
  {
    if OnePair(roles) {
      forall run, k: nat | Run(roles, run) && k < |run|
        ensures NoneOversleeps(roles, run[k])
      {
        QuietRun(roles, run, k);
      }
    } else if exists t, u :: Opens(roles, t) && Opens(roles, u) && t != u {
      var t, u :| Opens(roles, t) && Opens(roles, u) && t != u;
      var run := TwoOpeners(roles, t, u);
      assert !NoneOversleeps(roles, run[|run| - 1]);
    } else {
      var o, t, u :| ClosesFor(roles, o, t) && ClosesFor(roles, o, u) && t != u;
      var run := TwoClosers(roles, o, t, u);
      assert !NoneOversleeps(roles, run[|run| - 1]);
    }
  }

  /** The program's threads, numbered from 1: every bracket has a thread, so there is no deadlock, but
      there is more than one opener, so some thread can oversleep. */
  lemma ProgramRoles(roles: string)
    requires roles == "[]](())\0"
    ensures AllRoles(roles) && !NeverOversleeps(roles)
  {
    assert roles[0] == SQUARE_OPEN && roles[1] == SQUARE_CLOSE && roles[3] == ROUND_OPEN && roles[5] == ROUND_CLOSE;
    assert Opens(roles, 0) && Opens(roles, 3);
    OversleepsUnlessOnePair(roles);
  }

  // ----- how long nothing may be printed -------------------------------------------------

  predicate ByBracket(roles: string, a: Action) {
    a.t < |roles| && IsBracket(roles[a.t])
  }

  /** Actions of bracket threads other than wake-ups. */
  function Busy(roles: string, todo: seq<Action>): nat {
    if todo == [] then 0 else (if ByBracket(roles, todo[0]) && !todo[0].Wake? then 1 else 0) + Busy(roles, todo[1..])
  }

  /** Spurious wake-ups. */
  function Wakes(todo: seq<Action>): nat {
    if todo == [] then 0 else (if todo[0].Wake? then 1 else 0) + Wakes(todo[1..])
  }

  /** Bracket threads among the first n that are about to test. */
  function Trying(roles: string, pcs: seq<Pc>, n: nat): (r: nat)
    requires n <= |roles| == |pcs|
    ensures r <= n
  {
    if n == 0 then 0 else Trying(roles, pcs, n - 1) + if IsBracket(roles[n - 1]) && pcs[n - 1] == Ready then 1 else 0
  }

  lemma {:induction false} TryingUpdate(roles: string, pcs: seq<Pc>, n: nat, t: nat, pc: Pc)
    requires n <= |roles| == |pcs| && t < |pcs|
    ensures Trying(roles, pcs[t := pc], n) == Trying(roles, pcs, n) +
            if t < n && IsBracket(roles[t]) then (if pc == Ready then 1 else 0) - (if pcs[t] == Ready then 1 else 0) else 0
    decreases n
  {
    if n > 0 {
      TryingUpdate(roles, pcs, n - 1, t, pc);
    }
  }

  lemma {:induction false} TryingSame(roles: string, pcs: seq<Pc>, pcs': seq<Pc>, n: nat)
    requires n <= |roles| == |pcs| == |pcs'|
    requires forall t :: 0 <= t < n && IsBracket(roles[t]) ==> pcs'[t] == pcs[t]
    ensures Trying(roles, pcs', n) == Trying(roles, pcs, n)
    decreases n
  {
    if n > 0 {
      TryingSame(roles, pcs, pcs', n - 1);
    }
  }

  /** A bracket is printed and brac_after is still to come. */
  ghost predicate Printing(roles: string, s: State) {
    exists t :: Holds(roles, s, t) && s.pcs[t] == Printed
  }

  /** How many more actions can happen before a bracket is printed. */
  ghost function Slack(roles: string, s: State): (r: nat)
    requires |s.pcs| == |roles|
    ensures r <= 2 * |roles| + 1
  {
    Trying(roles, s.pcs, |roles|) + if Printing(roles, s) then |roles| + 1 else 0
  }

  lemma PrintingSame(roles: string, s: State, s': State)
    requires forall t :: (Holds(roles, s', t) && s'.pcs[t] == Printed) <==> (Holds(roles, s, t) && s.pcs[t] == Printed)
    ensures Printing(roles, s') <==> Printing(roles, s)
  {
    if Printing(roles, s) {
      var t :| Holds(roles, s, t) && s.pcs[t] == Printed;
      assert Holds(roles, s', t) && s'.pcs[t] == Printed;
    }
  }

  /** A test or a wake-up moves one thread and prints nothing. */
  lemma SlackMove(roles: string, s: State, t: nat, s': State)
    requires |s.pcs| == |s'.pcs| == |roles| && t < |roles| && s.pcs[t] != Printed && s'.pcs[t] != Printed
    requires s'.pcs == s.pcs[t := s'.pcs[t]]
    ensures Slack(roles, s') == Slack(roles, s) +
            if IsBracket(roles[t]) then (if s'.pcs[t] == Ready then 1 else 0) - (if s.pcs[t] == Ready then 1 else 0) else 0
  {
    TryingUpdate(roles, s.pcs, |roles|, t, s'.pcs[t]);
    PrintingSame(roles, s, s');
  }

  lemma SlackFinish(roles: string, s: State, t: nat, s': State)
    requires Inv(roles, s) && Enabled(roles, s, Finish(t)) && s' == Apply(roles, s, Finish(t))
    ensures if IsBracket(roles[t]) then Slack(roles, s') < Slack(roles, s) else Slack(roles, s') == Slack(roles, s)
  {
    if IsBracket(roles[t]) {
      assert Holds(roles, s, t);
      assert Printing(roles, s);
      assert forall u :: Holds(roles, s', u) ==> Holds(roles, s, u) && u != t;
      assert !Printing(roles, s');
    } else {
      TryingSame(roles, s.pcs, s'.pcs, |roles|);
      PrintingSame(roles, s, s');
    }
  }

  /** Every action of a bracket thread that does not print uses up slack; a wake-up gives back at most one. */
  lemma SlackStep(roles: string, s: State, a: Action, s': State)
    requires Inv(roles, s) && Enabled(roles, s, a) && s' == Apply(roles, s, a) && !(ByBracket(roles, a) && a.Put?)
    ensures Slack(roles, s') + (if ByBracket(roles, a) && !a.Wake? then 1 else 0) <= Slack(roles, s) + if a.Wake? then 1 else 0
  {
    match a
    case Test(t) => SlackMove(roles, s, t, s');
    case Wake(t) => SlackMove(roles, s, t, s');
    case Finish(t) => SlackFinish(roles, s, t, s');
    case Put(t) =>
      TryingSame(roles, s.pcs, s'.pcs, |roles|);
      PrintingSame(roles, s, s');
  }

  lemma {:induction false} SlackRunsOut(roles: string, s: State, todo: seq<Action>)
    requires Inv(roles, s) && Perform(roles, s, todo).Some?
    requires forall a :: a in todo ==> !(ByBracket(roles, a) && a.Put?)
    ensures Busy(roles, todo) <= Slack(roles, s) + Wakes(todo)
    decreases |todo|
  {
    if todo != [] {
      var a := todo[0];
      assert a in todo;
      var s' := Apply(roles, s, a);
      SlackStep(roles, s, a, s');
      StepInv(roles, s, a);
      SlackRunsOut(roles, s', todo[1..]);
    }
  }

  /** Printing is bound to go on: from every reachable state, whatever the threads do, more than
      2 * |roles| + 1 actions of bracket threads, not counting one for each spurious wake-up, include
      the printing of a bracket. */
  lemma BracketIsForced(roles: string, run: seq<State>, k: nat, todo: seq<Action>)
    requires Run(roles, run) && k < |run| && Perform(roles, run[k], todo).Some?
    requires Busy(roles, todo) > 2 * |roles| + 1 + Wakes(todo)
    ensures exists a :: a in todo && ByBracket(roles, a) && a.Put?
  {
    RunInv(roles, run, k);
    if forall a :: a in todo ==> !(ByBracket(roles, a) && a.Put?) {
      SlackRunsOut(roles, run[k], todo);
    }
  }
}
