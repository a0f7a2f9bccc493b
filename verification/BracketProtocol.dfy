/**
 The bracket monitor as a transition system: any number of threads, any interleaving of the
 critical sections, wake-ups by broadcast and spurious ones.
 */
module BracketProtocol {
  import opened Wrappers
  import opened BracketMonitor

  /** Where a thread is: about to test, asleep on its condition variable, admitted but not yet
      printing, or printed but not yet through brac_after. */
  datatype Pc = Ready | Asleep | Admitted | Printed

  datatype State = State(shared: Shared, pcs: seq<Pc>, out: string)

  datatype Action = Test(t: nat) | Put(t: nat) | Finish(t: nat) | Wake(t: nat)

  predicate Init(roles: string, s: State) {
    s.shared == INITIAL && s.out == "" && |s.pcs| == |roles| &&
    forall t :: 0 <= t < |roles| ==> s.pcs[t] == Ready
  }

  predicate Enabled(roles: string, s: State, a: Action) {
    |s.pcs| == |roles| && a.t < |roles| &&
    match a
    case Test(t) => s.pcs[t] == Ready
    case Put(t) => s.pcs[t] == Admitted
    case Finish(t) => s.pcs[t] == Printed && (IsCloser(roles[t]) ==> s.shared.buff != "")
    case Wake(t) => s.pcs[t] == Asleep
  }

  /** An opener wakes the closers, a closer wakes the openers. */
  predicate WokenBy(finisher: char, role: char) {
    (IsOpener(finisher) && IsCloser(role)) || (IsCloser(finisher) && IsOpener(role))
  }

  function Broadcast(roles: string, pcs: seq<Pc>, finisher: char): (r: seq<Pc>)
    requires |pcs| == |roles|
    ensures |r| == |pcs|
    ensures forall t {:trigger r[t]} :: 0 <= t < |r| ==>
      r[t] == if pcs[t] == Asleep && WokenBy(finisher, roles[t]) then Ready else pcs[t]
  {
    seq(|pcs|, t requires 0 <= t < |pcs| =>
      if pcs[t] == Asleep && WokenBy(finisher, roles[t]) then Ready else pcs[t])
  }

  function Apply(roles: string, s: State, a: Action): (s': State)
    requires Enabled(roles, s, a)
    ensures |s'.pcs| == |roles|
  {
    match a
    case Test(t) =>
      if Admits(s.shared, roles[t]) then s.(shared := Taken(s.shared, roles[t]), pcs := s.pcs[t := Admitted])
      else s.(pcs := s.pcs[t := Asleep])
    case Put(t) =>
      s.(out := s.out + [roles[t]], pcs := s.pcs[t := Printed])
    case Finish(t) =>
      s.(shared := Finished(s.shared, roles[t]), pcs := Broadcast(roles, s.pcs, roles[t])[t := Ready])
    case Wake(t) =>
      s.(pcs := s.pcs[t := Ready])
  }

  ghost predicate Step(roles: string, s: State, s': State) {
    exists a :: Enabled(roles, s, a) && s' == Apply(roles, s, a)
  }

  ghost predicate StepAt(roles: string, run: seq<State>, k: nat) {
    0 < k < |run| && Step(roles, run[k - 1], run[k])
  }

  /** A run: any interleaving of steps of the threads, from the start. */
  ghost predicate Run(roles: string, run: seq<State>) {
    run != [] && Init(roles, run[0]) &&
    forall k: nat {:trigger StepAt(roles, run, k)} :: 0 < k < |run| ==> StepAt(roles, run, k)
  }

  // ----- what has been printed -----------------------------------------------------------

  /** Open brackets after printing `c` on top of `stack`; None when that is not allowed. */
  function Push(stack: string, c: char): Option<string> {
    if IsOpener(c) then (if Nested(stack + [c]) then Some(stack + [c]) else None)
    else if IsCloser(c) then (if Closes(stack, c) then Some(stack[..|stack| - 1]) else None)
    else Some(stack)
  }

  /** The open brackets after `out`, if every prefix of it is allowed. */
  function Replay(out: string): Option<string> {
    if out == "" then Some("")
    else match Replay(out[..|out| - 1])
      case None => None
      case Some(stack) => Push(stack, out[|out| - 1])
  }

  lemma ReplaySnoc(out: string, c: char)
    ensures Replay(out + [c]) == match Replay(out) case None => None case Some(stack) => Push(stack, c)
  {
    assert (out + [c])[..|out|] == out;
  }

  // ----- the invariant -------------------------------------------------------------------

  predicate Active(pc: Pc) {
    pc == Admitted || pc == Printed
  }

  /** Thread `t` holds the quota. */
  predicate Holds(roles: string, s: State, t: int) {
    0 <= t < |roles| && t < |s.pcs| && IsBracket(roles[t]) && Active(s.pcs[t])
  }

  /** The quota is out exactly when one thread holds it. */
  ghost predicate OneHolder(roles: string, s: State) {
    && (s.shared.quota == 0 || s.shared.quota == 1)
    && (forall t, u :: Holds(roles, s, t) && Holds(roles, s, u) ==> t == u)
    && (s.shared.quota == 0 <==> exists t :: Holds(roles, s, t))
  }

  /** Whoever holds the quota was admitted to the buffer as it still is, and the text agrees with it. */
  ghost predicate TextFits(roles: string, s: State) {
    && (s.shared.quota == 1 ==> Replay(s.out) == Some(s.shared.buff))
    && forall t {:trigger Holds(roles, s, t)} :: Holds(roles, s, t) ==>
         && Push(s.shared.buff, roles[t]).Some?
         && Replay(s.out) == if s.pcs[t] == Admitted then Some(s.shared.buff) else Push(s.shared.buff, roles[t])
  }

  /** No thread with role `c` is asleep. */
  ghost predicate AllAwake(roles: string, s: State, c: char)
    requires |s.pcs| == |roles|
  {
    forall t :: 0 <= t < |roles| && roles[t] == c ==> s.pcs[t] != Asleep
  }

  function CloserOf(open: char): char {
    if open == ROUND_OPEN then ROUND_CLOSE else SQUARE_CLOSE
  }

  /** While the quota is free, a role that may go ahead has none of its threads asleep. */
  ghost predicate WakeUpsKept(roles: string, s: State)
    requires |s.pcs| == |roles|
  {
    s.shared.quota == 1 ==>
      var b := s.shared.buff;
      (|b| < MAX && AllAwake(roles, s, ROUND_OPEN)) ||
      (b != "" && AllAwake(roles, s, CloserOf(b[|b| - 1])))
  }

  ghost predicate Inv(roles: string, s: State) {
    && |s.pcs| == |roles|
    && Nested(s.shared.buff) && s.shared.count == |s.shared.buff|
    && OneHolder(roles, s) && TextFits(roles, s) && WakeUpsKept(roles, s)
  }

  lemma InitInv(roles: string, s: State)
    requires Init(roles, s)
    ensures Inv(roles, s)
  {
  }

  lemma PushNested(b: string, c: char)
    requires Nested(b) && Push(b, c).Some?
    ensures Nested(Push(b, c).value)
  {
  }

  /** A test leaves the other threads where they are. */
  lemma TestInv(roles: string, s: State, t: nat)
    requires Inv(roles, s) && Enabled(roles, s, Test(t))
    ensures Inv(roles, Apply(roles, s, Test(t)))
  {
    var s' := Apply(roles, s, Test(t));
    assert !Holds(roles, s, t);
    assert forall u :: u != t ==> Holds(roles, s', u) == Holds(roles, s, u);
    if Admits(s.shared, roles[t]) && IsBracket(roles[t]) {
      assert Holds(roles, s', t);
    } else {
      assert !Holds(roles, s', t);
    }
  }

  lemma PutInv(roles: string, s: State, t: nat)
    requires Inv(roles, s) && Enabled(roles, s, Put(t))
    ensures Inv(roles, Apply(roles, s, Put(t)))
  {
    var s' := Apply(roles, s, Put(t));
    assert forall u :: Holds(roles, s', u) == Holds(roles, s, u);
    ReplaySnoc(s.out, roles[t]);
    if IsBracket(roles[t]) {
      assert Holds(roles, s, t);
    }
  }

  lemma FinishInv(roles: string, s: State, t: nat)
    requires Inv(roles, s) && Enabled(roles, s, Finish(t))
    ensures Inv(roles, Apply(roles, s, Finish(t)))
  {
    var s' := Apply(roles, s, Finish(t));
    assert !Holds(roles, s', t);
    assert forall u :: u != t ==> Holds(roles, s', u) == Holds(roles, s, u);
    if IsBracket(roles[t]) {
      assert Holds(roles, s, t);
      PushNested(s.shared.buff, roles[t]);
    }
  }

  lemma WakeInv(roles: string, s: State, t: nat)
    requires Inv(roles, s) && Enabled(roles, s, Wake(t))
    ensures Inv(roles, Apply(roles, s, Wake(t)))
  {
    var s' := Apply(roles, s, Wake(t));
    assert forall u :: Holds(roles, s', u) == Holds(roles, s, u);
  }

  lemma StepInv(roles: string, s: State, a: Action)
    requires Inv(roles, s) && Enabled(roles, s, a)
    ensures Inv(roles, Apply(roles, s, a))
  {
    match a
    case Test(t) => TestInv(roles, s, t);
    case Put(t) => PutInv(roles, s, t);
    case Finish(t) => FinishInv(roles, s, t);
    case Wake(t) => WakeInv(roles, s, t);
  }

  /** The invariant holds in every state of every run. */
  lemma {:induction false} RunInv(roles: string, run: seq<State>, k: nat)
    requires Run(roles, run) && k < |run|
    ensures Inv(roles, run[k])
  {
    if k == 0 {
      InitInv(roles, run[0]);
    } else {
      RunInv(roles, run, k - 1);
      assert StepAt(roles, run, k);
      var a :| Enabled(roles, run[k - 1], a) && run[k] == Apply(roles, run[k - 1], a);
      StepInv(roles, run[k - 1], a);
    }
  }

  // ----- safety --------------------------------------------------------------------------

  /** Balanced words, by their grammar. */
  datatype Word = Empty | Wrap(open: char, inner: Word, rest: Word)

  function Text(w: Word): string {
    match w
    case Empty => ""
    case Wrap(open, inner, rest) => [open] + Text(inner) + [CloserOf(open)] + Text(rest)
  }

  /** At depth `d` the word stays within 4 levels and opens no square bracket inside a round one. */
  predicate Fits(w: Word, d: nat, inRound: bool) {
    match w
    case Empty => true
    case Wrap(open, inner, rest) =>
      d < 4 && IsOpener(open) && (inRound ==> open == ROUND_OPEN) &&
      Fits(inner, d + 1, open == ROUND_OPEN) && Fits(rest, d, inRound)
  }

  /** The brackets of a text, without anything else. */
  function BracketsOf(s: string): string {
    if s == "" then "" else (if IsBracket(s[0]) then [s[0]] else "") + BracketsOf(s[1..])
  }

  /** The closing brackets that complete a stack of open ones. */
  function Closing(stack: string): string {
    if stack == "" then "" else [CloserOf(stack[|stack| - 1])] + Closing(stack[..|stack| - 1])
  }

  /** The open brackets after reading `v` on top of `stack`. */
  function ReplayFrom(stack: string, v: string): Option<string>
    decreases |v|
  {
    if v == "" then Some(stack)
    else match Push(stack, v[0])
      case None => None
      case Some(next) => ReplayFrom(next, v[1..])
  }

  lemma {:induction false} ReplayFromSnoc(stack: string, v: string, c: char)
    ensures ReplayFrom(stack, v + [c]) == match ReplayFrom(stack, v) case None => None case Some(x) => Push(x, c)
    decreases |v|
  {
    if v == "" {
      assert v + [c] == [c] && [c][1..] == "";
    } else {
      assert (v + [c])[1..] == v[1..] + [c];
      match Push(stack, v[0])
      case None =>
      case Some(next) => ReplayFromSnoc(next, v[1..], c);
    }
  }

  lemma {:induction false} ReplayForward(out: string)
    ensures ReplayFrom("", out) == Replay(out)
  {
    if out != "" {
      var front, c := out[..|out| - 1], out[|out| - 1];
      ReplayForward(front);
      ReplayFromSnoc("", front, c);
      assert out == front + [c];
    }
  }

  /** `v` is the words `ws`, one for each level of `stack` from the top down to the ground, with the
      brackets that close those levels between them. */
  ghost predicate Spells(stack: string, ws: seq<Word>, v: string)
    decreases |stack|
  {
    |ws| == |stack| + 1 && Fits(ws[0], |stack|, stack != "" && stack[|stack| - 1] == ROUND_OPEN) &&
    if stack == "" then v == Text(ws[0])
    else Text(ws[0]) + [CloserOf(stack[|stack| - 1])] <= v &&
         Spells(stack[..|stack| - 1], ws[1..], v[|Text(ws[0])| + 1..])
  }

  /** A text that can be read down to an empty stack spells words. */
  lemma {:induction false} ParseWords(stack: string, v: string) returns (ws: seq<Word>)
    requires Nested(stack) && ReplayFrom(stack, v) == Some("")
    requires forall i :: 0 <= i < |v| ==> IsBracket(v[i])
    ensures Spells(stack, ws, v)
    decreases |v|
  {
    if v == "" {
      ws := [Empty];
    } else if IsOpener(v[0]) {
      var up := stack + [v[0]];
      var us := ParseWords(up, v[1..]);
      ws := WrapTop(stack, v, us);
    } else {
      var us := ParseWords(stack[..|stack| - 1], v[1..]);
      ws := [Empty] + us;
      assert ws[1..] == us;
      assert Text(Empty) + [CloserOf(stack[|stack| - 1])] == [v[0]];
    }
  }

  lemma WrapTop(stack: string, v: string, us: seq<Word>) returns (ws: seq<Word>)
    requires v != "" && IsOpener(v[0]) && Nested(stack + [v[0]]) && Spells(stack + [v[0]], us, v[1..])
    ensures Spells(stack, ws, v)
  {
    var up := stack + [v[0]];
    assert up[..|up| - 1] == stack;
    var tail := v[1..][|Text(us[0])| + 1..];
    assert Spells(stack, us[1..], tail);
    var w := Wrap(v[0], us[0], us[1]);
    ws := [w] + us[2..];
    assert ws[1..] == us[1..][1..];
    SplitFirst(v, Text(us[0]), CloserOf(v[0]));
    if stack != "" {
      ShiftTail([v[0]] + Text(us[0]) + [CloserOf(v[0])], Text(us[1]), CloserOf(stack[|stack| - 1]), tail, v);
    }
  }

  lemma SplitFirst(v: string, a: string, c: char)
    requires v != "" && a + [c] <= v[1..]
    ensures v == [v[0]] + a + [c] + v[1..][|a| + 1..]
  {
  }

  lemma ShiftTail(a: string, b: string, c: char, tail: string, v: string)
    requires v == a + tail && b + [c] <= tail
    ensures (a + b) + [c] <= v && v[|a + b| + 1..] == tail[|b| + 1..]
  {
    var rest := tail[|b| + 1..];
    assert tail == b + [c] + rest;
    assert v == (a + b) + [c] + rest;
  }

  lemma {:induction false} ReplayFromConcat(stack: string, a: string, b: string)
    ensures ReplayFrom(stack, a + b) == match ReplayFrom(stack, a) case None => None case Some(x) => ReplayFrom(x, b)
    decreases |b|
  {
    if b == "" {
      assert a + b == a;
    } else {
      var front, c := b[..|b| - 1], b[|b| - 1];
      ReplayFromConcat(stack, a, front);
      ReplayFromSnoc(stack, a + front, c);
      assert a + b == (a + front) + [c] && b == front + [c];
      match ReplayFrom(stack, a)
      case None =>
      case Some(x) => ReplayFromSnoc(x, front, c);
    }
  }

  /** Anything that is not a bracket leaves the stack alone. */
  lemma {:induction false} ReplayIgnoresRest(stack: string, v: string)
    ensures ReplayFrom(stack, BracketsOf(v)) == ReplayFrom(stack, v)
    decreases |v|
  {
    if v != "" {
      if IsBracket(v[0]) {
        assert ([v[0]] + BracketsOf(v[1..]))[1..] == BracketsOf(v[1..]);
        match Push(stack, v[0])
        case None =>
        case Some(next) => ReplayIgnoresRest(next, v[1..]);
      } else {
        assert BracketsOf(v) == BracketsOf(v[1..]);
        ReplayIgnoresRest(stack, v[1..]);
      }
    }
  }

  /** Closing what is open leaves nothing open. */
  lemma {:induction false} ClosingCloses(stack: string)
    requires Nested(stack)
    ensures ReplayFrom(stack, Closing(stack)) == Some("")
    decreases |stack|
  {
    if stack != "" {
      var front, c := stack[..|stack| - 1], CloserOf(stack[|stack| - 1]);
      assert IsOpener(stack[|stack| - 1]);
      ClosingCloses(front);
      assert ([c] + Closing(front))[1..] == Closing(front);
      assert Push(stack, c) == Some(front);
    }
  }

  lemma {:induction false} OnlyBrackets(v: string)
    ensures forall i :: 0 <= i < |BracketsOf(v)| ==> IsBracket(BracketsOf(v)[i])
  {
    if v != "" {
      OnlyBrackets(v[1..]);
    }
  }

  lemma {:induction false} ClosingIsBrackets(stack: string)
    ensures forall i :: 0 <= i < |Closing(stack)| ==> IsBracket(Closing(stack)[i])
    decreases |stack|
  {
    if stack != "" {
      ClosingIsBrackets(stack[..|stack| - 1]);
    }
  }

  /** Every text that replays is the beginning of a balanced word of the allowed shape. */
  lemma ReplayedIsPrefix(out: string, stack: string) returns (w: Word)
    requires Replay(out) == Some(stack) && Nested(stack)
    ensures Fits(w, 0, false) && Text(w) == BracketsOf(out) + Closing(stack)
  {
    var v := BracketsOf(out) + Closing(stack);
    ReplayForward(out);
    ReplayIgnoresRest("", out);
    ReplayFromConcat("", BracketsOf(out), Closing(stack));
    ClosingCloses(stack);
    OnlyBrackets(out);
    ClosingIsBrackets(stack);
    var ws := ParseWords("", v);
    w := ws[0];
  }

  lemma {:induction false} ReplayNested(out: string)
    ensures Replay(out).Some? ==> Nested(Replay(out).value)
  {
    if out != "" {
      ReplayNested(out[..|out| - 1]);
      match Replay(out[..|out| - 1])
      case None =>
      case Some(stack) =>
        if Push(stack, out[|out| - 1]).Some? {
          PushNested(stack, out[|out| - 1]);
        }
    }
  }

  /** In every state of every run, the brackets printed so far begin a balanced word at most 4
      deep with no square bracket opened inside a round one. */
  lemma OutputIsSafe(roles: string, run: seq<State>, k: nat)
    requires Run(roles, run) && k < |run|
    ensures exists w, rest :: Fits(w, 0, false) && Text(w) == BracketsOf(run[k].out) + rest
  {
    RunInv(roles, run, k);
    var s := run[k];
    assert Replay(s.out).Some? by {
      if s.shared.quota == 0 {
        var t :| Holds(roles, s, t);
      }
    }
    ReplayNested(s.out);
    var w := ReplayedIsPrefix(s.out, Replay(s.out).value);
  }

  /** `count` is the length of the buffer at all times, and whenever no thread is between brac_before
      and brac_after the buffer is the stack of unmatched brackets. */
  lemma BufferIsStack(roles: string, run: seq<State>, k: nat)
    requires Run(roles, run) && k < |run|
    ensures run[k].shared.count == |run[k].shared.buff| <= MAX
    ensures (forall t :: !Holds(roles, run[k], t)) ==> Replay(run[k].out) == Some(run[k].shared.buff)
  {
    RunInv(roles, run, k);
  }

  /** At most one thread is between brac_before and brac_after, and what it does there is possible. */
  lemma HoldersAreAlone(roles: string, run: seq<State>, k: nat, t: nat, u: nat)
    requires Run(roles, run) && k < |run|
    requires Holds(roles, run[k], t)
    ensures Holds(roles, run[k], u) ==> t == u
    ensures Enabled(roles, run[k], if run[k].pcs[t] == Admitted then Put(t) else Finish(t))
  {
    RunInv(roles, run, k);
  }

  // ----- progress ------------------------------------------------------------------------

  /** Each kind of bracket has a thread. */
  ghost predicate AllRoles(roles: string) {
    ROUND_OPEN in roles && ROUND_CLOSE in roles && SQUARE_OPEN in roles && SQUARE_CLOSE in roles
  }

  /** While the quota is free, some thread that would be admitted is ready to try. */
  lemma SomeoneCanGo(roles: string, s: State) returns (t: nat)
    requires Inv(roles, s) && AllRoles(roles) && s.shared.quota == 1
    ensures t < |roles| && IsBracket(roles[t]) && s.pcs[t] == Ready && Admits(s.shared, roles[t])
  {
    var b := s.shared.buff;
    if |b| < MAX && AllAwake(roles, s, ROUND_OPEN) {
      t :| t < |roles| && roles[t] == ROUND_OPEN;
      assert Nested(b + [ROUND_OPEN]);
    } else {
      var c := CloserOf(b[|b| - 1]);
      assert IsOpener(b[|b| - 1]);
      t :| t < |roles| && roles[t] == c;
    }
    assert !Holds(roles, s, t);
  }

  /** No deadlock: some thread holds the quota, or some thread that would be admitted is not asleep. */
  lemma NoDeadlock(roles: string, run: seq<State>, k: nat)
    requires Run(roles, run) && k < |run| && AllRoles(roles)
    ensures (exists t :: Holds(roles, run[k], t)) ||
            (exists t :: 0 <= t < |roles| && t < |run[k].pcs| && IsBracket(roles[t]) &&
                         run[k].pcs[t] == Ready && Admits(run[k].shared, roles[t]))
  {
    RunInv(roles, run, k);
    if run[k].shared.quota == 1 {
      var t := SomeoneCanGo(roles, run[k]);
    }
  }

  /** The state after a list of actions, if each of them is enabled in turn. */
  function Perform(roles: string, s: State, todo: seq<Action>): Option<State>
    decreases |todo|
  {
    if todo == [] then Some(s)
    else if !Enabled(roles, s, todo[0]) then None
    else Perform(roles, Apply(roles, s, todo[0]), todo[1..])
  }

  lemma PerformCons(roles: string, s: State, a: Action, todo: seq<Action>)
    requires Enabled(roles, s, a)
    ensures Perform(roles, s, [a] + todo) == Perform(roles, Apply(roles, s, a), todo)
  {
    assert ([a] + todo)[1..] == todo;
  }

  lemma TakeAndPut(roles: string, s: State) returns (t: nat)
    requires Inv(roles, s) && AllRoles(roles) && s.shared.quota == 1
    ensures t < |roles| && IsBracket(roles[t])
    ensures Enabled(roles, s, Test(t)) && Enabled(roles, Apply(roles, s, Test(t)), Put(t))
    ensures Apply(roles, Apply(roles, s, Test(t)), Put(t)).out == s.out + [roles[t]]
  {
    t := SomeoneCanGo(roles, s);
  }

  /** From every reachable state another bracket can be printed within three steps of the threads
      themselves, without any spurious wake-up. */
  lemma AnotherBracket(roles: string, run: seq<State>, k: nat) returns (todo: seq<Action>, t: nat)
    requires Run(roles, run) && k < |run| && AllRoles(roles)
    ensures |todo| <= 3 && forall a :: a in todo ==> !a.Wake?
    ensures t < |roles| && IsBracket(roles[t])
    ensures var end := Perform(roles, run[k], todo);
            end.Some? && end.value.out == run[k].out + [roles[t]]
  {
    RunInv(roles, run, k);
    var s := run[k];
    if s.shared.quota == 1 {
      t := TakeAndPut(roles, s);
      var s1 := Apply(roles, s, Test(t));
      todo := [Test(t)] + ([Put(t)] + []);
      PerformCons(roles, s1, Put(t), []);
      PerformCons(roles, s, Test(t), [Put(t)] + []);
    } else {
      var h :| Holds(roles, s, h);
      if s.pcs[h] == Admitted {
        t := h;
        todo := [Put(t)] + [];
        PerformCons(roles, s, Put(t), []);
      } else {
        var s1 := Apply(roles, s, Finish(h));
        FinishInv(roles, s, h);
        t := TakeAndPut(roles, s1);
        var s2 := Apply(roles, s1, Test(t));
        todo := [Finish(h)] + ([Test(t)] + ([Put(t)] + []));
        PerformCons(roles, s2, Put(t), []);
        PerformCons(roles, s1, Test(t), [Put(t)] + []);
        PerformCons(roles, s, Finish(h), [Test(t)] + ([Put(t)] + []));
      }
    }
  }

  /** A run can go on with any enabled action. */
  lemma Extend(roles: string, run: seq<State>, a: Action) returns (longer: seq<State>)
    requires Run(roles, run) && Enabled(roles, run[|run| - 1], a)
    ensures Run(roles, longer) && longer[|longer| - 1] == Apply(roles, run[|run| - 1], a)
  {
    longer := run + [Apply(roles, run[|run| - 1], a)];
    forall k | 0 < k < |longer|
      ensures Step(roles, longer[k - 1], longer[k])
    {
      if k < |run| {
        assert StepAt(roles, run, k);
      }
    }
  }
}
