/**
 The bracket monitor: threads print brackets, a quota token admits one at a time, and the
 buffer of open brackets decides who may be next.
 */
module BracketMonitor {

  const ROUND_OPEN := '('
  const ROUND_CLOSE := ')'
  const SQUARE_OPEN := '['
  const SQUARE_CLOSE := ']'
  const MAX := 4

  predicate IsOpener(c: char) {
    c == ROUND_OPEN || c == SQUARE_OPEN
  }

  predicate IsCloser(c: char) {
    c == ROUND_CLOSE || c == SQUARE_CLOSE
  }

  predicate IsBracket(c: char) {
    IsOpener(c) || IsCloser(c)
  }

  predicate Pairs(open: char, close: char) {
    (open == ROUND_OPEN && close == ROUND_CLOSE) || (open == SQUARE_OPEN && close == SQUARE_CLOSE)
  }

  /** Open brackets that may stand together: square ones first, at most MAX in all. */
  predicate Nested(s: string) {
    |s| <= MAX && (forall i :: 0 <= i < |s| ==> IsOpener(s[i])) &&
    forall i, j :: 0 <= i < j < |s| && s[i] == ROUND_OPEN ==> s[j] == ROUND_OPEN
  }

  // ----- the admission tests -------------------------------------------------------------

  /** The buffers that may exist after an opening bracket. */
  const STATES: seq<string> := [
    "((((", "[(((", "[[((", "[[[(", "[[[[",
    "(((", "[((", "[[(", "[[[",
    "((", "[(", "[[",
    "(", "["
  ]

  /** The table lists every nonempty nested buffer and nothing else. */
  lemma StatesExact(s: string)
    ensures s in STATES <==> s != "" && Nested(s)
  {
    if s != "" && Nested(s) {
      if |s| == 1 {
        assert s == [s[0]];
      } else if |s| == 2 {
        assert s == [s[0], s[1]];
      } else if |s| == 3 {
        assert s == [s[0], s[1], s[2]];
      } else {
        assert s == [s[0], s[1], s[2], s[3]];
      }
    }
  }

  // ----- the shared state and what the critical sections do to it ------------------------

  datatype Shared = Shared(buff: string, count: int, quota: int)

  const INITIAL := Shared("", 0, 1)

  predicate Closes(buff: string, ch: char) {
    buff != "" && Pairs(buff[|buff| - 1], ch)
  }

  /** The loop condition of brac_before fails, so the thread goes ahead. */
  predicate Admits(s: Shared, ch: char) {
    if IsOpener(ch) then Nested(s.buff + [ch]) && s.quota == 1 && s.count != MAX
    else if IsCloser(ch) then Closes(s.buff, ch) && s.quota == 1 && s.count != 0
    else true
  }

  function Taken(s: Shared, ch: char): Shared {
    if IsBracket(ch) then s.(quota := s.quota - 1) else s
  }

  function Finished(s: Shared, ch: char): Shared
    requires IsCloser(ch) ==> s.buff != ""
  {
    if IsOpener(ch) then Shared(s.buff + [ch], s.count + 1, s.quota + 1)
    else if IsCloser(ch) then Shared(s.buff[..|s.buff| - 1], s.count - 1, s.quota + 1)
    else s
  }

  /** The text of a C buffer: what stands before the first NUL. */
  function CText(a: seq<char>): (s: string)
    ensures |s| <= |a| && s == a[..|s|] && (|s| < |a| ==> a[|s|] == '\0')
    ensures forall i :: 0 <= i < |s| ==> s[i] != '\0'
  {
    if a == [] || a[0] == '\0' then "" else [a[0]] + CText(a[1..])
  }

  lemma CTextIs(a: seq<char>, s: string)
    requires |s| < |a| && s == a[..|s|] && a[|s|] == '\0'
    requires forall i :: 0 <= i < |s| ==> s[i] != '\0'
    ensures CText(a) == s
  {
    var t := CText(a);
    var k := if |t| < |s| then |t| else |s|;
    assert a[k] == '\0';
    assert s[..k] == t[..k];
  }

  /** The globals of the program, guarded by one mutex. */
  class Monitor {
    const buff: array<char>
    var count: int
    var quota: int

    ghost predicate Valid()
      reads this, buff
    {
      buff.Length == MAX + 1 && Nested(CText(buff[..]))
    }

    ghost function View(): Shared
      reads this, buff
    {
      Shared(CText(buff[..]), count, quota)
    }

    constructor ()
      ensures Valid() && View() == INITIAL && fresh(buff)
    {
      buff := new char[MAX + 1](_ => '\0');
      count := 0;
      quota := 1;
    }

    method StrLen() returns (len: nat)
      requires Valid()
      ensures len == |CText(buff[..])| && len <= MAX
    {
      len := 0;
      while buff[len] != '\0'
        invariant 0 <= len <= |CText(buff[..])|
        decreases MAX - len
      {
        len := len + 1;
      }
    }

    /** Is the buffer with `ch` appended one of the listed states? */
    method TestProducer(ch: char) returns (r: bool)
      requires Valid()
      ensures r <==> Nested(CText(buff[..]) + [ch])
    {
      var len := StrLen();
      var tmp := buff[..len] + [ch];
      r := false;
      var i := 0;
      while i < |STATES|
        invariant 0 <= i <= |STATES| && (!r ==> tmp !in STATES[..i]) && (r ==> tmp in STATES)
      {
        if tmp == STATES[i] {
          r := true;
          break;
        }
        i := i + 1;
      }
      StatesExact(tmp);
    }

    /** Does `ch` close the last open bracket? */
    method TestConsumer(ch: char) returns (r: bool)
      requires Valid()
      ensures r <==> Closes(CText(buff[..]), ch)
    {
      var len := StrLen();
      if len < 1 {
        return false;
      }
      var bit := 0;
      while bit < MAX
        invariant 0 <= bit <= len
      {
        if buff[bit] == '\0' {
          break;
        }
        bit := bit + 1;
      }
      bit := bit - 1;
      if buff[bit] == ROUND_OPEN && ch == ROUND_CLOSE {
        return true;
      }
      if buff[bit] == SQUARE_OPEN && ch == SQUARE_CLOSE {
        return true;
      }
      return false;
    }

    /** One evaluation of the loop of brac_before under the mutex: take the quota, or have to wait. */
    method TryBefore(ch: char) returns (taken: bool)
      requires Valid()
      modifies this
      ensures Valid()
      ensures taken == old(Admits(View(), ch))
      ensures View() == if taken then Taken(old(View()), ch) else old(View())
    {
      taken := true;
      if IsOpener(ch) {
        var ok := TestProducer(ch);
        if !ok || quota != 1 || count == MAX {
          return false;
        }
        quota := quota - 1;
      }
      if IsCloser(ch) {
        var ok := TestConsumer(ch);
        if !ok || quota != 1 || count == 0 {
          return false;
        }
        quota := quota - 1;
      }
    }

    /** brac_after, for a thread that was admitted. */
    method After(ch: char)
      requires Valid()
      requires IsOpener(ch) ==> Nested(View().buff + [ch])
      requires IsCloser(ch) ==> View().buff != ""
      modifies this, buff
      ensures Valid()
      ensures View() == Finished(old(View()), ch)
    {
      ghost var s := CText(buff[..]);
      if IsOpener(ch) {
        var len := StrLen();
        buff[len], buff[len + 1] := ch, '\0';
        CTextIs(buff[..], s + [ch]);
        count := count + 1;
        quota := quota + 1;
      }
      if IsCloser(ch) {
        var len := StrLen();
        buff[len - 1] := '\0';
        CTextIs(buff[..], s[..len - 1]);
        count := count - 1;
        quota := quota + 1;
      }
    }
  }
}
