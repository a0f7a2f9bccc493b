/**
 pstree's table of user names: the first users asked for are remembered, by the first eight
 characters of their names. The password database does not change during a run.
 */
module UserNames {
  import opened PstreeText
  import opened SeqFacts

  const NUMUN := 128

  type Uid = u: int | 0 <= u < 0x1_0000_0000

  datatype User = User(uid: Uid, name: string)

  /** A copy into a buffer with room for n characters. */
  function Clip(s: string, n: nat): (r: string)
    ensures r <= s && (|s| <= n ==> r == s) && (|s| > n ==> |r| == n)
  {
    if |s| <= n then s else s[..n]
  }

  /** The name itself, or the user number as "#%d" writes it. */
  function Name(passwd: map<Uid, string>, uid: Uid): string {
    if uid in passwd then passwd[uid]
    else "#" + PaddedText(if uid < 0x8000_0000 then uid else uid - 0x1_0000_0000, 1)
  }

  /** The name of a user the database does not know: '#' and the number, read as a signed 32-bit value. */
  lemma UnknownUser(passwd: map<Uid, string>, uid: Uid)
    requires uid !in passwd
    ensures var r := Name(passwd, uid);
            r != "" && r[0] == '#' && ParsePid(r[1..]) == if uid < 0x8000_0000 then uid else uid - 0x1_0000_0000
  {
    PaddedRoundTrip(if uid < 0x8000_0000 then uid else uid - 0x1_0000_0000, 1);
  }

  // ----- who is remembered ---------------------------------------------------------------

  function Noted(known: seq<Uid>, uid: Uid): seq<Uid> {
    if uid in known || |known| >= NUMUN then known else known + [uid]
  }

  /** The users remembered after these calls. */
  function Known(calls: seq<Uid>): seq<Uid> {
    if calls == [] then [] else Noted(Known(calls[..|calls| - 1]), calls[|calls| - 1])
  }

  function Asked(calls: seq<Uid>): set<Uid> {
    set u | u in calls
  }

  /** The user was asked for when fewer than NUMUN users had been. */
  ghost predicate EarlyAt(calls: seq<Uid>, uid: Uid, i: nat) {
    i < |calls| && calls[i] == uid && |Asked(calls[..i])| < NUMUN
  }

  ghost predicate Early(calls: seq<Uid>, uid: Uid) {
    exists i :: EarlyAt(calls, uid, i)
  }

  lemma EarlySnoc(front: seq<Uid>, x: Uid, calls: seq<Uid>, uid: Uid)
    requires calls == front + [x]
    ensures Early(calls, uid) <==> Early(front, uid) || (uid == x && |Asked(front)| < NUMUN)
  {
    assert calls[..|front|] == front;
    forall i: nat | i < |front|
      ensures EarlyAt(calls, uid, i) <==> EarlyAt(front, uid, i)
    {
      assert calls[..i] == front[..i];
    }
    if uid == x && |Asked(front)| < NUMUN {
      assert EarlyAt(calls, uid, |front|);
    }
  }

  /** As many distinct users as the table has room for: all of them, or NUMUN. */
  ghost predicate Fills(known: seq<Uid>, calls: seq<Uid>) {
    Distinct(known) && |known| <= NUMUN && Asked(known) <= Asked(calls) &&
    if |Asked(calls)| <= NUMUN then Asked(known) == Asked(calls) else |known| == NUMUN
  }

  lemma {:induction false} DistinctSize(s: seq<Uid>)
    requires Distinct(s)
    ensures |Asked(s)| == |s|
    decreases |s|
  {
    if s != [] {
      var front := s[..|s| - 1];
      DistinctSize(front);
      assert Asked(s) == Asked(front) + {s[|s| - 1]};
    }
  }

  lemma NotedFills(known: seq<Uid>, front: seq<Uid>, x: Uid, calls: seq<Uid>)
    requires Fills(known, front) && calls == front + [x]
    ensures Fills(Noted(known, x), calls)
    ensures x in Noted(known, x) <==> x in known || |Asked(front)| < NUMUN
  {
    DistinctSize(known);
    assert Asked(calls) == Asked(front) + {x};
    assert Asked(known + [x]) == Asked(known) + {x};
    if x in front {
      assert x in Asked(front);
      assert Asked(calls) == Asked(front);
    } else {
      assert |Asked(calls)| == |Asked(front)| + 1;
    }
  }

  /** The remembered users are distinct, at most NUMUN, and exactly those asked for early enough. */
  lemma {:induction false} KnownExact(calls: seq<Uid>)
    ensures Fills(Known(calls), calls)
    ensures forall u :: u in Known(calls) <==> Early(calls, u)
    decreases |calls|
  {
    if calls != [] {
      var front, x := calls[..|calls| - 1], calls[|calls| - 1];
      KnownExact(front);
      NotedFills(Known(front), front, x, calls);
      forall u: Uid
        ensures u in Known(calls) <==> Early(calls, u)
      {
        EarlySnoc(front, x, calls, u);
      }
    }
  }

  // ----- the table -----------------------------------------------------------------------

  /** The table holds these users, each with a name of at most eight characters. */
  ghost predicate Holds(un: array<User>, n: nat, known: seq<Uid>, lookup: Uid -> string)
    reads un
  {
    un.Length == NUMUN && n <= NUMUN && n == |known| &&
    forall i {:trigger un[i]} :: 0 <= i < n ==> un[i] == User(known[i], Clip(lookup(known[i]), 8))
  }

  /** The full answer is given unless a name over eight characters was remembered and the buffer would show more. */
  lemma FullAnswer(full: string, len: nat, hit: bool)
    requires len > 0
    ensures Clip(Clip(full, if hit then 8 else len), len - 1) == Clip(full, len - 1) <==> (hit ==> |full| <= 8 || len <= 9)
  {
  }

  /** A name of nine characters is cut the second time it is asked for, though the buffer has room for it. */
  lemma LongNameIsCut(passwd: map<Uid, string>, uid: Uid)
    requires passwd == map[1000 := "alexander"] && uid == 1000
    ensures Early([uid], uid)
    ensures Clip(Clip(Name(passwd, uid), 8), 31) == "alexande" != Clip(Name(passwd, uid), 31)
  {
    assert Asked([]) == {};
    assert EarlyAt([uid], uid, 0);
  }

  class NameCache {
    const lookup: Uid -> string
    const un: array<User>
    var n: nat
    ghost var calls: seq<Uid>

    ghost predicate Valid()
      reads this, un
    {
      Holds(un, n, Known(calls), lookup)
    }

    constructor (passwd: map<Uid, string>)
      ensures Valid() && calls == [] && fresh(un) && forall u :: lookup(u) == Name(passwd, u)
    {
      this.lookup := (u: Uid) => Name(passwd, u);
      un := new User[NUMUN](_ => User(0, ""));
      n, calls := 0, [];
    }

    /** The entry of the user, or -1. */
    method Find(uid: Uid, ghost known: seq<Uid>) returns (i: int)
      requires Holds(un, n, known, lookup)
      ensures if uid in known then 0 <= i < n && un[i] == User(uid, Clip(lookup(uid), 8)) else i == -1
    {
      i := n - 1;
      while i >= 0 && un[i].uid != uid
        invariant -1 <= i < n
        invariant forall k :: i < k < n ==> known[k] != uid
      {
        i := i - 1;
      }
    }

    /** The lookup, with what the table holds as a parameter. */
    method LookUp(uid: Uid, ghost known: seq<Uid>) returns (found: string)
      requires Holds(un, n, known, lookup)
      modifies this`n, un
      ensures Holds(un, n, Noted(known, uid), lookup)
      ensures found == Clip(lookup(uid), if uid in known then 8 else |lookup(uid)|)
    {
      var i := Find(uid, known);
      if i >= 0 {
        found := un[i].name;
      } else {
        found := lookup(uid);
        if n < NUMUN {
          un[n] := User(uid, Clip(found, 8));
          n := n + 1;
        }
      }
    }

    /**
     The answer is the user's name cut to the caller's buffer, and to eight characters for a
     user asked for before, among the first NUMUN. So it is the full answer unless such a
     user's name is longer than eight characters and the buffer would have shown it.
     */
    method NameOf(uid: Uid, len: nat) returns (name: string)
      requires Valid() && len > 0
      modifies this, un
      ensures Valid() && calls == old(calls) + [uid]
      ensures name == Clip(Clip(lookup(uid), if Early(old(calls), uid) then 8 else len), len - 1)
      ensures name == Clip(lookup(uid), len - 1) <==>
        (Early(old(calls), uid) ==> |lookup(uid)| <= 8 || len <= 9)
    {
      KnownExact(calls);
      FullAnswer(lookup(uid), len, Early(calls, uid));
      var found := LookUp(uid, Known(calls));
      calls := calls + [uid];
      assert calls[..|calls| - 1] == old(calls);
      name := Clip(found, len - 1);
    }
  }

  /** The same question asked twice gets two answers. */
  method AskTwice() returns (first: string, second: string)
    ensures first == "alexander" && second == "alexande"
  {
    var uid: Uid := 1000;
    var passwd: map<Uid, string> := map[uid := "alexander"];
    var cache := new NameCache(passwd);
    LongNameIsCut(passwd, uid);
    first := cache.NameOf(uid, 32);
    second := cache.NameOf(uid, 32);
  }
}
