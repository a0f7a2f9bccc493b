/**
 exec: building the initial user stack. Addresses are 32-bit and wrap; memory is the set of bytes
 written so far to the new address space.
 */
module ExecStack {

  const WORD := 0x1_0000_0000
  const PGSIZE := 4096
  const KERNBASE := 0x8000_0000
  const MAXARG := 32

  type Byte = b: int | 0 <= b < 256
  type Memory = map<int, Byte>

  function Wrap(x: int): (r: nat)
    ensures r < WORD
  {
    x % WORD
  }

  /** x & ~3 */
  function Align4(x: nat): (r: nat)
    ensures r <= x < r + 4 && r % 4 == 0
  {
    x / 4 * 4
  }

  /** Bytes of user memory that copyout may write: below sz and outside the guard page. */
  predicate UserByte(a: int, sz: int) {
    0 <= a < sz && !(sz - 2 * PGSIZE <= a < sz - PGSIZE)
  }

  /** copyout's whole range is writable. */
  predicate UserRange(va: int, n: int, sz: int) {
    forall a :: va <= a < va + n ==> UserByte(a, sz)
  }

  function Written(mem: Memory, va: int, bytes: seq<Byte>): (r: Memory)
    ensures forall a :: a in r <==> a in mem || va <= a < va + |bytes|
    ensures forall a :: a in mem && !(va <= a < va + |bytes|) ==> r[a] == mem[a]
    ensures forall a :: va <= a < va + |bytes| ==> r[a] == bytes[a - va]
    decreases |bytes|
  {
    if bytes == [] then mem
    else
      var n := |bytes| - 1;
      var m := Written(mem, va, bytes[..n]);
      m[va + n := bytes[n]]
  }

  /** The bytes at [a, a + |bytes|). */
  ghost predicate Holds(mem: Memory, a: int, bytes: seq<Byte>) {
    forall x {:trigger x in mem} {:trigger mem[x]} :: a <= x < a + |bytes| ==> x in mem && mem[x] == bytes[x - a]
  }

  lemma HoldsAt(mem: Memory, a: int, bytes: seq<Byte>, k: nat)
    requires Holds(mem, a, bytes) && k < |bytes|
    ensures a + k in mem && mem[a + k] == bytes[k]
  {
    assert a + k in mem;
  }

  lemma HoldsSlice(mem: Memory, a: int, bytes: seq<Byte>, i: nat, j: nat)
    requires Holds(mem, a, bytes) && i <= j <= |bytes|
    ensures Holds(mem, a + i, bytes[i..j])
  {
  }

  /** Bytes above what is rewritten stay. */
  lemma HoldsAbove(mem: Memory, r: Memory, a: int, s: seq<Byte>, lo: int, hi: int)
    requires Holds(mem, a, s) && Rewritten(mem, r, lo, hi) && hi <= a
    ensures Holds(r, a, s)
  {
  }

  lemma HoldsWritten(mem: Memory, va: int, bytes: seq<Byte>)
    ensures Holds(Written(mem, va, bytes), va, bytes)
  {
  }

  /** A C string: no NUL inside, and it fits the address space. */
  predicate CString(s: seq<Byte>) {
    |s| + 1 < WORD && forall k :: 0 <= k < |s| ==> s[k] != 0
  }

  /** sz is where allocuvm puts it: page aligned, with two pages below it, not above the kernel. */
  predicate StackTop(sz: int) {
    2 * PGSIZE <= sz <= KERNBASE && sz % PGSIZE == 0
  }

  lemma WrapIs(x: int)
    requires -WORD < x < WORD
    ensures Wrap(x) == if x < 0 then x + WORD else x
  {
  }

  /** Neither a wrapped range nor one that starts below the stack page is accepted. */
  lemma InPage(sz: int, sp: int, n: int, low: int, w: int)
    requires 2 * PGSIZE <= sz <= KERNBASE && sz - PGSIZE <= sp <= sz && 0 < n < WORD
    requires w == (if sp < n then sp - n + WORD else sp - n) && low <= w < low + 4 && UserRange(low, n, sz)
    ensures sz - PGSIZE <= low && low <= sp - n
  {
    var guard := sz - PGSIZE - 1;
    assert UserByte(low, sz) && UserByte(low + n - 1, sz) && !UserByte(guard, sz);
    assert low <= guard < low + n ==> UserByte(guard, sz);
  }

  /** A pushed range that copyout accepts stays inside the one stack page. */
  lemma StaysInPage(sz: int, sp: int, n: int, low: int)
    requires StackTop(sz) && sz - PGSIZE <= sp <= sz && 0 < n < WORD
    requires low == Align4(Wrap(sp - n)) && UserRange(low, n, sz)
    ensures sz - PGSIZE <= low && low <= sp - n && low % 4 == 0
  {
    WrapIs(sp - n);
    InPage(sz, sp, n, low, Wrap(sp - n));
  }

  // ----- words ---------------------------------------------------------------------------

  /** Little-endian bytes of a word. */
  function WordBytes(w: nat): (r: seq<Byte>)
    requires w < WORD
    ensures |r| == 4
  {
    var q1 := w / 256;
    var q2 := q1 / 256;
    var q3 := q2 / 256;
    [w % 256, q1 % 256, q2 % 256, q3]
  }

  function WordOf(b0: int, b1: int, b2: int, b3: int): int {
    b0 + 256 * (b1 + 256 * (b2 + 256 * b3))
  }

  lemma WordRoundTrip(w: nat)
    requires w < WORD
    ensures var b := WordBytes(w); WordOf(b[0], b[1], b[2], b[3]) == w
  {
  }

  // ----- reading a stack back ------------------------------------------------------------

  function ByteAt(mem: Memory, a: int): Byte {
    if a in mem then mem[a] else 0
  }

  function ReadWord(mem: Memory, a: int): (w: nat) {
    WordOf(ByteAt(mem, a), ByteAt(mem, a + 1), ByteAt(mem, a + 2), ByteAt(mem, a + 3))
  }

  /** The word at address a is there, and it is w. */
  predicate HoldsWord(mem: Memory, a: int, w: nat) {
    (forall k :: a <= k < a + 4 ==> k in mem) && ReadWord(mem, a) == w
  }

  lemma HoldsIsWord(mem: Memory, a: int, w: nat)
    requires w < WORD && Holds(mem, a, WordBytes(w))
    ensures HoldsWord(mem, a, w)
  {
    var b := WordBytes(w);
    HoldsAt(mem, a, b, 0);
    HoldsAt(mem, a, b, 1);
    HoldsAt(mem, a, b, 2);
    HoldsAt(mem, a, b, 3);
    WordRoundTrip(w);
  }

  lemma WordKept(mem: Memory, r: Memory, a: int, w: nat)
    requires HoldsWord(mem, a, w) && forall x :: a <= x < a + 4 ==> x in r && (x in mem ==> r[x] == mem[x])
    ensures HoldsWord(r, a, w)
  {
    assert a + 1 in mem && a + 2 in mem && a + 3 in mem;
  }

  ghost predicate WordsAt(mem: Memory, va: int, ws: seq<nat>) {
    forall k {:trigger ws[k]} :: 0 <= k < |ws| ==> HoldsWord(mem, va + 4 * k, ws[k])
  }

  lemma AddWord(m: Memory, r: Memory, va: int, ws: seq<nat>, w: nat)
    requires WordsAt(m, va, ws) && HoldsWord(r, va + 4 * |ws|, w)
    requires forall x :: x in m && !(va + 4 * |ws| <= x < va + 4 * |ws| + 4) ==> x in r && r[x] == m[x]
    ensures WordsAt(r, va, ws + [w])
  {
    var all := ws + [w];
    forall k | 0 <= k < |all|
      ensures HoldsWord(r, va + 4 * k, all[k])
    {
      if k < |ws| {
        assert HoldsWord(m, va + 4 * k, ws[k]);
        WordKept(m, r, va + 4 * k, ws[k]);
      }
    }
  }

  /** `r` is `mem` with new bytes in [lo, hi) and nothing else changed. */
  ghost predicate Rewritten(mem: Memory, r: Memory, lo: int, hi: int) {
    (forall x {:trigger x in r} :: x in r <==> x in mem || lo <= x < hi) &&
    forall x {:trigger r[x]} :: x in mem && !(lo <= x < hi) ==> r[x] == mem[x]
  }

  method StoreWord(mem: Memory, a: int, w: nat) returns (r: Memory)
    requires w < WORD
    ensures Rewritten(mem, r, a, a + 4) && HoldsWord(r, a, w)
  {
    r := Written(mem, a, WordBytes(w));
    HoldsWritten(mem, a, WordBytes(w));
    HoldsIsWord(r, a, w);
  }

  /** copyout of an array of words. */
  method CopyWords(mem: Memory, va: int, ws: seq<nat>) returns (r: Memory)
    requires forall k :: 0 <= k < |ws| ==> ws[k] < WORD
    ensures Rewritten(mem, r, va, va + 4 * |ws|) && WordsAt(r, va, ws)
  {
    r := mem;
    for k := 0 to |ws|
      invariant Rewritten(mem, r, va, va + 4 * k) && WordsAt(r, va, ws[..k])
    {
      var next := StoreWord(r, va + 4 * k, ws[k]);
      AddWord(r, next, va, ws[..k], ws[k]);
      assert ws[..k + 1] == ws[..k] + [ws[k]];
      r := next;
    }
    assert ws[..|ws|] == ws;
  }

  /** copyout of a string with its NUL. */
  method CopyString(mem: Memory, va: int, s: seq<Byte>) returns (r: Memory)
    ensures Rewritten(mem, r, va, va + |s| + 1) && Holds(r, va, s + [0])
  {
    r := Written(mem, va, s + [0]);
    HoldsWritten(mem, va, s + [0]);
  }

  function ReadString(mem: Memory, a: int, end: int): seq<Byte>
    decreases end - a
  {
    if a >= end || ByteAt(mem, a) == 0 then [] else [ByteAt(mem, a)] + ReadString(mem, a + 1, end)
  }

  /** What main(argc, argv) finds: argc at sp + 4, the vector where the word at sp + 8 points. */
  function ReadArgs(mem: Memory, sp: int, end: int): seq<seq<Byte>> {
    var argc, av := ReadWord(mem, sp + 4), ReadWord(mem, sp + 8);
    seq(argc, i requires 0 <= i < argc => ReadString(mem, ReadWord(mem, av + 4 * i), end))
  }

  lemma {:induction false} ReadHeldString(mem: Memory, a: int, s: seq<Byte>, end: int)
    requires Holds(mem, a, s + [0]) && (forall k :: 0 <= k < |s| ==> s[k] != 0) && a + |s| < end
    ensures ReadString(mem, a, end) == s
    decreases |s|
  {
    HoldsAt(mem, a, s + [0], 0);
    if s != [] {
      var t := s[1..];
      HoldsSlice(mem, a, s + [0], 1, |s| + 1);
      assert (s + [0])[1..|s| + 1] == t + [0];
      ReadHeldString(mem, a + 1, t, end);
    }
  }

  // ----- pushing the arguments -----------------------------------------------------------

  /** The first n strings lie in the stack page at or above `low`, in descending order without overlap. */
  ghost predicate Pushed(mem: Memory, argv: seq<seq<Byte>>, ptrs: seq<nat>, n: nat, low: int, sz: int) {
    n <= |argv| && |ptrs| == n && sz - PGSIZE <= low <= sz &&
    (forall i {:trigger ptrs[i]} :: 0 <= i < n ==>
       && low <= ptrs[i] && ptrs[i] + |argv[i]| + 1 <= sz && ptrs[i] % 4 == 0
       && Holds(mem, ptrs[i], argv[i] + [0])) &&
    forall i, j :: 0 <= i < j < n ==> ptrs[j] + |argv[j]| + 1 <= ptrs[i]
  }

  lemma PushOne(mem: Memory, mem': Memory, argv: seq<seq<Byte>>, ptrs: seq<nat>, n: nat, sp: int, sz: int, low: nat)
    requires Pushed(mem, argv, ptrs, n, sp, sz) && n < |argv|
    requires sz - PGSIZE <= low && low + |argv[n]| + 1 <= sp && low % 4 == 0
    requires Rewritten(mem, mem', low, low + |argv[n]| + 1) && Holds(mem', low, argv[n] + [0])
    ensures Pushed(mem', argv, ptrs + [low], n + 1, low, sz)
  {
    var ptrs' := ptrs + [low];
    forall i | 0 <= i < n + 1
      ensures low <= ptrs'[i] && ptrs'[i] + |argv[i]| + 1 <= sz && ptrs'[i] % 4 == 0
      ensures Holds(mem', ptrs'[i], argv[i] + [0])
    {
      if i < n {
        assert ptrs'[i] == ptrs[i];
        HoldsAbove(mem, mem', ptrs[i], argv[i] + [0], low, low + |argv[n]| + 1);
      }
    }
    forall i, j | 0 <= i < j < n + 1
      ensures ptrs'[j] + |argv[j]| + 1 <= ptrs'[i]
    {
      assert ptrs'[i] == ptrs[i];
      if j < n {
        assert ptrs'[j] == ptrs[j];
      }
    }
  }

  /** The words exec puts below the strings: return address, argc, argv, and the vector. */
  function UStack(ptrs: seq<nat>, sp: nat): (ws: seq<nat>)
    requires |ptrs| <= MAXARG && sp < WORD && forall k :: 0 <= k < |ptrs| ==> ptrs[k] < WORD
    ensures |ws| == |ptrs| + 4 && forall k :: 0 <= k < |ws| ==> ws[k] < WORD
  {
    [WORD - 1, |ptrs|, Wrap(sp - (|ptrs| + 1) * 4)] + ptrs + [0]
  }

  /** A finished stack: everything exec promises to the program it starts. */
  ghost predicate StackReady(mem: Memory, sp: nat, argv: seq<seq<Byte>>, ptrs: seq<nat>, sz: int) {
    && sp % 4 == 0 && sz - PGSIZE <= sp
    && HoldsWord(mem, sp, WORD - 1) && HoldsWord(mem, sp + 4, |argv|) && HoldsWord(mem, sp + 8, sp + 12)
    && Pushed(mem, argv, ptrs, |argv|, sp + 16 + 4 * |argv|, sz)
    && (forall i {:trigger ptrs[i]} :: 0 <= i < |argv| ==> HoldsWord(mem, sp + 12 + 4 * i, ptrs[i]))
    && HoldsWord(mem, sp + 12 + 4 * |argv|, 0)
  }

  /** Reading the finished stack back gives argc and every argument. */
  lemma ArgsRoundTrip(mem: Memory, sp: nat, argv: seq<seq<Byte>>, ptrs: seq<nat>, sz: int)
    requires StackReady(mem, sp, argv, ptrs, sz) && forall i :: 0 <= i < |argv| ==> CString(argv[i])
    ensures ReadArgs(mem, sp, sz) == argv
  {
    forall i | 0 <= i < |argv|
      ensures ReadString(mem, ReadWord(mem, sp + 12 + 4 * i), sz) == argv[i]
    {
      assert HoldsWord(mem, sp + 12 + 4 * i, ptrs[i]);
      ReadHeldString(mem, ptrs[i], argv[i], sz);
    }
  }

  // ----- the stage of exec that builds the stack -----------------------------------------

  /** Where the stack pointer would be after n strings, if addresses did not wrap. */
  function SpAfter(sz: int, argv: seq<seq<Byte>>, n: nat): (sp: int)
    requires n <= |argv|
    ensures sp <= sz
  {
    if n == 0 then sz else Below(SpAfter(sz, argv, n - 1), |argv[n - 1]| + 1)
  }

  lemma {:induction false} SpDescends(sz: int, argv: seq<seq<Byte>>, m: nat, n: nat)
    requires m <= n <= |argv|
    ensures SpAfter(sz, argv, n) <= SpAfter(sz, argv, m)
    decreases n
  {
    if m < n {
      SpDescends(sz, argv, m, n - 1);
    }
  }

  /** The room the strings take: each with its NUL, rounded up to whole words. */
  function Room(argv: seq<seq<Byte>>): nat {
    if argv == [] then 0 else Room(argv[..|argv| - 1]) + (|argv[|argv| - 1]| + 4) / 4 * 4
  }

  /** There are not too many arguments, and the strings, the vector and its end, and three more words
      fit into one page. */
  predicate FitsPage(argv: seq<seq<Byte>>) {
    |argv| <= MAXARG && Room(argv) + 4 * (|argv| + 4) <= PGSIZE
  }

  lemma BelowIs(sp: int, n: nat)
    requires sp % 4 == 0
    ensures Below(sp, n + 1) == sp - (n + 4) / 4 * 4
  {
  }

  lemma {:induction false} SpAfterIs(sz: int, argv: seq<seq<Byte>>, n: nat)
    requires sz % 4 == 0 && n <= |argv|
    ensures SpAfter(sz, argv, n) == sz - Room(argv[..n]) && SpAfter(sz, argv, n) % 4 == 0
    decreases n
  {
    if n > 0 {
      SpAfterIs(sz, argv, n - 1);
      assert argv[..n][..n - 1] == argv[..n - 1];
      BelowIs(SpAfter(sz, argv, n - 1), |argv[n - 1]|);
    }
  }

  /** Where n bytes pushed below sp start, if addresses did not wrap. */
  function Below(sp: int, n: int): (low: int)
    ensures low <= sp - n < low + 4 && low % 4 == 0
  {
    sp - n - (sp - n) % 4
  }

  /** A range inside the stack page is accepted by copyout, and wrapping does not matter. */
  lemma AcceptedInPage(sz: int, sp: int, n: int)
    requires StackTop(sz) && 0 < n && sp <= sz && Below(sp, n) >= sz - PGSIZE
    ensures Wrap(sp - n) == sp - n && UserRange(Below(sp, n), n, sz)
  {
  }

  /** One push: the new stack pointer, and whether copyout accepts the range. */
  method Reserve(sz: int, sp: nat, n: nat) returns (ok: bool, low: nat)
    requires StackTop(sz) && sz - PGSIZE <= sp <= sz && sp % 4 == 0 && 0 < n < WORD
    ensures ok <==> Below(sp, n) >= sz - PGSIZE
    ensures ok ==> low == Below(sp, n)
  {
    low := Align4(Wrap(sp - n));
    ok := UserRange(low, n, sz);
    if Below(sp, n) >= sz - PGSIZE {
      AcceptedInPage(sz, sp, n);
    }
    if ok {
      StaysInPage(sz, sp, n, low);
    }
  }

  /** The loop over argv. */
  method PushStrings(sz: int, argv: seq<seq<Byte>>) returns (ok: bool, sp: nat, ptrs: seq<nat>, mem: Memory)
    requires StackTop(sz) && forall i :: 0 <= i < |argv| ==> CString(argv[i])
    ensures ok <==> |argv| <= MAXARG && SpAfter(sz, argv, |argv|) >= sz - PGSIZE
    ensures ok ==> sp == SpAfter(sz, argv, |argv|) && sp % 4 == 0 && Pushed(mem, argv, ptrs, |argv|, sp, sz)
  {
    sp, ptrs, mem := sz, [], map[];
    var argc := 0;
    while argc < |argv|
      invariant 0 <= argc <= |argv| && argc <= MAXARG && sp == SpAfter(sz, argv, argc) && sp % 4 == 0
      invariant Pushed(mem, argv, ptrs, argc, sp, sz)
    {
      if argc >= MAXARG {
        return false, sp, ptrs, mem;
      }
      var s := argv[argc];
      var fits, low := Reserve(sz, sp, |s| + 1);
      if !fits {
        SpDescends(sz, argv, argc + 1, |argv|);
        return false, sp, ptrs, mem;
      }
      var next := CopyString(mem, low, s);
      PushOne(mem, next, argv, ptrs, argc, sp, sz, low);
      sp, ptrs, mem := low, ptrs + [low], next;
      argc := argc + 1;
    }
    ok := true;
  }

  /** The words below the strings make the stack ready. */
  lemma VectorReady(mem: Memory, mem': Memory, argv: seq<seq<Byte>>, ptrs: seq<nat>, ws: seq<nat>, top: nat, sp: nat, sz: int)
    requires Pushed(mem, argv, ptrs, |argv|, top, sz) && top == sp + 4 * (|argv| + 4) && sp % 4 == 0 && sz - PGSIZE <= sp
    requires ws == [WORD - 1, |argv|, sp + 12] + ptrs + [0]
    requires Rewritten(mem, mem', sp, top) && WordsAt(mem', sp, ws)
    ensures StackReady(mem', sp, argv, ptrs, sz)
  {
    HeaderReady(mem', argv, ptrs, ws, sp);
    assert ws[3..3 + |ptrs|] == ptrs;
    forall i | 0 <= i < |argv|
      ensures HoldsWord(mem', sp + 12 + 4 * i, ptrs[i])
    {
      VectorHeld(mem', ptrs, ws, sp, i);
    }
    StringsKept(mem, mem', argv, ptrs, top, sp, sz);
  }

  lemma VectorHeld(mem': Memory, ptrs: seq<nat>, ws: seq<nat>, sp: nat, i: nat)
    requires |ws| == |ptrs| + 4 && ws[3..3 + |ptrs|] == ptrs && WordsAt(mem', sp, ws) && i < |ptrs|
    ensures HoldsWord(mem', sp + 12 + 4 * i, ptrs[i])
  {
    assert ws[3 + i] == ws[3..3 + |ptrs|][i];
  }

  lemma HeaderReady(mem': Memory, argv: seq<seq<Byte>>, ptrs: seq<nat>, ws: seq<nat>, sp: nat)
    requires |ptrs| == |argv| && ws == [WORD - 1, |argv|, sp + 12] + ptrs + [0] && WordsAt(mem', sp, ws)
    ensures HoldsWord(mem', sp, WORD - 1) && HoldsWord(mem', sp + 4, |argv|) && HoldsWord(mem', sp + 8, sp + 12)
    ensures HoldsWord(mem', sp + 12 + 4 * |argv|, 0)
  {
    assert ws[0] == WORD - 1 && ws[1] == |argv| && ws[2] == sp + 12 && ws[3 + |argv|] == 0;
  }

  lemma StringsKept(mem: Memory, mem': Memory, argv: seq<seq<Byte>>, ptrs: seq<nat>, top: nat, sp: nat, sz: int)
    requires Pushed(mem, argv, ptrs, |argv|, top, sz) && Rewritten(mem, mem', sp, top)
    ensures Pushed(mem', argv, ptrs, |argv|, top, sz)
  {
    forall i | 0 <= i < |argv|
      ensures Holds(mem', ptrs[i], argv[i] + [0])
    {
      HoldsAbove(mem, mem', ptrs[i], argv[i] + [0], sp, top);
    }
  }

  lemma BelowAligned(sp: int, n: int)
    requires sp % 4 == 0
    ensures Below(sp, 4 * n) == sp - 4 * n
  {
  }

  /** The third word points right behind itself. */
  lemma UStackIs(ptrs: seq<nat>, top: nat, sp: nat)
    requires |ptrs| <= MAXARG && top < WORD && (forall k :: 0 <= k < |ptrs| ==> ptrs[k] < WORD)
    requires top == sp + 4 * (|ptrs| + 4)
    ensures UStack(ptrs, top) == [WORD - 1, |ptrs|, sp + 12] + ptrs + [0]
  {
    assert Wrap(top - (|ptrs| + 1) * 4) == sp + 12;
  }

  /** The words below the strings. */
  method PushVector(sz: int, argv: seq<seq<Byte>>, top: nat, ptrs: seq<nat>, mem0: Memory)
    returns (ok: bool, sp: nat, mem: Memory)
    requires StackTop(sz) && |argv| <= MAXARG && top % 4 == 0 && Pushed(mem0, argv, ptrs, |argv|, top, sz)
    ensures ok <==> top - 4 * (|argv| + 4) >= sz - PGSIZE
    ensures ok ==> sp == top - 4 * (|argv| + 4) && StackReady(mem, sp, argv, ptrs, sz)
  {
    var argc := |ptrs|;
    assert forall k :: 0 <= k < argc ==> ptrs[k] < WORD;
    var ustack := UStack(ptrs, top);
    ok, sp := Reserve(sz, top, (3 + argc + 1) * 4);
    BelowAligned(top, argc + 4);
    mem := mem0;
    if ok {
      UStackIs(ptrs, top, sp);
      mem := CopyWords(mem0, sp, ustack);
      VectorReady(mem0, mem, argv, ptrs, ustack, top, sp, sz);
    }
  }

  /** From the allocated pages to the finished stack; fails exactly when it does not fit. */
  method BuildStack(sz: int, argv: seq<seq<Byte>>) returns (ok: bool, sp: nat, mem: Memory, ghost ptrs: seq<nat>)
    requires StackTop(sz) && forall i :: 0 <= i < |argv| ==> CString(argv[i])
    ensures ok <==> FitsPage(argv)
    ensures ok ==> sp == sz - Room(argv) - 4 * (|argv| + 4)
    ensures ok ==> StackReady(mem, sp, argv, ptrs, sz) && ReadArgs(mem, sp, sz) == argv
  {
    SpAfterIs(sz, argv, |argv|);
    assert argv[..|argv|] == argv;
    var pushed, top, vec, mem0 := PushStrings(sz, argv);
    ok, sp, mem, ptrs := false, top, mem0, vec;
    if pushed {
      ok, sp, mem := PushVector(sz, argv, top, vec, mem0);
      if ok {
        ArgsRoundTrip(mem, sp, argv, vec, sz);
      }
    }
  }
}
