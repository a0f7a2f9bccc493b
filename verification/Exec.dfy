/**
 exec: replacing the image of the calling process. What the file system, the page-table code and
 the program file answer comes in as a World; the model keeps the books on every resource taken.
 */
module Exec {
  import opened Wrappers
  import opened ExecStack

  const NAMESZ := 16

  type Word = x: int | 0 <= x < WORD

  /** 32-bit addition. */
  function Plus(a: Word, b: Word): (r: Word)
  {
    if a + b < WORD then a + b else a + b - WORD
  }

  /** One program header, and what readi, allocuvm and loaduvm answer for it. */
  datatype Segment = Segment(readOk: bool, load: bool, vaddr: Word, memsz: Word, filesz: Word, allocOk: bool, loadOk: bool)

  /** The answers exec gets: namei, readi of the ELF header, setupkvm, the headers, the stack pages. */
  datatype World = World(found: bool, headerOk: bool, magicOk: bool, kvmOk: bool, newDir: nat,
                         segments: seq<Segment>, entry: int, stackOk: bool)

  // ----- sizes ---------------------------------------------------------------------------

  /** allocuvm: 0 on failure or at the kernel, otherwise the larger size. */
  function AllocUvm(oldsz: nat, newsz: nat, ok: bool): (r: nat)
    ensures r == 0 || (r < KERNBASE + oldsz && r >= oldsz && r >= newsz)
  {
    if !ok || newsz >= KERNBASE then 0 else if newsz < oldsz then oldsz else newsz
  }

  function PgRoundUp(sz: nat): (r: nat)
    ensures sz <= r < sz + PGSIZE && r % PGSIZE == 0
  {
    (sz + PGSIZE - 1) / PGSIZE * PGSIZE
  }

  /** Where a loaded segment ends. */
  function End(ph: Segment): int {
    ph.vaddr + ph.memsz
  }

  /** A header that can be read and, if it is to be loaded, describes a page-aligned range below the
      kernel that is large enough for its bytes and that allocuvm and loaduvm can provide. */
  predicate Good(ph: Segment) {
    ph.readOk &&
    (ph.load ==> ph.filesz <= ph.memsz && End(ph) < KERNBASE && ph.vaddr % PGSIZE == 0 && ph.allocOk && ph.loadOk)
  }

  /** A segment that takes room. */
  predicate Takes(phs: seq<Segment>, j: int) {
    0 <= j < |phs| && phs[j].load && End(phs[j]) > 0
  }

  /** exec gets through these headers: each is good, and no segment that ends at 0 comes before the
      first one that takes room, since a size of 0 is how allocuvm reports failure. */
  ghost predicate Loadable(phs: seq<Segment>) {
    (forall k :: 0 <= k < |phs| ==> Good(phs[k])) &&
    forall k :: 0 <= k < |phs| && phs[k].load && End(phs[k]) == 0 ==> exists j :: j < k && Takes(phs, j)
  }

  /** The largest end of a loaded segment, 0 if there is none. */
  function SizeOf(phs: seq<Segment>): (size: nat)
    ensures forall k :: 0 <= k < |phs| && phs[k].load ==> End(phs[k]) <= size
    ensures size == 0 || exists k :: Takes(phs, k) && End(phs[k]) == size
  {
    if phs == [] then 0
    else
      var front, ph := phs[..|phs| - 1], phs[|phs| - 1];
      var size := SizeOf(front);
      assert forall k :: Takes(front, k) ==> Takes(phs, k) && phs[k] == front[k];
      assert ph.load && End(ph) > 0 ==> Takes(phs, |phs| - 1);
      if ph.load && End(ph) > size then End(ph) else size
  }

  lemma SizeOfFits(phs: seq<Segment>)
    requires Loadable(phs)
    ensures SizeOf(phs) < KERNBASE
  {
    if SizeOf(phs) > 0 {
      var k :| Takes(phs, k) && End(phs[k]) == SizeOf(phs);
      assert Good(phs[k]);
    }
  }

  lemma LoadableFront(phs: seq<Segment>, k: nat)
    requires k <= |phs| && Loadable(phs)
    ensures Loadable(phs[..k])
  {
    var front := phs[..k];
    forall i | 0 <= i < k && front[i].load && End(front[i]) == 0
      ensures exists j :: j < i && Takes(front, j)
    {
      assert phs[i] == front[i];
      var j :| j < i && Takes(phs, j);
      assert Takes(front, j);
    }
  }

  /** One more header, seen by the loop with the size so far. */
  predicate Accepts(size: nat, ph: Segment) {
    Good(ph) && (ph.load ==> size > 0 || End(ph) > 0)
  }

  lemma LoadableSnoc(front: seq<Segment>, ph: Segment, phs: seq<Segment>)
    requires phs == front + [ph] && Loadable(front)
    ensures Loadable(phs) <==> Accepts(SizeOf(front), ph)
    ensures SizeOf(phs) == if ph.load && End(ph) > SizeOf(front) then End(ph) else SizeOf(front)
  {
    var n := |front|;
    assert phs[..n] == front && phs[n] == ph;
    assert forall j :: j < n ==> (Takes(phs, j) <==> Takes(front, j));
    forall k | 0 <= k < n && phs[k].load && End(phs[k]) == 0
      ensures exists j :: j < k && Takes(phs, j)
    {
      assert front[k] == phs[k];
      var j :| j < k && Takes(front, j);
      assert Takes(phs, j);
    }
    TakesRoom(front);
    assert forall k :: 0 <= k < n ==> phs[k] == front[k];
    if Loadable(phs) && ph.load && End(ph) == 0 {
      var j :| j < n && Takes(phs, j);
      assert Takes(front, j);
    }
    if SizeOf(front) > 0 {
      var j :| Takes(front, j);
      assert Takes(phs, j) && j < n;
    }
  }

  /** A header that is fine in every respect and ends at 0. */
  predicate EndsAtZero(ph: Segment) {
    ph.readOk && ph.load && ph.filesz <= ph.memsz && End(ph) == 0 && ph.allocOk && ph.loadOk
  }

  lemma AcceptsEmpty(size: nat, ph: Segment)
    requires EndsAtZero(ph)
    ensures Good(ph) && (Accepts(size, ph) <==> size > 0)
  {
    assert ph.vaddr == 0;
  }

  /** A good header that ends at 0 is refused unless an earlier segment has taken room. */
  lemma EmptySegment(front: seq<Segment>, ph: Segment, phs: seq<Segment>)
    requires Loadable(front) && EndsAtZero(ph) && phs == front + [ph]
    ensures Good(ph)
    ensures Loadable(phs) <==> exists j :: Takes(front, j)
  {
    AcceptsEmpty(SizeOf(front), ph);
    LoadableSnoc(front, ph, phs);
    TakesRoom(front);
  }

  lemma TakesRoom(phs: seq<Segment>)
    ensures SizeOf(phs) > 0 <==> exists j :: Takes(phs, j)
  {
  }

  /** The top of the two stack pages, 0 when they cannot be had. */
  function StackEnd(size: nat, ok: bool): nat {
    AllocUvm(PgRoundUp(size), PgRoundUp(size) + 2 * PGSIZE, ok)
  }

  /** `sz` is where the stack of a program of this size ends: page aligned, with the guard page and the
      stack page on top of the pages of the program. */
  predicate StackAt(size: nat, sz: int) {
    sz % PGSIZE == 0 && size + 2 * PGSIZE <= sz < size + 3 * PGSIZE
  }

  lemma StackAtOnce(size: nat, a: int, b: int)
    requires StackAt(size, a) && StackAt(size, b)
    ensures a == b
  {
  }

  lemma StackEndIs(size: nat, ok: bool)
    requires size < KERNBASE
    ensures StackEnd(size, ok) != 0 ==> StackAt(size, StackEnd(size, ok)) && StackTop(StackEnd(size, ok))
    ensures StackEnd(size, ok) != 0 <==> ok && exists sz :: StackAt(size, sz) && sz < KERNBASE
  {
    var top := PgRoundUp(size) + 2 * PGSIZE;
    assert StackAt(size, top);
    forall sz | StackAt(size, sz)
      ensures sz == top
    {
      StackAtOnce(size, sz, top);
    }
  }

  /** The stack pages can be had below the kernel and hold the arguments. */
  ghost predicate StackFits(size: nat, argv: seq<seq<Byte>>, ok: bool) {
    ok && (exists sz :: StackAt(size, sz) && sz < KERNBASE) && FitsPage(argv)
  }

  /** When exec succeeds: the file is a program whose headers can be loaded, and the stack pages can
      be had and hold the arguments. */
  ghost predicate Succeeds(w: World, argv: seq<seq<Byte>>) {
    w.found && w.headerOk && w.magicOk && w.kvmOk && Loadable(w.segments) && StackFits(SizeOf(w.segments), argv, w.stackOk)
  }

  /** The pages of the program lie below the guard page, and not more than a page below. */
  lemma ProgramBelowStack(phs: seq<Segment>, sz: int)
    requires StackAt(SizeOf(phs), sz)
    ensures sz % PGSIZE == 0
    ensures forall k :: 0 <= k < |phs| && phs[k].load ==> End(phs[k]) <= sz - 2 * PGSIZE
    ensures sz < 3 * PGSIZE || exists k :: 0 <= k < |phs| && phs[k].load && sz - 3 * PGSIZE < End(phs[k])
  {
    if SizeOf(phs) != 0 {
      var k :| Takes(phs, k) && End(phs[k]) == SizeOf(phs);
    }
  }

  // ----- the program name ----------------------------------------------------------------

  /** `s` is what follows the last slash of `path`. */
  ghost predicate IsBaseName(path: string, s: string) {
    '/' !in s && |s| <= |path| && path[|path| - |s|..] == s && (s == path || path[|path| - |s| - 1] == '/')
  }

  /** The name a program started from `path` is given. */
  ghost predicate Named(path: string, name: string) {
    exists s :: IsBaseName(path, s) && name == if |s| < NAMESZ then s else s[..NAMESZ - 1]
  }

  /** There is a finished stack at sp. */
  ghost predicate HasStack(mem: Memory, sp: int, argv: seq<seq<Byte>>, sz: int) {
    sp >= 0 && exists ptrs :: StackReady(mem, sp, argv, ptrs, sz)
  }

  method BaseName(path: string) returns (s: string)
    ensures IsBaseName(path, s)
  {
    var last := 0;
    for i := 0 to |path|
      invariant 0 <= last <= i && '/' !in path[last..i] && (last == 0 || path[last - 1] == '/')
    {
      if path[i] == '/' {
        last := i + 1;
      }
    }
    s := path[last..];
    assert path[last..|path|] == s;
  }

  // ----- the kernel ----------------------------------------------------------------------

  class Kernel {
    // calls made so far
    var begun: nat
    var ended: nat
    var locked: nat
    var unlocked: nat
    // page directories that exist, and those freed so far
    var dirs: set<nat>
    var freed: seq<nat>
    // the calling process
    var pgdir: nat
    var sz: int
    var eip: int
    var esp: int
    var name: string
    var memory: Memory

    ghost predicate Valid()
      reads this
    {
      pgdir in dirs
    }

    method FreeVm(d: nat)
      requires d in dirs
      modifies this`dirs, this`freed
      ensures dirs == old(dirs) - {d} && freed == old(freed) + [d]
    {
      dirs := dirs - {d};
      freed := freed + [d];
    }

    /** The exit at `bad`: free the new directory if there is one, release the inode if it is held. */
    method Bad(newDir: Option<nat>, holding: bool)
      requires newDir.Some? ==> newDir.value in dirs
      modifies this`dirs, this`freed, this`unlocked, this`ended
      ensures dirs == if newDir.Some? then old(dirs) - {newDir.value} else old(dirs)
      ensures freed == if newDir.Some? then old(freed) + [newDir.value] else old(freed)
      ensures unlocked == old(unlocked) + (if holding then 1 else 0)
      ensures ended == old(ended) + (if holding then 1 else 0)
    {
      if newDir.Some? {
        FreeVm(newDir.value);
      }
      if holding {
        unlocked := unlocked + 1;
        ended := ended + 1;
      }
    }

    /** One turn of the loop over the program headers. */
    method LoadSegment(size: nat, ph: Segment) returns (ok: bool, size': nat)
      ensures ok <==> Accepts(size, ph)
      ensures ok ==> size' == if ph.load && End(ph) > size then End(ph) else size
    {
      ok, size' := false, size;
      if !ph.readOk {
        return;
      }
      if ph.load {
        if ph.memsz < ph.filesz || Plus(ph.vaddr, ph.memsz) < ph.vaddr {
          return;
        }
        size' := AllocUvm(size, Plus(ph.vaddr, ph.memsz), ph.allocOk);
        if size' == 0 || ph.vaddr % PGSIZE != 0 || !ph.loadOk {
          return;
        }
      }
      ok := true;
    }

    /** The loop over the program headers. */
    method LoadProgram(phs: seq<Segment>) returns (ok: bool, size: nat)
      ensures ok <==> Loadable(phs)
      ensures ok ==> size == SizeOf(phs) < KERNBASE
    {
      size := 0;
      for i := 0 to |phs|
        invariant Loadable(phs[..i]) && size == SizeOf(phs[..i])
      {
        LoadableSnoc(phs[..i], phs[i], phs[..i + 1]);
        ok, size := LoadSegment(size, phs[i]);
        if !ok {
          if Loadable(phs) {
            LoadableFront(phs, i + 1);
          }
          return;
        }
      }
      assert phs[..|phs|] == phs;
      SizeOfFits(phs);
      ok := true;
    }

    /** From begin_op to the released inode: a new directory with the program in it, or nothing new. */
    method LoadImage(w: World) returns (ok: bool, size: nat)
      requires w.newDir !in dirs
      modifies this`begun, this`ended, this`locked, this`unlocked, this`dirs, this`freed
      ensures ok == (w.found && w.headerOk && w.magicOk && w.kvmOk && Loadable(w.segments))
      ensures begun == old(begun) + 1 && ended == old(ended) + 1
      ensures locked == old(locked) + (if w.found then 1 else 0)
      ensures unlocked == old(unlocked) + (if w.found then 1 else 0)
      ensures ok ==> size == SizeOf(w.segments) < KERNBASE && dirs == old(dirs) + {w.newDir} && freed == old(freed)
      ensures !ok ==> dirs == old(dirs)
      ensures !ok ==> freed == old(freed) + if w.found && w.headerOk && w.magicOk && w.kvmOk then [w.newDir] else []
    {
      ok, size := false, 0;
      begun := begun + 1;
      if !w.found {
        ended := ended + 1;
        return;
      }
      locked := locked + 1;
      if !w.headerOk || !w.magicOk || !w.kvmOk {
        Bad(None, true);
        return;
      }
      dirs := dirs + {w.newDir};
      ok, size := LoadProgram(w.segments);
      if !ok {
        Bad(Some(w.newDir), true);
        return;
      }
      unlocked := unlocked + 1;
      ended := ended + 1;
    }

    /** The commit: the process gets the new image and the old directory goes. */
    method Commit(path: string, w: World, end: int, sp: int, mem: Memory)
      requires pgdir in dirs && w.newDir in dirs && pgdir != w.newDir
      modifies this`name, this`pgdir, this`sz, this`eip, this`esp, this`memory, this`dirs, this`freed
      ensures pgdir == w.newDir && sz == end && eip == w.entry && esp == sp && memory == mem
      ensures dirs == old(dirs) - {old(pgdir)} && freed == old(freed) + [old(pgdir)]
      ensures Named(path, name)
    {
      var base := BaseName(path);
      name := if |base| < NAMESZ then base else base[..NAMESZ - 1];
      var oldDir := pgdir;
      pgdir, sz, eip, esp, memory := w.newDir, end, w.entry, sp, mem;
      FreeVm(oldDir);
    }

    /** The process has the new image, with its arguments in place. */
    ghost predicate Image(path: string, argv: seq<seq<Byte>>, w: World, size: nat)
      reads this
    {
      pgdir == w.newDir && StackAt(size, sz) && StackTop(sz) && eip == w.entry &&
      HasStack(memory, esp, argv, sz) && ReadArgs(memory, esp, sz) == argv && Named(path, name)
    }

    /** The process is as it was. */
    twostate predicate SameProcess()
      reads this
    {
      pgdir == old(pgdir) && sz == old(sz) && eip == old(eip) && esp == old(esp) &&
      name == old(name) && memory == old(memory)
    }

    /** From the loaded program to the commit: the new image and the old directory freed, or the new
        directory freed and the process as it was. */
    method Start(path: string, argv: seq<seq<Byte>>, w: World, size: nat) returns (r: int)
      requires pgdir in dirs && w.newDir in dirs && pgdir != w.newDir && size < KERNBASE
      requires forall i :: 0 <= i < |argv| ==> CString(argv[i])
      modifies this`name, this`pgdir, this`sz, this`eip, this`esp, this`memory, this`dirs, this`freed, this`unlocked, this`ended
      ensures unlocked == old(unlocked) && ended == old(ended)
      ensures r == if StackFits(size, argv, w.stackOk) then 0 else -1
      ensures r == 0 ==> Image(path, argv, w, size) && dirs == old(dirs) - {old(pgdir)} && freed == old(freed) + [old(pgdir)]
      ensures r == -1 ==> SameProcess() && dirs == old(dirs) - {w.newDir} && freed == old(freed) + [w.newDir]
    {
      r := -1;
      var end := StackEnd(size, w.stackOk);
      StackEndIs(size, w.stackOk);
      if end == 0 {
        Bad(Some(w.newDir), false);
        return;
      }
      var built, sp, mem, ptrs := BuildStack(end, argv);
      if !built {
        Bad(Some(w.newDir), false);
        return;
      }
      Commit(path, w, end, sp, mem);
      r := 0;
    }

    /** exec: on success the new image is installed and the old directory freed once; on failure the
        process is as it was and a directory that was set up is freed once. Either way every begin_op
        has its end_op and every locked inode is released. */
    method Exec(path: string, argv: seq<seq<Byte>>, w: World) returns (r: int)
      requires Valid() && w.newDir !in dirs && forall i :: 0 <= i < |argv| ==> CString(argv[i])
      modifies this
      ensures Valid()
      ensures r == if Succeeds(w, argv) then 0 else -1
      ensures begun == old(begun) + 1 && ended == old(ended) + 1
      ensures locked == old(locked) + (if w.found then 1 else 0)
      ensures unlocked == old(unlocked) + (if w.found then 1 else 0)
      ensures r == 0 ==> Image(path, argv, w, SizeOf(w.segments))
      ensures r == 0 ==> dirs == old(dirs) - {old(pgdir)} + {w.newDir} && freed == old(freed) + [old(pgdir)]
      ensures r == -1 ==> SameProcess() && dirs == old(dirs)
      ensures r == -1 ==> freed == old(freed) + if w.found && w.headerOk && w.magicOk && w.kvmOk then [w.newDir] else []
    {
      r := -1;
      var ok, size := LoadImage(w);
      if ok {
        r := Start(path, argv, w, size);
      }
    }
  }
}
