/** Blobs and the memory behind them, as values: what each operation of a program
    does, and who owns which memory along a whole run. */
module BlobModel {
  import opened Options

  type Handle = nat

  /** What fresh memory happens to hold. */
  type Contents = nat -> int

  /** An allocator: handles below `next` have been issued; those in `live` stand
      for memory, `freed` counts how often each was given back, and `refused` are
      those whose release the allocator has refused. */
  datatype Memory = Memory(next: Handle, live: map<Handle, seq<int>>, freed: multiset<Handle>, refused: set<Handle>)

  const UNUSED := Memory(0, map[], multiset{}, {})

  /** A blob: its number of elements, its allocator by number, and its handle. */
  datatype BlobValue = BlobValue(size: nat, allocator: Option<nat>, handle: Option<Handle>)

  /** All allocators, all blobs, and the allocators a program has made itself. */
  datatype State = State(memories: seq<Memory>, blobs: seq<BlobValue>, own: seq<nat>)

  const EMPTY := State([], [], [])

  /** What a program may do, blobs named by number.  The allocator decides whether
      a request is granted and whether a release is refused. */
  datatype Op =
    | NewAllocator
    | Construct(size: nat, using: Option<nat>)
    | Allocate(blob: nat, granted: bool, releases: bool, contents: Contents)
    | Deallocate(blob: nat, releases: bool)
    | CopyConstruct(source: nat, granted: bool, contents: Contents)
    | CopyAssign(blob: nat, source: nat, granted: bool, releases: bool, contents: Contents)
    | MoveConstruct(source: nat)
    | Destroy(blob: nat, releases: bool)

  // ---- what the operations do ------------------------------------------------------------

  /** Freeing no handle does nothing; a refused release leaves the memory live. */
  function FreeHandle(m: Memory, h: Option<Handle>, releases: bool): Memory {
    match h
    case None => m
    case Some(x) =>
      if releases then m.(live := m.live - {x}, freed := m.freed + multiset{x})
      else m.(refused := m.refused + {x})
  }

  function AllocHandle(m: Memory, granted: bool, data: seq<int>): (Memory, Option<Handle>) {
    if granted then (m.(next := m.next + 1, live := m.live[m.next := data]), Some(m.next)) else (m, None)
  }

  /** The blob has an allocator; a default one is made when it had none. */
  function WithAllocator(s: State, i: nat): (t: State)
    requires i < |s.blobs|
    ensures |t.blobs| == |s.blobs| && t.blobs[i].allocator.Some?
  {
    if s.blobs[i].allocator.Some? then s
    else s.(memories := s.memories + [UNUSED], blobs := s.blobs[i := s.blobs[i].(allocator := Some(|s.memories|))])
  }

  predicate HasMemory(s: State, i: nat) {
    i < |s.blobs| && s.blobs[i].allocator.Some? && s.blobs[i].allocator.value < |s.memories|
  }

  function MemoryOf(s: State, i: nat): Memory
    requires HasMemory(s, i)
  {
    s.memories[s.blobs[i].allocator.value]
  }

  /** The blob's memory and handle replaced. */
  function Replaced(s: State, i: nat, m: Memory, h: Option<Handle>): State
    requires HasMemory(s, i)
  {
    s.(memories := s.memories[s.blobs[i].allocator.value := m], blobs := s.blobs[i := s.blobs[i].(handle := h)])
  }

  function Released(s: State, i: nat, releases: bool): State
    requires HasMemory(s, i)
  {
    Replaced(s, i, FreeHandle(MemoryOf(s, i), s.blobs[i].handle, releases), None)
  }

  function Acquired(s: State, i: nat, granted: bool, contents: Contents): State
    requires HasMemory(s, i)
  {
    var (m, h) := AllocHandle(MemoryOf(s, i), granted, seq(s.blobs[i].size, contents));
    Replaced(s, i, m, h)
  }

  /** The data of a blob, if it holds memory. */
  function Data(s: State, i: nat): Option<seq<int>> {
    if HasMemory(s, i) && s.blobs[i].handle.Some? && s.blobs[i].handle.value in MemoryOf(s, i).live
    then Some(MemoryOf(s, i).live[s.blobs[i].handle.value]) else None
  }

  /** The blob's memory overwritten. */
  function Written(s: State, i: nat, data: seq<int>): State
    requires HasMemory(s, i) && s.blobs[i].handle.Some?
  {
    var m := MemoryOf(s, i);
    Replaced(s, i, m.(live := m.live[s.blobs[i].handle.value := data]), s.blobs[i].handle)
  }

  function Free(s: State, i: nat, releases: bool): State
    requires i < |s.blobs|
  {
    var t := WithAllocator(s, i);
    if HasMemory(t, i) then Released(t, i, releases) else t
  }

  function Reallocated(s: State, i: nat, granted: bool, releases: bool, contents: Contents): State
    requires i < |s.blobs|
  {
    var t := WithAllocator(s, i);
    if HasMemory(t, i) then Acquired(Released(t, i, releases), i, granted, contents) else t
  }

  function Resized(s: State, i: nat, size: nat): State
    requires i < |s.blobs|
  {
    s.(blobs := s.blobs[i := s.blobs[i].(size := size)])
  }

  /** Copying is undefined without memory on either side; nothing is copied then. */
  function Copied(s: State, i: nat, j: nat, granted: bool, releases: bool, contents: Contents): State
    requires i < |s.blobs| && j < |s.blobs|
  {
    var t := Reallocated(Resized(s, i, s.blobs[j].size), i, granted, releases, contents);
    if HasMemory(t, i) && t.blobs[i].handle.Some? && Data(t, j).Some? then Written(t, i, Data(t, j).value) else t
  }

  function Moved(s: State, i: nat, j: nat): State
    requires i < |s.blobs| && j < |s.blobs|
  {
    s.(blobs := s.blobs[i := s.blobs[j]][j := BlobValue(s.blobs[j].size, None, s.blobs[i].handle)])
  }

  function Added(s: State, b: BlobValue): State {
    s.(blobs := s.blobs + [b])
  }

  function Removed(s: State, i: nat): State
    requires i < |s.blobs|
  {
    s.(blobs := s.blobs[..i] + s.blobs[i + 1..])
  }

  /** One operation; an operation that names no blob is skipped. */
  function Apply(s: State, op: Op): State {
    match op
    case NewAllocator => s.(memories := s.memories + [UNUSED], own := s.own + [|s.memories|])
    case Construct(size, using) =>
      Added(s, BlobValue(size, if using.Some? && using.value < |s.own| then Some(s.own[using.value]) else None, None))
    case Allocate(i, granted, releases, contents) =>
      if i < |s.blobs| then Reallocated(s, i, granted, releases, contents) else s
    case Deallocate(i, releases) =>
      if i < |s.blobs| then Free(s, i, releases) else s
    case CopyConstruct(j, granted, contents) =>
      if j < |s.blobs|
      then Copied(Added(s, BlobValue(s.blobs[j].size, None, None)), |s.blobs|, j, granted, true, contents) else s
    case CopyAssign(i, j, granted, releases, contents) =>
      if i < |s.blobs| && j < |s.blobs| then Copied(s, i, j, granted, releases, contents) else s
    case MoveConstruct(j) =>
      if j < |s.blobs| then Moved(Added(s, BlobValue(s.blobs[j].size, None, None)), |s.blobs|, j) else s
    case Destroy(i, releases) =>
      if i < |s.blobs| then Removed(Free(s, i, releases), i) else s
  }

  /** A copy is defined if both sides have memory by then. */
  predicate Defined(s: State, op: Op) {
    match op
    case CopyConstruct(j, granted, _) => j < |s.blobs| ==> granted && s.blobs[j].handle.Some?
    case CopyAssign(i, j, granted, _, _) =>
      i < |s.blobs| && j < |s.blobs| ==> granted && (i == j || s.blobs[j].handle.Some?)
    case _ => true
  }

  function Run(s: State, ops: seq<Op>): State {
    if ops == [] then s else Apply(Run(s, ops[..|ops| - 1]), ops[|ops| - 1])
  }

  // ---- ownership ---------------------------------------------------------------------------

  /** Every handle issued is live, or has been freed exactly once. */
  ghost predicate Accounts(m: Memory) {
    && (forall h: Handle :: h < m.next <==> h in m.live || h in m.freed)
    && (forall h: Handle :: m.freed[h] <= 1 && (h in m.live ==> h !in m.freed))
    && (forall h | h in m.refused :: h in m.live)
  }

  ghost predicate Holds(b: BlobValue, a: nat, h: Handle) {
    b.allocator == Some(a) && b.handle == Some(h)
  }

  ghost predicate Held(s: State, a: nat, h: Handle) {
    exists i :: 0 <= i < |s.blobs| && Holds(s.blobs[i], a, h)
  }

  /** Live memory is held by a blob, unless its release has been refused. */
  ghost predicate MemoryOwned(s: State, a: nat)
    requires a < |s.memories|
  {
    var m := s.memories[a];
    Accounts(m) && forall h | h in m.live && h !in m.refused :: Held(s, a, h)
  }

  /** What a blob holds is live memory of its own allocator, not refused. */
  ghost predicate BlobOwns(s: State, i: nat)
    requires i < |s.blobs|
  {
    var b := s.blobs[i];
    && (b.allocator.Some? ==> b.allocator.value < |s.memories|)
    && (b.handle.Some? ==>
          HasMemory(s, i) && b.handle.value in MemoryOf(s, i).live && b.handle.value !in MemoryOf(s, i).refused)
  }

  /** No two blobs hold the same memory. */
  ghost predicate Unshared(s: State, i: nat, j: nat)
    requires i < |s.blobs| && j < |s.blobs|
  {
    s.blobs[i].handle.Some? && s.blobs[j].handle == s.blobs[i].handle ==> s.blobs[j].allocator != s.blobs[i].allocator
  }

  ghost predicate Consistent(s: State) {
    && (forall a: nat | a < |s.memories| :: MemoryOwned(s, a))
    && (forall i: nat | i < |s.blobs| :: BlobOwns(s, i))
    && (forall i: nat, j: nat | i < |s.blobs| && j < |s.blobs| && i != j :: Unshared(s, i, j))
    && (forall k: nat | k < |s.own| :: s.own[k] < |s.memories|)
  }

  /** The data of a blob is as long as its description says. */
  ghost predicate SizedAt(s: State, i: nat)
    requires i < |s.blobs|
  {
    Data(s, i).Some? ==> |Data(s, i).value| == s.blobs[i].size
  }

  ghost predicate Sized(s: State) {
    forall i: nat | i < |s.blobs| :: SizedAt(s, i)
  }

  // ---- a change of one blob and of its memory ------------------------------------------------

  /** Blob i and allocator a may have changed; of a only what belongs to blob i. */
  ghost predicate Settled(s: State, t: State, i: nat, a: nat) {
    && |t.blobs| == |s.blobs| && |t.memories| == |s.memories| && t.own == s.own && i < |s.blobs| && a < |s.memories|
    && (forall k | 0 <= k < |s.blobs| && k != i :: t.blobs[k] == s.blobs[k])
    && (forall c | 0 <= c < |s.memories| && c != a :: t.memories[c] == s.memories[c])
    && s.blobs[i].allocator == Some(a) == t.blobs[i].allocator
    && SettledMemory(s.memories[a], t.memories[a], s.blobs[i].handle, t.blobs[i].handle)
  }

  /** A memory before and after its holder's handle changed from h to g. */
  ghost predicate SettledMemory(m: Memory, n: Memory, h: Option<Handle>, g: Option<Handle>) {
    && Accounts(n)
    && (forall x | x in n.live && x !in n.refused && g != Some(x) :: x in m.live && x !in m.refused && h != Some(x))
    && (forall x | x in m.live && x !in m.refused && h != Some(x) ::
          x in n.live && x !in n.refused && g != Some(x) && n.live[x] == m.live[x])
    && (g.Some? ==> g.value in n.live && g.value !in n.refused)
  }

  lemma SettledOwned(s: State, t: State, i: nat, a: nat, c: nat)
    requires Consistent(s) && Settled(s, t, i, a) && c < |t.memories|
    ensures MemoryOwned(t, c)
  {
    assert MemoryOwned(s, c);
    forall h | h in t.memories[c].live && h !in t.memories[c].refused
      ensures Held(t, c, h)
    {
      if c == a && t.blobs[i].handle == Some(h) {
        assert Holds(t.blobs[i], c, h);
      } else {
        assert Held(s, c, h);
        var k :| 0 <= k < |s.blobs| && Holds(s.blobs[k], c, h);
        assert k != i ==> Holds(t.blobs[k], c, h);
      }
    }
  }

  /** Another blob that shares the allocator holds something else. */
  lemma OtherHolder(s: State, t: State, i: nat, a: nat, k: nat)
    requires Consistent(s) && Settled(s, t, i, a) && k < |s.blobs| && k != i
    ensures BlobOwns(t, k) && Unshared(t, i, k) && Unshared(t, k, i)
    ensures Data(t, k) == Data(s, k)
  {
    assert BlobOwns(s, k) && Unshared(s, i, k);
    assert t.blobs[k] == s.blobs[k];
  }

  lemma SettledIsConsistent(s: State, t: State, i: nat, a: nat)
    requires Consistent(s) && Settled(s, t, i, a)
    ensures Consistent(t)
    ensures forall k: nat | k < |s.blobs| && k != i :: t.blobs[k] == s.blobs[k] && Data(t, k) == Data(s, k)
  {
    forall c: nat | c < |t.memories|
      ensures MemoryOwned(t, c)
    {
      SettledOwned(s, t, i, a, c);
    }
    forall k: nat | k < |t.blobs|
      ensures BlobOwns(t, k)
      ensures k != i ==> Unshared(t, i, k) && Unshared(t, k, i) && Data(t, k) == Data(s, k)
    {
      if k != i {
        OtherHolder(s, t, i, a, k);
      }
    }
    forall j: nat, k: nat | j < |t.blobs| && k < |t.blobs| && j != k
      ensures Unshared(t, j, k)
    {
      assert Unshared(s, j, k);
    }
  }

  lemma ReleaseSettles(m: Memory, h: Option<Handle>, releases: bool)
    requires Accounts(m) && (h.Some? ==> h.value in m.live && h.value !in m.refused)
    ensures SettledMemory(m, FreeHandle(m, h, releases), h, None)
  {
  }

  lemma AcquireSettles(m: Memory, granted: bool, data: seq<int>)
    requires Accounts(m)
    ensures var (n, h) := AllocHandle(m, granted, data);
            SettledMemory(m, n, None, h) && h.Some? == granted && (granted ==> n.live[h.value] == data)
  {
    assert m.next !in m.live && m.next !in m.freed && m.next !in m.refused;
  }

  lemma WriteSettles(m: Memory, h: Handle, data: seq<int>)
    requires Accounts(m) && h in m.live && h !in m.refused
    ensures SettledMemory(m, m.(live := m.live[h := data]), Some(h), Some(h))
  {
  }

  /** What an operation on blob i leaves of blob k. */
  ghost predicate Kept(s: State, t: State, k: nat) {
    k < |s.blobs| && k < |t.blobs| && t.blobs[k] == s.blobs[k] && Data(t, k) == Data(s, k)
  }

  ghost predicate OthersKept(s: State, t: State, i: nat) {
    |t.blobs| == |s.blobs| && forall k: nat | k < |s.blobs| && k != i :: Kept(s, t, k)
  }

  lemma KeptThrough(s: State, t: State, u: State, i: nat)
    requires OthersKept(s, t, i) && OthersKept(t, u, i)
    ensures OthersKept(s, u, i)
  {
    forall k: nat | k < |s.blobs| && k != i
      ensures Kept(s, u, k)
    {
      assert Kept(s, t, k) && Kept(t, u, k);
    }
  }

  lemma ReplacedIsConsistent(s: State, i: nat, m: Memory, h: Option<Handle>)
    requires Consistent(s) && HasMemory(s, i) && SettledMemory(MemoryOf(s, i), m, s.blobs[i].handle, h)
    ensures Consistent(Replaced(s, i, m, h)) && OthersKept(s, Replaced(s, i, m, h), i)
  {
    SettledIsConsistent(s, Replaced(s, i, m, h), i, s.blobs[i].allocator.value);
  }

  lemma ReleasedIsConsistent(s: State, i: nat, releases: bool)
    requires Consistent(s) && HasMemory(s, i)
    ensures Consistent(Released(s, i, releases)) && OthersKept(s, Released(s, i, releases), i)
  {
    assert BlobOwns(s, i) && MemoryOwned(s, s.blobs[i].allocator.value);
    ReleaseSettles(MemoryOf(s, i), s.blobs[i].handle, releases);
    ReplacedIsConsistent(s, i, FreeHandle(MemoryOf(s, i), s.blobs[i].handle, releases), None);
  }

  lemma AcquiredIsConsistent(s: State, i: nat, granted: bool, contents: Contents)
    requires Consistent(s) && HasMemory(s, i) && s.blobs[i].handle.None?
    ensures var t := Acquired(s, i, granted, contents);
            && Consistent(t) && OthersKept(s, t, i) && t.blobs[i].size == s.blobs[i].size
            && t.blobs[i].handle.Some? == granted && HasMemory(t, i)
            && Data(t, i) == if granted then Some(seq(s.blobs[i].size, contents)) else None
  {
    assert MemoryOwned(s, s.blobs[i].allocator.value);
    var data := seq(s.blobs[i].size, contents);
    var (m, h) := AllocHandle(MemoryOf(s, i), granted, data);
    AcquireSettles(MemoryOf(s, i), granted, data);
    ReplacedIsConsistent(s, i, m, h);
  }

  lemma WrittenIsConsistent(s: State, i: nat, data: seq<int>)
    requires Consistent(s) && HasMemory(s, i) && s.blobs[i].handle.Some?
    ensures var t := Written(s, i, data);
            Consistent(t) && OthersKept(s, t, i) && t.blobs[i] == s.blobs[i] && Data(t, i) == Some(data)
  {
    assert BlobOwns(s, i) && MemoryOwned(s, s.blobs[i].allocator.value);
    var m, h := MemoryOf(s, i), s.blobs[i].handle;
    WriteSettles(m, h.value, data);
    ReplacedIsConsistent(s, i, m.(live := m.live[h.value := data]), h);
  }

  // ---- the other steps -----------------------------------------------------------------------

  /** One allocator more, and at most blobs without one have got it. */
  ghost predicate OneMore(s: State, t: State) {
    && t.memories == s.memories + [UNUSED] && |t.blobs| == |s.blobs|
    && (forall k | 0 <= k < |s.blobs| ::
          t.blobs[k] == s.blobs[k] ||
          (s.blobs[k].allocator.None? && t.blobs[k] == s.blobs[k].(allocator := Some(|s.memories|))))
    && (forall k | 0 <= k < |t.own| :: t.own[k] < |t.memories|)
  }

  lemma OneMoreBlob(s: State, t: State, k: nat)
    requires Consistent(s) && OneMore(s, t) && k < |s.blobs|
    ensures BlobOwns(t, k) && t.blobs[k].handle == s.blobs[k].handle && Data(t, k) == Data(s, k)
    ensures s.blobs[k].handle.Some? ==> t.blobs[k].allocator == s.blobs[k].allocator
  {
    assert BlobOwns(s, k);
  }

  lemma OneMoreIsConsistent(s: State, t: State)
    requires Consistent(s) && OneMore(s, t)
    ensures Consistent(t)
    ensures forall k: nat | k < |s.blobs| :: Data(t, k) == Data(s, k)
  {
    forall k: nat | k < |s.blobs|
      ensures BlobOwns(t, k) && Data(t, k) == Data(s, k)
    {
      OneMoreBlob(s, t, k);
    }
    forall a: nat | a < |t.memories|
      ensures MemoryOwned(t, a)
    {
      if a < |s.memories| {
        assert MemoryOwned(s, a);
        forall h | h in t.memories[a].live && h !in t.memories[a].refused
          ensures Held(t, a, h)
        {
          assert Held(s, a, h);
          var k :| 0 <= k < |s.blobs| && Holds(s.blobs[k], a, h);
          assert Holds(t.blobs[k], a, h);
        }
      }
    }
    forall i: nat, j: nat | i < |t.blobs| && j < |t.blobs| && i != j
      ensures Unshared(t, i, j)
    {
      assert Unshared(s, i, j);
      OneMoreBlob(s, t, i);
      OneMoreBlob(s, t, j);
    }
  }

  lemma WithAllocatorIsConsistent(s: State, i: nat)
    requires Consistent(s) && i < |s.blobs|
    ensures var t := WithAllocator(s, i);
            && Consistent(t) && HasMemory(t, i) && OthersKept(s, t, i)
            && t.blobs[i].size == s.blobs[i].size && t.blobs[i].handle == s.blobs[i].handle && Data(t, i) == Data(s, i)
  {
    assert BlobOwns(s, i);
    if s.blobs[i].allocator.None? {
      OneMoreIsConsistent(s, WithAllocator(s, i));
    }
  }

  lemma ResizedIsConsistent(s: State, i: nat, size: nat)
    requires Consistent(s) && i < |s.blobs|
    ensures Consistent(Resized(s, i, size)) && OthersKept(s, Resized(s, i, size), i)
    ensures Data(Resized(s, i, size), i) == Data(s, i)
  {
    var t := Resized(s, i, size);
    forall a: nat | a < |t.memories|
      ensures MemoryOwned(t, a)
    {
      assert MemoryOwned(s, a);
      forall h | h in t.memories[a].live && h !in t.memories[a].refused
        ensures Held(t, a, h)
      {
        assert Held(s, a, h);
        var k :| 0 <= k < |s.blobs| && Holds(s.blobs[k], a, h);
        assert Holds(t.blobs[k], a, h);
      }
    }
    forall k: nat | k < |t.blobs|
      ensures BlobOwns(t, k)
    {
      assert BlobOwns(s, k);
    }
    forall j: nat, k: nat | j < |t.blobs| && k < |t.blobs| && j != k
      ensures Unshared(t, j, k)
    {
      assert Unshared(s, j, k);
    }
  }

  lemma FreeIsConsistent(s: State, i: nat, releases: bool)
    requires Consistent(s) && i < |s.blobs|
    ensures var t := Free(s, i, releases);
            Consistent(t) && OthersKept(s, t, i) && t.blobs[i].handle.None? && t.blobs[i].size == s.blobs[i].size
  {
    var t := WithAllocator(s, i);
    WithAllocatorIsConsistent(s, i);
    ReleasedIsConsistent(t, i, releases);
    KeptThrough(s, t, Free(s, i, releases), i);
  }

  lemma ReallocatedIsConsistent(s: State, i: nat, granted: bool, releases: bool, contents: Contents)
    requires Consistent(s) && i < |s.blobs|
    ensures var t := Reallocated(s, i, granted, releases, contents);
            && Consistent(t) && OthersKept(s, t, i) && t.blobs[i].size == s.blobs[i].size
            && t.blobs[i].handle.Some? == granted && HasMemory(t, i)
            && Data(t, i) == if granted then Some(seq(s.blobs[i].size, contents)) else None
  {
    var t := WithAllocator(s, i);
    WithAllocatorIsConsistent(s, i);
    var u := Released(t, i, releases);
    ReleasedIsConsistent(t, i, releases);
    AcquiredIsConsistent(u, i, granted, contents);
    KeptThrough(s, t, u, i);
    KeptThrough(s, u, Acquired(u, i, granted, contents), i);
  }

  /** A copy to itself is left with what fresh memory holds. */
  lemma CopiedIsConsistent(s: State, i: nat, j: nat, granted: bool, releases: bool, contents: Contents)
    requires Consistent(s) && i < |s.blobs| && j < |s.blobs|
    ensures var t := Copied(s, i, j, granted, releases, contents);
            && Consistent(t) && OthersKept(s, t, i) && t.blobs[i].size == s.blobs[j].size
            && t.blobs[i].handle.Some? == granted
            && Data(t, i) == if !granted then None
                             else if i != j && Data(s, j).Some? then Data(s, j)
                             else Some(seq(s.blobs[j].size, contents))
  {
    var r := Resized(s, i, s.blobs[j].size);
    var t := Reallocated(r, i, granted, releases, contents);
    ResizedIsConsistent(s, i, s.blobs[j].size);
    ReallocatedIsConsistent(r, i, granted, releases, contents);
    KeptThrough(s, r, t, i);
    if i != j {
      assert Kept(s, t, j);
    }
    if t.blobs[i].handle.Some? && Data(t, j).Some? {
      WrittenIsConsistent(t, i, Data(t, j).value);
      KeptThrough(s, t, Written(t, i, Data(t, j).value), i);
    }
  }

  /** Blobs may come, go and change places as long as what is held stays held by
      one: each blob k of t with memory is blob from(k) of s, for all of s's. */
  ghost predicate Renamed(s: State, t: State, from: nat -> nat, to: nat -> nat) {
    && t.memories == s.memories && t.own == s.own
    && (forall k: nat | k < |t.blobs| :: RenamedBlob(s, t, k, from))
    && (forall k: nat | k < |s.blobs| && s.blobs[k].handle.Some? ::
          to(k) < |t.blobs| && from(to(k)) == k && t.blobs[to(k)] == s.blobs[k])
    && (forall j: nat, k: nat | j < k < |t.blobs| && t.blobs[j].handle.Some? && t.blobs[k].handle.Some? ::
          from(j) != from(k))
  }

  ghost predicate RenamedBlob(s: State, t: State, k: nat, from: nat -> nat)
    requires k < |t.blobs|
  {
    if t.blobs[k].handle.Some? then from(k) < |s.blobs| && t.blobs[k] == s.blobs[from(k)]
    else t.blobs[k].allocator.Some? ==> t.blobs[k].allocator.value < |s.memories|
  }

  lemma RenamedOwned(s: State, t: State, from: nat -> nat, to: nat -> nat, a: nat)
    requires Consistent(s) && Renamed(s, t, from, to) && a < |t.memories|
    ensures MemoryOwned(t, a)
  {
    assert MemoryOwned(s, a);
    forall h | h in t.memories[a].live && h !in t.memories[a].refused
      ensures Held(t, a, h)
    {
      assert Held(s, a, h);
      var k :| 0 <= k < |s.blobs| && Holds(s.blobs[k], a, h);
      assert Holds(t.blobs[to(k)], a, h);
    }
  }

  lemma RenamedIsConsistent(s: State, t: State, from: nat -> nat, to: nat -> nat)
    requires Consistent(s) && Renamed(s, t, from, to)
    ensures Consistent(t)
  {
    forall a: nat | a < |t.memories|
      ensures MemoryOwned(t, a)
    {
      RenamedOwned(s, t, from, to, a);
    }
    forall k: nat | k < |t.blobs|
      ensures BlobOwns(t, k)
    {
      assert RenamedBlob(s, t, k, from);
      if t.blobs[k].handle.Some? {
        assert BlobOwns(s, from(k));
      }
    }
    forall j: nat, k: nat | j < |t.blobs| && k < |t.blobs| && j != k
      ensures Unshared(t, j, k)
    {
      if t.blobs[j].handle.Some? && t.blobs[k].handle.Some? {
        assert RenamedBlob(s, t, j, from) && RenamedBlob(s, t, k, from);
        assert Unshared(s, from(j), from(k));
      }
    }
  }

  lemma AddedIsConsistent(s: State, b: BlobValue)
    requires Consistent(s) && b.handle.None? && (b.allocator.Some? ==> b.allocator.value < |s.memories|)
    ensures Consistent(Added(s, b))
    ensures forall k: nat | k < |s.blobs| :: Kept(s, Added(s, b), k)
  {
    var t, same := Added(s, b), (k: nat) => k;
    forall k: nat | k < |t.blobs|
      ensures RenamedBlob(s, t, k, same)
    {
      if k < |s.blobs| {
        assert BlobOwns(s, k) && t.blobs[k] == s.blobs[k];
      }
    }
    RenamedIsConsistent(s, t, same, same);
  }

  lemma RemovedBlobs(s: State, i: nat)
    requires i < |s.blobs|
    ensures Shifted(s, Removed(s, i), i)
  {
  }

  /** The blobs after blob i have moved up by one. */
  ghost predicate Shifted(s: State, t: State, i: nat) {
    && t.memories == s.memories && t.own == s.own && i < |s.blobs| && |t.blobs| == |s.blobs| - 1
    && forall k: nat | k < |t.blobs| :: t.blobs[k] == s.blobs[if k < i then k else k + 1]
  }

  lemma ShiftedBlob(s: State, t: State, i: nat, k: nat)
    requires Shifted(s, t, i) && k < |s.blobs| && k != i
    ensures var j := if k < i then k else k - 1;
            t.blobs[j] == s.blobs[k] && Data(t, j) == Data(s, k)
  {
  }

  lemma ShiftedIsConsistent(s: State, t: State, i: nat)
    requires Consistent(s) && Shifted(s, t, i) && s.blobs[i].handle.None?
    ensures Consistent(t)
  {
    var from, to := (k: nat) => if k < i then k else k + 1, (k: nat) => if k < i || k == 0 then k else k - 1;
    forall k: nat | k < |t.blobs|
      ensures RenamedBlob(s, t, k, from)
    {
      assert BlobOwns(s, from(k)) && t.blobs[k] == s.blobs[from(k)];
    }
    forall k: nat | k < |s.blobs| && s.blobs[k].handle.Some?
      ensures to(k) < |t.blobs| && from(to(k)) == k && t.blobs[to(k)] == s.blobs[k]
    {
      assert k != i;
    }
    RenamedIsConsistent(s, t, from, to);
  }

  lemma RemovedIsConsistent(s: State, i: nat)
    requires Consistent(s) && i < |s.blobs| && s.blobs[i].handle.None?
    ensures Consistent(Removed(s, i))
    ensures forall k: nat | k < |s.blobs| && k != i ::
              var j := if k < i then k else k - 1;
              Removed(s, i).blobs[j] == s.blobs[k] && Data(Removed(s, i), j) == Data(s, k)
  {
    RemovedBlobs(s, i);
    ShiftedIsConsistent(s, Removed(s, i), i);
    forall k: nat | k < |s.blobs| && k != i
      ensures var j := if k < i then k else k - 1;
              Removed(s, i).blobs[j] == s.blobs[k] && Data(Removed(s, i), j) == Data(s, k)
    {
      ShiftedBlob(s, Removed(s, i), i, k);
    }
  }

  lemma MovedIsConsistent(s: State, i: nat, j: nat)
    requires Consistent(s) && i < |s.blobs| && j < |s.blobs| && i != j && s.blobs[i].handle.None?
    ensures var t := Moved(s, i, j);
            && Consistent(t) && t.blobs[i] == s.blobs[j] && Data(t, i) == Data(s, j)
            && t.blobs[j] == BlobValue(s.blobs[j].size, None, None) && Data(t, j) == None
            && forall k: nat | k < |s.blobs| && k != i && k != j :: Kept(s, t, k)
  {
    var t := Moved(s, i, j);
    var from, to := (k: nat) => if k == i then j else k, (k: nat) => if k == j then i else k;
    forall k: nat | k < |t.blobs|
      ensures RenamedBlob(s, t, k, from)
    {
      assert BlobOwns(s, from(k));
      assert k != j ==> t.blobs[k] == s.blobs[from(k)];
    }
    forall k: nat | k < |s.blobs| && s.blobs[k].handle.Some?
      ensures to(k) < |t.blobs| && from(to(k)) == k && t.blobs[to(k)] == s.blobs[k]
    {
      assert k != i;
    }
    RenamedIsConsistent(s, t, from, to);
  }

  // ---- whole runs ----------------------------------------------------------------------------

  lemma EmptyIsConsistent()
    ensures Consistent(EMPTY) && Sized(EMPTY)
  {
  }

  lemma SizedKept(s: State, t: State, i: nat)
    requires Sized(s) && OthersKept(s, t, i) && i < |t.blobs| && SizedAt(t, i)
    ensures Sized(t)
  {
    forall k: nat | k < |t.blobs|
      ensures SizedAt(t, k)
    {
      if k != i {
        assert Kept(s, t, k) && SizedAt(s, k);
      }
    }
  }

  lemma CopyConsistent(s: State, i: nat, j: nat, granted: bool, releases: bool, contents: Contents)
    requires Consistent(s) && Sized(s) && i < |s.blobs| && j < |s.blobs|
    ensures Consistent(Copied(s, i, j, granted, releases, contents))
    ensures Sized(Copied(s, i, j, granted, releases, contents))
  {
    assert SizedAt(s, j);
    CopiedIsConsistent(s, i, j, granted, releases, contents);
    SizedKept(s, Copied(s, i, j, granted, releases, contents), i);
  }

  lemma ConstructConsistent(s: State, b: BlobValue)
    requires Consistent(s) && Sized(s) && b.handle.None? && (b.allocator.Some? ==> b.allocator.value < |s.memories|)
    ensures Consistent(Added(s, b)) && Sized(Added(s, b))
  {
    AddedIsConsistent(s, b);
    forall k: nat | k < |s.blobs| + 1
      ensures SizedAt(Added(s, b), k)
    {
      if k < |s.blobs| {
        assert Kept(s, Added(s, b), k) && SizedAt(s, k);
      }
    }
  }

  lemma MoveConsistent(s: State, i: nat, j: nat)
    requires Consistent(s) && Sized(s) && i < |s.blobs| && j < |s.blobs| && i != j && s.blobs[i].handle.None?
    ensures Consistent(Moved(s, i, j)) && Sized(Moved(s, i, j))
  {
    MovedIsConsistent(s, i, j);
    forall k: nat | k < |s.blobs|
      ensures SizedAt(Moved(s, i, j), k)
    {
      assert SizedAt(s, if k == i then j else k);
      if k != i && k != j {
        assert Kept(s, Moved(s, i, j), k);
      }
    }
  }

  lemma FreeConsistent(s: State, i: nat, releases: bool)
    requires Consistent(s) && Sized(s) && i < |s.blobs|
    ensures Consistent(Free(s, i, releases)) && Sized(Free(s, i, releases))
  {
    FreeIsConsistent(s, i, releases);
    SizedKept(s, Free(s, i, releases), i);
  }

  lemma DestroyConsistent(s: State, i: nat, releases: bool)
    requires Consistent(s) && Sized(s) && i < |s.blobs|
    ensures Consistent(Removed(Free(s, i, releases), i)) && Sized(Removed(Free(s, i, releases), i))
  {
    var t := Free(s, i, releases);
    FreeIsConsistent(s, i, releases);
    FreeConsistent(s, i, releases);
    RemovedIsConsistent(t, i);
    forall j: nat | j < |t.blobs| - 1
      ensures SizedAt(Removed(t, i), j)
    {
      assert SizedAt(t, if j < i then j else j + 1);
    }
  }

  lemma NewAllocatorConsistent(s: State)
    requires Consistent(s) && Sized(s)
    ensures Consistent(Apply(s, NewAllocator)) && Sized(Apply(s, NewAllocator))
  {
    var t := Apply(s, NewAllocator);
    OneMoreIsConsistent(s, t);
    forall k: nat | k < |t.blobs|
      ensures SizedAt(t, k)
    {
      assert SizedAt(s, k);
    }
  }

  lemma ReallocateConsistent(s: State, i: nat, granted: bool, releases: bool, contents: Contents)
    requires Consistent(s) && Sized(s) && i < |s.blobs|
    ensures Consistent(Reallocated(s, i, granted, releases, contents))
    ensures Sized(Reallocated(s, i, granted, releases, contents))
  {
    ReallocatedIsConsistent(s, i, granted, releases, contents);
    SizedKept(s, Reallocated(s, i, granted, releases, contents), i);
  }

  lemma MakeConsistent(s: State, op: Op)
    requires Consistent(s) && Sized(s) && op.Construct?
    ensures Consistent(Apply(s, op)) && Sized(Apply(s, op))
  {
    var a := if op.using.Some? && op.using.value < |s.own| then Some(s.own[op.using.value]) else None;
    ConstructConsistent(s, BlobValue(op.size, a, None));
  }

  lemma CopyConstructConsistent(s: State, op: Op)
    requires Consistent(s) && Sized(s) && op.CopyConstruct?
    ensures Consistent(Apply(s, op)) && Sized(Apply(s, op))
  {
    if op.source < |s.blobs| {
      var b := BlobValue(s.blobs[op.source].size, None, None);
      ConstructConsistent(s, b);
      CopyConsistent(Added(s, b), |s.blobs|, op.source, op.granted, true, op.contents);
    }
  }

  lemma MoveConstructConsistent(s: State, op: Op)
    requires Consistent(s) && Sized(s) && op.MoveConstruct?
    ensures Consistent(Apply(s, op)) && Sized(Apply(s, op))
  {
    if op.source < |s.blobs| {
      var b := BlobValue(s.blobs[op.source].size, None, None);
      ConstructConsistent(s, b);
      MoveConsistent(Added(s, b), |s.blobs|, op.source);
    }
  }

  /** Every operation keeps ownership: what blobs hold is live memory of their own
      allocators, each held by one, and live memory that nobody holds is memory
      whose release was refused. */
  lemma ApplyConsistent(s: State, op: Op)
    requires Consistent(s) && Sized(s)
    ensures Consistent(Apply(s, op)) && Sized(Apply(s, op))
  {
    match op
    case NewAllocator => NewAllocatorConsistent(s);
    case Construct(_, _) => MakeConsistent(s, op);
    case Allocate(i, granted, releases, contents) =>
      if i < |s.blobs| { ReallocateConsistent(s, i, granted, releases, contents); }
    case Deallocate(i, releases) =>
      if i < |s.blobs| { FreeConsistent(s, i, releases); }
    case CopyConstruct(_, _, _) => CopyConstructConsistent(s, op);
    case CopyAssign(i, j, granted, releases, contents) =>
      if i < |s.blobs| && j < |s.blobs| { CopyConsistent(s, i, j, granted, releases, contents); }
    case MoveConstruct(_) => MoveConstructConsistent(s, op);
    case Destroy(i, releases) =>
      if i < |s.blobs| { DestroyConsistent(s, i, releases); }
  }

  lemma {:induction false} RunConsistent(s: State, ops: seq<Op>)
    requires Consistent(s) && Sized(s)
    ensures Consistent(Run(s, ops)) && Sized(Run(s, ops))
  {
    if ops == [] {
    } else {
      RunConsistent(s, ops[..|ops| - 1]);
      ApplyConsistent(Run(s, ops[..|ops| - 1]), ops[|ops| - 1]);
    }
  }

  lemma ReleasedNothing(s: State, i: nat, releases: bool)
    requires HasMemory(s, i) && s.blobs[i].handle.None?
    ensures Released(s, i, releases) == s
  {
    assert s.blobs[i := s.blobs[i].(handle := None)] == s.blobs;
    assert s.memories[s.blobs[i].allocator.value := MemoryOf(s, i)] == s.memories;
  }

  /** Which sides of a copy have memory when it comes to copying the data. */
  lemma CopyTarget(s: State, i: nat, j: nat, granted: bool, releases: bool, contents: Contents)
    requires Consistent(s) && i < |s.blobs| && j < |s.blobs|
    ensures var t := Reallocated(Resized(s, i, s.blobs[j].size), i, granted, releases, contents);
            && HasMemory(t, i) && t.blobs[i].handle.Some? == granted
            && (i != j ==> t.blobs[j] == s.blobs[j])
            && (t.blobs[j].handle.Some? <==> Data(t, j).Some?)
  {
    var r := Resized(s, i, s.blobs[j].size);
    ResizedIsConsistent(s, i, s.blobs[j].size);
    ReallocatedIsConsistent(r, i, granted, releases, contents);
    var t := Reallocated(r, i, granted, releases, contents);
    assert BlobOwns(t, j);
    if i != j {
      assert Kept(r, t, j);
    }
  }

  // ---- which allocator a blob asks --------------------------------------------------------------

  /** Blob i of t has the allocator it had in s, and no allocator is new; or it
      had none, and t has exactly one allocator more, which is the blob's.  All
      other allocators are as they were. */
  ghost predicate AsksItsOwn(s: State, t: State, i: nat, a: nat) {
    && i < |s.blobs| && i < |t.blobs| && t.blobs[i].allocator == Some(a)
    && (if s.blobs[i].allocator.Some? then a == s.blobs[i].allocator.value && |t.memories| == |s.memories|
        else a == |s.memories| && |t.memories| == |s.memories| + 1)
    && a < |t.memories| && forall c: nat | c < |s.memories| && c != a :: t.memories[c] == s.memories[c]
  }

  /** Handles issued by the blob's allocator before. */
  function IssuedBefore(s: State, i: nat): nat
    requires i < |s.blobs| && (s.blobs[i].allocator.Some? ==> s.blobs[i].allocator.value < |s.memories|)
  {
    if s.blobs[i].allocator.Some? then s.memories[s.blobs[i].allocator.value].next else 0
  }

  /** Releasing memory, a blob turns to its own allocator, which issues nothing. */
  lemma FreeAsksItsOwn(s: State, i: nat, releases: bool) returns (a: nat)
    requires Consistent(s) && i < |s.blobs|
    ensures (s.blobs[i].allocator.Some? ==> s.blobs[i].allocator.value < |s.memories|)
    ensures AsksItsOwn(s, Free(s, i, releases), i, a)
    ensures Free(s, i, releases).memories[a].next == IssuedBefore(s, i)
    ensures Free(s, i, releases).blobs[i].handle == None
  {
    assert BlobOwns(s, i);
    a := if s.blobs[i].allocator.Some? then s.blobs[i].allocator.value else |s.memories|;
  }

  /** The memory a blob is given is the next its own allocator issues. */
  lemma ReallocatedAsksItsOwn(s: State, i: nat, granted: bool, releases: bool, contents: Contents) returns (a: nat)
    requires Consistent(s) && i < |s.blobs|
    ensures (s.blobs[i].allocator.Some? ==> s.blobs[i].allocator.value < |s.memories|)
    ensures var t := Reallocated(s, i, granted, releases, contents);
            AsksItsOwn(s, t, i, a) &&
            t.blobs[i].handle == (if granted then Some(IssuedBefore(s, i)) else None) &&
            t.memories[a].next == IssuedBefore(s, i) + if granted then 1 else 0
  {
    assert BlobOwns(s, i);
    a := if s.blobs[i].allocator.Some? then s.blobs[i].allocator.value else |s.memories|;
  }

  /** ... also when it is to hold a copy: the allocator of the source is not
      asked. */
  lemma CopiedAsksItsOwn(s: State, i: nat, j: nat, granted: bool, releases: bool, contents: Contents) returns (a: nat)
    requires Consistent(s) && i < |s.blobs| && j < |s.blobs|
    ensures (s.blobs[i].allocator.Some? ==> s.blobs[i].allocator.value < |s.memories|)
    ensures var t := Copied(s, i, j, granted, releases, contents);
            AsksItsOwn(s, t, i, a) &&
            t.blobs[i].handle == (if granted then Some(IssuedBefore(s, i)) else None) &&
            t.memories[a].next == IssuedBefore(s, i) + if granted then 1 else 0
  {
    assert BlobOwns(s, i);
    var r := Resized(s, i, s.blobs[j].size);
    ResizedIsConsistent(s, i, s.blobs[j].size);
    a := ReallocatedAsksItsOwn(r, i, granted, releases, contents);
  }

  // ---- what an operation leaves alone ----------------------------------------------------------

  /** The blob the operation is about; copying leaves its source alone. */
  predicate Touches(s: State, op: Op, k: nat) {
    match op
    case Allocate(i, _, _, _) => i == k
    case Deallocate(i, _) => i == k
    case CopyAssign(i, _, _, _, _) => i == k
    case MoveConstruct(j) => j == k
    case Destroy(i, _) => i == k
    case _ => false
  }

  /** Where blob k is found after the operation. */
  function PlaceAfter(s: State, op: Op, k: nat): nat {
    if op.Destroy? && op.blob < |s.blobs| && op.blob < k then k - 1 else k
  }

  /** Blob k is where PlaceAfter says, as it was, data included. */
  ghost predicate KeptBy(s: State, op: Op, k: nat)
    requires k < |s.blobs|
  {
    var t, j := Apply(s, op), PlaceAfter(s, op, k);
    j < |t.blobs| && t.blobs[j] == s.blobs[k] && Data(t, j) == Data(s, k)
  }

  lemma ConstructKeeps(s: State, op: Op, k: nat)
    requires Consistent(s) && op.Construct? && k < |s.blobs|
    ensures KeptBy(s, op, k)
  {
    var a := if op.using.Some? && op.using.value < |s.own| then Some(s.own[op.using.value]) else None;
    AddedIsConsistent(s, BlobValue(op.size, a, None));
    assert Kept(s, Apply(s, op), k);
  }

  lemma AllocateKeeps(s: State, op: Op, k: nat)
    requires Consistent(s) && op.Allocate? && k < |s.blobs| && k != op.blob
    ensures KeptBy(s, op, k)
  {
    if op.blob < |s.blobs| {
      ReallocatedIsConsistent(s, op.blob, op.granted, op.releases, op.contents);
      assert Kept(s, Apply(s, op), k);
    }
  }

  lemma DeallocateKeeps(s: State, op: Op, k: nat)
    requires Consistent(s) && op.Deallocate? && k < |s.blobs| && k != op.blob
    ensures KeptBy(s, op, k)
  {
    if op.blob < |s.blobs| {
      FreeIsConsistent(s, op.blob, op.releases);
      assert Kept(s, Apply(s, op), k);
    }
  }

  lemma CopyAssignKeeps(s: State, op: Op, k: nat)
    requires Consistent(s) && op.CopyAssign? && k < |s.blobs| && k != op.blob
    ensures KeptBy(s, op, k)
  {
    if op.blob < |s.blobs| && op.source < |s.blobs| {
      CopiedIsConsistent(s, op.blob, op.source, op.granted, op.releases, op.contents);
      assert Kept(s, Apply(s, op), k);
    }
  }

  lemma CopyConstructKeeps(s: State, op: Op, k: nat)
    requires Consistent(s) && op.CopyConstruct? && k < |s.blobs|
    ensures KeptBy(s, op, k)
  {
    if op.source < |s.blobs| {
      var b := BlobValue(s.blobs[op.source].size, None, None);
      AddedIsConsistent(s, b);
      CopiedIsConsistent(Added(s, b), |s.blobs|, op.source, op.granted, true, op.contents);
      assert Kept(s, Added(s, b), k) && Kept(Added(s, b), Apply(s, op), k);
    }
  }

  lemma MoveConstructKeeps(s: State, op: Op, k: nat)
    requires Consistent(s) && op.MoveConstruct? && k < |s.blobs| && k != op.source
    ensures KeptBy(s, op, k)
  {
    if op.source < |s.blobs| {
      var b := BlobValue(s.blobs[op.source].size, None, None);
      AddedIsConsistent(s, b);
      MovedIsConsistent(Added(s, b), |s.blobs|, op.source);
      assert Kept(s, Added(s, b), k) && Kept(Added(s, b), Apply(s, op), k);
    }
  }

  lemma DestroyKeeps(s: State, op: Op, k: nat)
    requires Consistent(s) && op.Destroy? && k < |s.blobs| && k != op.blob
    ensures KeptBy(s, op, k)
  {
    if op.blob < |s.blobs| {
      FreeIsConsistent(s, op.blob, op.releases);
      RemovedIsConsistent(Free(s, op.blob, op.releases), op.blob);
      assert Kept(s, Free(s, op.blob, op.releases), k);
    }
  }

  /** An operation leaves every blob as it was that it is not about. */
  lemma ApplyKeeps(s: State, op: Op, k: nat)
    requires Consistent(s) && k < |s.blobs| && !Touches(s, op, k)
    ensures KeptBy(s, op, k)
  {
    match op
    case NewAllocator => OneMoreIsConsistent(s, Apply(s, op));
    case Construct(_, _) => ConstructKeeps(s, op, k);
    case Allocate(_, _, _, _) => AllocateKeeps(s, op, k);
    case Deallocate(_, _) => DeallocateKeeps(s, op, k);
    case CopyConstruct(_, _, _) => CopyConstructKeeps(s, op, k);
    case CopyAssign(_, _, _, _, _) => CopyAssignKeeps(s, op, k);
    case MoveConstruct(_) => MoveConstructKeeps(s, op, k);
    case Destroy(_, _) => DestroyKeeps(s, op, k);
  }

  // ---- allocators along a run ----------------------------------------------------------------

  /** The operation takes the allocator of blob k away, with the blob or not. */
  predicate Takes(op: Op, k: nat) {
    op == MoveConstruct(k) || (op.Destroy? && op.blob == k)
  }

  lemma ApplyKeepsAllocator(s: State, op: Op, k: nat)
    requires Consistent(s) && k < |s.blobs| && s.blobs[k].allocator.Some? && !Takes(op, k)
    ensures var t, j := Apply(s, op), PlaceAfter(s, op, k);
            j < |t.blobs| && t.blobs[j].allocator == s.blobs[k].allocator
  {
    if !Touches(s, op, k) {
      ApplyKeeps(s, op, k);
    } else {
      match op
      case Allocate(i, granted, releases, contents) =>
        var _ := ReallocatedAsksItsOwn(s, i, granted, releases, contents);
      case Deallocate(i, releases) =>
        var _ := FreeAsksItsOwn(s, i, releases);
      case CopyAssign(i, j, granted, releases, contents) =>
        if j < |s.blobs| {
          var _ := CopiedAsksItsOwn(s, i, j, granted, releases, contents);
        }
    }
  }

  /** Where blob k of s is found after the operations. */
  function PlaceAlong(s: State, ops: seq<Op>, k: nat): nat {
    if ops == [] then k
    else PlaceAfter(Run(s, ops[..|ops| - 1]), ops[|ops| - 1], PlaceAlong(s, ops[..|ops| - 1], k))
  }

  /** None of the operations moves blob k of s elsewhere or destroys it. */
  predicate Spares(s: State, ops: seq<Op>, k: nat) {
    ops == [] ||
    (Spares(s, ops[..|ops| - 1], k) && !Takes(ops[|ops| - 1], PlaceAlong(s, ops[..|ops| - 1], k)))
  }

  lemma {:induction false} RunKeepsAllocator(s: State, ops: seq<Op>, k: nat)
    requires Consistent(s) && Sized(s) && k < |s.blobs| && s.blobs[k].allocator.Some? && Spares(s, ops, k)
    ensures var t, j := Run(s, ops), PlaceAlong(s, ops, k);
            j < |t.blobs| && t.blobs[j].allocator == s.blobs[k].allocator
  {
    if ops == [] {
    } else {
      var front := ops[..|ops| - 1];
      RunKeepsAllocator(s, front, k);
      RunConsistent(s, front);
      ApplyKeepsAllocator(Run(s, front), ops[|ops| - 1], PlaceAlong(s, front, k));
    }
  }

  lemma {:induction false} RunJoin(s: State, a: seq<Op>, b: seq<Op>)
    ensures Run(s, a + b) == Run(Run(s, a), b)
  {
    if b == [] {
      assert a + b == a;
    } else {
      assert (a + b)[..|a + b| - 1] == a + b[..|b| - 1];
      RunJoin(s, a, b[..|b| - 1]);
    }
  }

  /** A blob constructed with an allocator keeps it until it is moved or
      destroyed: whatever memory it holds was issued by that allocator. */
  lemma ConstructedKeepsAllocator(done: seq<Op>, size: nat, u: nat, rest: seq<Op>)
    requires u < |Run(EMPTY, done).own|
    requires Spares(Run(EMPTY, done + [Construct(size, Some(u))]), rest, |Run(EMPTY, done).blobs|)
    ensures var before, first := Run(EMPTY, done), Run(EMPTY, done + [Construct(size, Some(u))]);
            var end, k := Run(EMPTY, done + [Construct(size, Some(u))] + rest), PlaceAlong(first, rest, |before.blobs|);
            k < |end.blobs| && end.blobs[k].allocator == Some(before.own[u]) &&
            forall h | end.blobs[k].handle == Some(h) ::
              before.own[u] < |end.memories| && h in end.memories[before.own[u]].live &&
              h < end.memories[before.own[u]].next
  {
    var op, before := Construct(size, Some(u)), Run(EMPTY, done);
    var first := Run(EMPTY, done + [op]);
    assert (done + [op])[..|done|] == done;
    EmptyIsConsistent();
    RunConsistent(EMPTY, done + [op]);
    RunKeepsAllocator(first, rest, |before.blobs|);
    RunJoin(EMPTY, done + [op], rest);
    RunConsistent(first, rest);
    HeldIsIssued(Run(first, rest), PlaceAlong(first, rest, |before.blobs|));
  }

  lemma HeldIsIssued(s: State, k: nat)
    requires Consistent(s) && k < |s.blobs| && s.blobs[k].allocator.Some?
    ensures forall h | s.blobs[k].handle == Some(h) ::
              s.blobs[k].allocator.value < |s.memories| && h in s.memories[s.blobs[k].allocator.value].live &&
              h < s.memories[s.blobs[k].allocator.value].next
  {
    assert BlobOwns(s, k);
    if s.blobs[k].handle.Some? {
      assert MemoryOwned(s, s.blobs[k].allocator.value);
    }
  }

  // ---- memory along a run --------------------------------------------------------------------

  ghost predicate Grown(m: Memory, n: Memory) {
    m.next <= n.next && (forall h: Handle :: m.freed[h] <= n.freed[h]) && m.refused <= n.refused
  }

  ghost predicate AllGrown(s: State, t: State) {
    |s.memories| <= |t.memories| && forall a: nat | a < |s.memories| :: Grown(s.memories[a], t.memories[a])
  }

  lemma GrownThrough(s: State, t: State, u: State)
    requires AllGrown(s, t) && AllGrown(t, u)
    ensures AllGrown(s, u)
  {
    forall a: nat | a < |s.memories|
      ensures Grown(s.memories[a], u.memories[a])
    {
      assert Grown(s.memories[a], t.memories[a]) && Grown(t.memories[a], u.memories[a]);
    }
  }

  lemma FreeKeepsCount(s: State, i: nat, releases: bool)
    requires i < |s.blobs|
    ensures |Free(s, i, releases).blobs| == |s.blobs|
    ensures |Removed(Free(s, i, releases), i).blobs| == |s.blobs| - 1
  {
  }

  lemma FreeGrows(s: State, i: nat, releases: bool)
    requires i < |s.blobs|
    ensures AllGrown(s, Free(s, i, releases))
  {
  }

  lemma AcquiredGrows(s: State, i: nat, granted: bool, contents: Contents)
    requires HasMemory(s, i)
    ensures AllGrown(s, Acquired(s, i, granted, contents))
  {
  }

  lemma ReallocatedGrows(s: State, i: nat, granted: bool, releases: bool, contents: Contents)
    requires i < |s.blobs|
    ensures AllGrown(s, Reallocated(s, i, granted, releases, contents))
  {
    var t := WithAllocator(s, i);
    if HasMemory(t, i) {
      var u := Released(t, i, releases);
      assert AllGrown(s, t) && AllGrown(t, u);
      GrownThrough(s, t, u);
      AcquiredGrows(u, i, granted, contents);
      GrownThrough(s, u, Acquired(u, i, granted, contents));
    }
  }

  lemma CopiedGrows(s: State, i: nat, j: nat, granted: bool, releases: bool, contents: Contents)
    requires i < |s.blobs| && j < |s.blobs|
    ensures AllGrown(s, Copied(s, i, j, granted, releases, contents))
  {
    var r := Resized(s, i, s.blobs[j].size);
    ReallocatedGrows(r, i, granted, releases, contents);
    GrownThrough(s, Reallocated(r, i, granted, releases, contents), Copied(s, i, j, granted, releases, contents));
  }

  lemma ApplyGrows(s: State, op: Op)
    ensures AllGrown(s, Apply(s, op))
  {
    match op
    case Allocate(i, granted, releases, contents) =>
      if i < |s.blobs| { ReallocatedGrows(s, i, granted, releases, contents); }
    case Deallocate(i, releases) =>
      if i < |s.blobs| { FreeGrows(s, i, releases); }
    case CopyConstruct(j, granted, contents) =>
      if j < |s.blobs| {
        CopiedGrows(Added(s, BlobValue(s.blobs[j].size, None, None)), |s.blobs|, j, granted, true, contents);
      }
    case CopyAssign(i, j, granted, releases, contents) =>
      if i < |s.blobs| && j < |s.blobs| { CopiedGrows(s, i, j, granted, releases, contents); }
    case Destroy(i, releases) =>
      if i < |s.blobs| { FreeGrows(s, i, releases); }
    case _ =>
  }

  /** From any point of a run on, no handle is issued again and no release undone. */
  lemma {:induction false} RunGrows(s: State, ops: seq<Op>, k: nat)
    requires k <= |ops|
    ensures AllGrown(Run(s, ops[..k]), Run(s, ops))
  {
    if k == |ops| {
      assert ops[..k] == ops;
    } else {
      var front := ops[..|ops| - 1];
      assert front[..k] == ops[..k];
      RunGrows(s, front, k);
      ApplyGrows(Run(s, front), ops[|ops| - 1]);
      GrownThrough(Run(s, ops[..k]), Run(s, front), Run(s, ops));
    }
  }

  /** When no blob is left, every handle issued at any point of the run has been
      freed exactly once, or its release has been refused and its memory is live. */
  lemma EveryHandleFreed(ops: seq<Op>, k: nat, a: nat, h: Handle)
    requires Run(EMPTY, ops).blobs == [] && k <= |ops|
    requires a < |Run(EMPTY, ops[..k]).memories| && h < Run(EMPTY, ops[..k]).memories[a].next
    ensures a < |Run(EMPTY, ops).memories|
    ensures var m := Run(EMPTY, ops).memories[a];
            if h in m.refused then h in m.live && m.freed[h] == 0 else h !in m.live && m.freed[h] == 1
  {
    var end := Run(EMPTY, ops);
    EmptyIsConsistent();
    RunConsistent(EMPTY, ops);
    RunGrows(EMPTY, ops, k);
    assert Grown(Run(EMPTY, ops[..k]).memories[a], end.memories[a]);
    NoBlobNoMemory(end, a, h);
  }

  lemma NoBlobNoMemory(s: State, a: nat, h: Handle)
    requires Consistent(s) && s.blobs == [] && a < |s.memories| && h < s.memories[a].next
    ensures var m := s.memories[a];
            if h in m.refused then h in m.live && m.freed[h] == 0 else h !in m.live && m.freed[h] == 1
  {
    assert MemoryOwned(s, a);
    if h in s.memories[a].live && h !in s.memories[a].refused {
      assert false;
    }
  }

  // ---- refusals --------------------------------------------------------------------------------

  /** The operation asks for memory to be released, and the allocator refuses. */
  predicate Refuses(s: State, op: Op) {
    match op
    case Allocate(i, _, releases, _) => i < |s.blobs| && s.blobs[i].handle.Some? && !releases
    case Deallocate(i, releases) => i < |s.blobs| && s.blobs[i].handle.Some? && !releases
    case CopyAssign(i, j, _, releases, _) =>
      i < |s.blobs| && j < |s.blobs| && s.blobs[i].handle.Some? && !releases
    case Destroy(i, releases) => i < |s.blobs| && s.blobs[i].handle.Some? && !releases
    case _ => false
  }

  predicate NeverRefuses(s: State, ops: seq<Op>) {
    ops == [] || (NeverRefuses(s, ops[..|ops| - 1]) && !Refuses(Run(s, ops[..|ops| - 1]), ops[|ops| - 1]))
  }

  ghost predicate NoneRefused(s: State) {
    forall a: nat | a < |s.memories| :: s.memories[a].refused == {}
  }

  lemma ReleasedRefuses(s: State, i: nat, releases: bool)
    requires HasMemory(s, i)
    ensures NoneRefused(Released(s, i, releases)) <==>
            NoneRefused(s) && (releases || s.blobs[i].handle.None?)
  {
    var t, a := Released(s, i, releases), s.blobs[i].allocator.value;
    assert t.memories[a] == FreeHandle(MemoryOf(s, i), s.blobs[i].handle, releases);
    if NoneRefused(t) {
      assert t.memories[a].refused == {};
      forall c: nat | c < |s.memories|
        ensures s.memories[c].refused == {}
      {
        assert t.memories[c].refused == {};
      }
    }
  }

  lemma SameRefusals(s: State, t: State)
    requires |s.memories| <= |t.memories|
    requires forall a: nat | a < |t.memories| ::
               t.memories[a].refused == if a < |s.memories| then s.memories[a].refused else {}
    ensures NoneRefused(t) <==> NoneRefused(s)
  {
    if NoneRefused(t) {
      forall a: nat | a < |s.memories|
        ensures s.memories[a].refused == {}
      {
        assert t.memories[a].refused == {};
      }
    }
  }

  lemma FreeRefuses(s: State, i: nat, releases: bool)
    requires Consistent(s) && i < |s.blobs|
    ensures NoneRefused(Free(s, i, releases)) <==> NoneRefused(s) && (releases || s.blobs[i].handle.None?)
  {
    var t := WithAllocator(s, i);
    WithAllocatorIsConsistent(s, i);
    SameRefusals(s, t);
    ReleasedRefuses(t, i, releases);
  }

  lemma ReallocatedRefuses(s: State, i: nat, granted: bool, releases: bool, contents: Contents)
    requires Consistent(s) && i < |s.blobs|
    ensures NoneRefused(Reallocated(s, i, granted, releases, contents)) <==>
            NoneRefused(s) && (releases || s.blobs[i].handle.None?)
  {
    var t := WithAllocator(s, i);
    WithAllocatorIsConsistent(s, i);
    SameRefusals(s, t);
    ReleasedRefuses(t, i, releases);
    SameRefusals(Released(t, i, releases), Acquired(Released(t, i, releases), i, granted, contents));
  }

  lemma CopiedRefuses(s: State, i: nat, j: nat, granted: bool, releases: bool, contents: Contents)
    requires Consistent(s) && i < |s.blobs| && j < |s.blobs|
    ensures NoneRefused(Copied(s, i, j, granted, releases, contents)) <==>
            NoneRefused(s) && (releases || s.blobs[i].handle.None?)
  {
    var r := Resized(s, i, s.blobs[j].size);
    ResizedIsConsistent(s, i, s.blobs[j].size);
    SameRefusals(s, r);
    ReallocatedRefuses(r, i, granted, releases, contents);
    SameRefusals(Reallocated(r, i, granted, releases, contents), Copied(s, i, j, granted, releases, contents));
  }

  lemma ConstructRefuses(s: State, op: Op)
    requires Consistent(s) && (op.NewAllocator? || op.Construct? || op.MoveConstruct?)
    ensures NoneRefused(Apply(s, op)) <==> NoneRefused(s)
  {
    SameRefusals(s, Apply(s, op));
  }

  lemma CopyConstructRefuses(s: State, op: Op)
    requires Consistent(s) && op.CopyConstruct?
    ensures NoneRefused(Apply(s, op)) <==> NoneRefused(s)
  {
    if op.source < |s.blobs| {
      var b := BlobValue(s.blobs[op.source].size, None, None);
      AddedIsConsistent(s, b);
      SameRefusals(s, Added(s, b));
      CopiedRefuses(Added(s, b), |s.blobs|, op.source, op.granted, true, op.contents);
    }
  }

  lemma DestroyRefuses(s: State, op: Op)
    requires Consistent(s) && op.Destroy?
    ensures NoneRefused(Apply(s, op)) <==> NoneRefused(s) && !Refuses(s, op)
  {
    if op.blob < |s.blobs| {
      FreeRefuses(s, op.blob, op.releases);
      SameRefusals(Free(s, op.blob, op.releases), Apply(s, op));
    }
  }

  lemma ApplyRefuses(s: State, op: Op)
    requires Consistent(s)
    ensures NoneRefused(Apply(s, op)) <==> NoneRefused(s) && !Refuses(s, op)
  {
    match op
    case Allocate(i, granted, releases, contents) =>
      if i < |s.blobs| { ReallocatedRefuses(s, i, granted, releases, contents); }
    case Deallocate(i, releases) =>
      if i < |s.blobs| { FreeRefuses(s, i, releases); }
    case CopyConstruct(_, _, _) => CopyConstructRefuses(s, op);
    case CopyAssign(i, j, granted, releases, contents) =>
      if i < |s.blobs| && j < |s.blobs| { CopiedRefuses(s, i, j, granted, releases, contents); }
    case Destroy(_, _) => DestroyRefuses(s, op);
    case _ => ConstructRefuses(s, op);
  }

  lemma {:induction false} RunRefuses(s: State, ops: seq<Op>)
    requires Consistent(s) && Sized(s)
    ensures NoneRefused(Run(s, ops)) <==> NoneRefused(s) && NeverRefuses(s, ops)
  {
    if ops == [] {
    } else {
      RunRefuses(s, ops[..|ops| - 1]);
      RunConsistent(s, ops[..|ops| - 1]);
      ApplyRefuses(Run(s, ops[..|ops| - 1]), ops[|ops| - 1]);
    }
  }

  /** When no blob is left, every handle ever issued has been freed exactly once,
      and no memory is live, if and only if no release was refused. */
  lemma AllFreedOnce(ops: seq<Op>)
    requires Run(EMPTY, ops).blobs == []
    ensures NeverRefuses(EMPTY, ops) <==>
            forall a: nat | a < |Run(EMPTY, ops).memories| :: FreedOnce(Run(EMPTY, ops).memories[a])
  {
    var end := Run(EMPTY, ops);
    EmptyIsConsistent();
    RunConsistent(EMPTY, ops);
    RunRefuses(EMPTY, ops);
    forall a: nat | a < |end.memories|
      ensures FreedOnce(end.memories[a]) <==> end.memories[a].refused == {}
    {
      NoBlobFreed(end, a);
    }
  }

  ghost predicate FreedOnce(m: Memory) {
    m.live == map[] && forall h: Handle | h < m.next :: m.freed[h] == 1
  }

  lemma NoBlobFreed(s: State, a: nat)
    requires Consistent(s) && s.blobs == [] && a < |s.memories|
    ensures FreedOnce(s.memories[a]) <==> s.memories[a].refused == {}
  {
    var m := s.memories[a];
    assert MemoryOwned(s, a);
    forall h: Handle | h < m.next
      ensures if h in m.refused then h in m.live && m.freed[h] == 0 else h !in m.live && m.freed[h] == 1
    {
      NoBlobNoMemory(s, a, h);
    }
    if m.refused == {} {
      assert m.live.Keys == {};
    }
  }
}
