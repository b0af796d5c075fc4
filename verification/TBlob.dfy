/** Blobs and allocators as objects that are changed in place. */
module TBlob {
  import opened Options
  import opened BlobModel

  class Allocator {
    ghost const number: nat
    var next: Handle
    ghost var live: map<Handle, seq<int>>
    ghost var freed: multiset<Handle>
    ghost var refused: set<Handle>

    ghost function View(): Memory
      reads this
    {
      Memory(next, live, freed, refused)
    }

    constructor (ghost number: nat)
      ensures this.number == number && View() == UNUSED
    {
      this.number := number;
      next := 0;
      live := map[];
      freed := multiset{};
      refused := {};
    }

    /** `granted` is false if there is no memory left. */
    method Alloc(granted: bool, ghost data: seq<int>) returns (h: Option<Handle>)
      modifies this
      ensures (View(), h) == AllocHandle(old(View()), granted, data)
    {
      if !granted {
        return None;
      }
      h := Some(next);
      live := live[next := data];
      next := next + 1;
    }

    /** Freeing no handle is allowed and does nothing.  `releases` is what the
        allocator answers: false if the handle cannot be released. */
    method Free(h: Option<Handle>, releases: bool) returns (released: bool)
      modifies this
      ensures released == releases && View() == FreeHandle(old(View()), h, releases)
    {
      if h.Some? {
        if releases {
          live := live - {h.value};
          freed := freed + multiset{h.value};
        } else {
          refused := refused + {h.value};
        }
      }
      return releases;
    }
  }

  /** All blobs and allocators there are, numbered. */
  class World {
    ghost var blobs: seq<Blob>
    ghost var allocators: seq<Allocator>
    ghost var own: seq<nat>

    constructor ()
      ensures Valid() && View() == EMPTY && blobs == [] && allocators == [] && own == []
    {
      blobs := [];
      allocators := [];
      own := [];
    }

    /** The allocator is one of these, under its number. */
    ghost predicate Knows(a: Allocator)
      reads this
    {
      a.number < |allocators| && allocators[a.number] == a
    }

    ghost predicate Valid()
      reads this, blobs
    {
      && (forall i, j | 0 <= i < j < |blobs| :: blobs[i] != blobs[j])
      && (forall i | 0 <= i < |allocators| :: allocators[i].number == i)
      && (forall b | b in blobs :: b.allocator != null ==> Knows(b.allocator))
    }

    ghost function View(): State
      reads this, blobs, allocators
    {
      State(seq(|allocators|, i requires 0 <= i < |allocators| reads this, allocators => allocators[i].View()),
            seq(|blobs|, i requires 0 <= i < |blobs| reads this, blobs => blobs[i].View()), own)
    }

    ghost predicate Has(b: Blob, i: nat)
      reads this
    {
      i < |blobs| && blobs[i] == b
    }
  }

  /** Between the old state and this one only blob i and allocator a have changed. */
  twostate lemma OnlyThese(w: World, new i: nat, new a: Allocator)
    requires old(w.Valid()) && i < |old(w.blobs)| && a in old(w.allocators)
    requires w.blobs == old(w.blobs) && w.allocators == old(w.allocators) && w.own == old(w.own)
    requires forall k | 0 <= k < |w.blobs| && k != i :: unchanged(w.blobs[k])
    requires forall x | x in w.allocators && x != a :: unchanged(x)
    requires w.blobs[i].allocator == a
    ensures w.Valid()
    ensures w.View() == old(w.View()).(memories := old(w.View()).memories[a.number := a.View()],
                                       blobs := old(w.View()).blobs[i := w.blobs[i].View()])
  {
    forall k | 0 <= k < |w.allocators| && k != a.number
      ensures w.allocators[k].View() == old(w.allocators[k].View())
    {
      assert w.allocators[k].number == k && w.allocators[k] in w.allocators;
    }
    forall k | 0 <= k < |w.blobs| && k != i
      ensures w.blobs[k].View() == old(w.blobs[k].View())
    {
      assert unchanged(w.blobs[k]);
    }
  }

  class Blob {
    var size: nat  // elements, by the tensor description
    var allocator: Allocator?
    var handle: Option<Handle>

    ghost function View(): BlobValue
      reads this
    {
      BlobValue(size, if allocator == null then None else Some(allocator.number), handle)
    }

    constructor (size: nat, allocator: Allocator?, ghost w: World)
      requires w.Valid() && (allocator != null ==> w.Knows(allocator))
      modifies w`blobs
      ensures w.Valid() && w.blobs == old(w.blobs) + [this]
      ensures w.View() ==
              Added(old(w.View()), BlobValue(size, if allocator == null then None else Some(allocator.number), None))
    {
      this.size := size;
      this.allocator := allocator;
      handle := None;
      new;
      w.blobs := w.blobs + [this];
    }

    /** The allocator in use, and no other; a default one is made when there is none. */
    method GetAllocator(ghost w: World, ghost i: nat) returns (a: Allocator)
      requires w.Valid() && w.Has(this, i)
      modifies this`allocator, w`allocators
      ensures w.Valid() && a == allocator && w.Knows(a) && a in w.allocators
      ensures if old(allocator) != null then a == old(allocator) && w.allocators == old(w.allocators)
              else fresh(a) && w.allocators == old(w.allocators) + [a]
      ensures w.View() == WithAllocator(old(w.View()), i)
      ensures old(w.allocators) <= w.allocators && forall x | x in w.allocators :: x in old(w.allocators) || fresh(x)
    {
      if allocator == null {
        var d := new Allocator(|w.allocators|);
        allocator := d;
        w.allocators := w.allocators + [d];
        assert w.View().blobs == old(w.View()).blobs[i := View()];
        assert w.View().memories == old(w.View()).memories + [UNUSED];
      }
      return allocator;
    }

    method Release(a: Allocator, releases: bool, ghost w: World, ghost i: nat) returns (released: bool)
      requires w.Valid() && w.Has(this, i) && allocator == a
      modifies this`handle, a
      ensures w.Valid() && released == releases && HasMemory(old(w.View()), i)
      ensures w.View() == Released(old(w.View()), i, releases)
    {
      assert this in w.blobs;
      released := a.Free(handle, releases);
      handle := None;
      OnlyThese(w, i, a);
    }

    method Acquire(a: Allocator, granted: bool, ghost contents: Contents, ghost w: World, ghost i: nat)
      requires w.Valid() && w.Has(this, i) && allocator == a
      modifies this`handle, a
      ensures w.Valid() && HasMemory(old(w.View()), i)
      ensures w.View() == Acquired(old(w.View()), i, granted, contents)
    {
      assert this in w.blobs;
      handle := a.Alloc(granted, seq(size, contents));
      OnlyThese(w, i, a);
    }

    /** Gives the memory back, if there is any; the handle is dropped even when
        the allocator refuses. */
    method Free(releases: bool, ghost w: World, ghost i: nat) returns (released: bool)
      requires w.Valid() && w.Has(this, i)
      modifies this`handle, this`allocator, w`allocators, w.allocators
      ensures w.Valid() && released == releases && w.View() == BlobModel.Free(old(w.View()), i, releases)
      ensures old(w.allocators) <= w.allocators && forall x | x in w.allocators :: x in old(w.allocators) || fresh(x)
    {
      var a := GetAllocator(w, i);
      released := Release(a, releases, w, i);
    }

    /** Allocates or reallocates; the answer of the allocator to the release of
        what was held before is not looked at. */
    method Allocate(granted: bool, releases: bool, ghost contents: Contents, ghost w: World, ghost i: nat)
      requires w.Valid() && w.Has(this, i)
      modifies this`handle, this`allocator, w`allocators, w.allocators
      ensures w.Valid() && w.View() == Reallocated(old(w.View()), i, granted, releases, contents)
      ensures old(w.allocators) <= w.allocators && forall x | x in w.allocators :: x in old(w.allocators) || fresh(x)
    {
      var a := GetAllocator(w, i);
      if handle.Some? {
        var _ := Release(a, releases, w, i);
      } else {
        ReleasedNothing(w.View(), i, releases);
      }
      Acquire(a, granted, contents, w, i);
    }

    method Describe(size: nat, ghost w: World, ghost i: nat)
      requires w.Valid() && w.Has(this, i)
      modifies this`size
      ensures w.Valid() && w.View() == Resized(old(w.View()), i, size)
    {
      this.size := size;
      assert w.View().blobs == old(w.View()).blobs[i := View()];
      assert w.View().memories == old(w.View()).memories;
    }

    /** memcpy into the blob's own memory. */
    ghost method Write(data: seq<int>, w: World, i: nat)
      requires w.Valid() && w.Has(this, i) && handle.Some? && allocator != null && w.Knows(allocator)
      modifies allocator
      ensures w.Valid() && HasMemory(old(w.View()), i) && w.View() == Written(old(w.View()), i, data)
    {
      allocator.live := allocator.live[handle.value := data];
      OnlyThese(w, i, allocator);
    }

    /** Takes over the description and a copy of the data of `blob`; undefined
        without memory on either side. */
    method CopyFrom(blob: Blob, granted: bool, releases: bool, ghost contents: Contents, ghost w: World,
                    ghost i: nat, ghost j: nat) returns (defined: bool)
      requires w.Valid() && w.Has(this, i) && w.Has(blob, j) && Consistent(w.View())
      modifies this, w`allocators, w.allocators
      ensures w.Valid() && w.View() == Copied(old(w.View()), i, j, granted, releases, contents)
      ensures defined <==> granted && (blob == this || old(blob.handle).Some?)
      ensures old(w.allocators) <= w.allocators && forall x | x in w.allocators :: x in old(w.allocators) || fresh(x)
    {
      CopyTarget(w.View(), i, j, granted, releases, contents);
      Describe(blob.size, w, i);
      Allocate(granted, releases, contents, w, i);
      defined := handle.Some? && blob.handle.Some?;
      if defined {
        assert w.Has(this, i) && this in w.blobs && w.Knows(allocator) && allocator in w.allocators;
        Write(BlobModel.Data(w.View(), j).value, w, i);
      }
    }

    /** Takes over memory and allocator of `source`, which is left with neither.
        Only constructors call it, on a blob that holds no memory yet. */
    method MoveFrom(source: Blob, ghost w: World, ghost i: nat, ghost j: nat)
      requires w.Valid() && w.Has(this, i) && w.Has(source, j) && i != j
      modifies this, source
      ensures w.Valid() && w.View() == Moved(old(w.View()), i, j)
    {
      size := source.size;
      allocator, source.allocator := source.allocator, null;
      handle, source.handle := source.handle, handle;
      assert w.View().blobs == Moved(old(w.View()), i, j).blobs;
      assert w.View().memories == old(w.View()).memories;
    }

    /** The destructor: memory still held is freed. */
    method Destroy(releases: bool, ghost w: World, ghost i: nat)
      requires w.Valid() && w.Has(this, i)
      modifies this`handle, this`allocator, w`allocators, w.allocators, w`blobs
      ensures w.Valid() && w.View() == Removed(BlobModel.Free(old(w.View()), i, releases), i)
      ensures w.blobs == old(w.blobs)[..i] + old(w.blobs)[i + 1..]
      ensures old(w.allocators) <= w.allocators && forall x | x in w.allocators :: x in old(w.allocators) || fresh(x)
    {
      var _ := Free(releases, w, i);
      ghost var before := w.View();
      w.blobs := w.blobs[..i] + w.blobs[i + 1..];
      assert w.View().blobs == Removed(before, i).blobs;
    }
  }

  // ---- programs -----------------------------------------------------------------------------

  /** A program: its blobs, and the allocators it has made itself. */
  class Program {
    var blobs: seq<Blob>
    var allocators: seq<Allocator>
    const world: World

    ghost predicate Valid()
      reads this, world, world.blobs
    {
      && world.Valid() && blobs == world.blobs && |allocators| == |world.own|
      && forall k | 0 <= k < |allocators| :: world.Knows(allocators[k]) && world.own[k] == allocators[k].number
    }

    ghost function View(): State
      reads this, world, world.blobs, world.allocators
    {
      world.View()
    }

    ghost function Footprint(): set<object>
      reads this, world
    {
      {this, world} + (set b | b in world.blobs) + (set a | a in world.allocators)
    }

    constructor ()
      ensures Valid() && fresh(Footprint()) && View() == EMPTY
    {
      blobs := [];
      allocators := [];
      world := new World();
    }

    method MakeAllocator()
      requires Valid()
      modifies this`allocators, world
      ensures Valid() && fresh(Footprint() - old(Footprint()))
      ensures View() == Apply(old(View()), NewAllocator)
    {
      ghost var w, n := world, |world.allocators|;
      var a := new Allocator(n);
      w.allocators := w.allocators + [a];
      w.own := w.own + [n];
      allocators := allocators + [a];
      assert w.View().blobs == old(w.View()).blobs;
      assert w.View().memories == old(w.View()).memories + [UNUSED];
    }

    method Make(size: nat, a: Allocator?) returns (b: Blob)
      requires Valid() && (a != null ==> world.Knows(a))
      modifies this`blobs, world
      ensures Valid() && fresh(Footprint() - old(Footprint())) && fresh(b) && blobs == old(blobs) + [b]
      ensures View() == Added(old(View()), BlobValue(size, if a == null then None else Some(a.number), None))
    {
      b := new Blob(size, a, world);
      blobs := blobs + [b];
    }

    method Copy(i: nat, j: nat, granted: bool, releases: bool, ghost contents: Contents) returns (defined: bool)
      requires Valid() && i < |blobs| && j < |blobs| && Consistent(View())
      modifies blobs[i], world`allocators, world.allocators
      ensures Valid() && fresh(Footprint() - old(Footprint()))
      ensures View() == Copied(old(View()), i, j, granted, releases, contents)
      ensures defined <==> granted && (i == j || old(blobs[j].handle).Some?)
    {
      defined := blobs[i].CopyFrom(blobs[j], granted, releases, contents, world, i, j);
    }

    method Remove(i: nat, releases: bool)
      requires Valid() && i < |blobs|
      modifies this`blobs, blobs[i], world, world.allocators
      ensures Valid() && fresh(Footprint() - old(Footprint()))
      ensures View() == Removed(BlobModel.Free(old(View()), i, releases), i)
    {
      blobs[i].Destroy(releases, world, i);
      blobs := blobs[..i] + blobs[i + 1..];
    }

    /** The blob of a copy constructor before the copy. */
    method MakeTarget(size: nat)
      requires Valid() && Consistent(View())
      modifies this`blobs, world
      ensures Valid() && Consistent(View()) && fresh(Footprint() - old(Footprint()))
      ensures |blobs| == |old(blobs)| + 1 && old(blobs) <= blobs
      ensures View() == Added(old(View()), BlobValue(size, None, None))
    {
      AddedIsConsistent(View(), BlobValue(size, None, None));
      var _ := Make(size, null);
    }

    // Each operation, as the value model has it.

    method ConstructOne(size: nat, using: Option<nat>)
      requires Valid()
      modifies this`blobs, world
      ensures Valid() && fresh(Footprint() - old(Footprint()))
      ensures View() == Apply(old(View()), Construct(size, using))
    {
      var _ := Make(size, if using.Some? && using.value < |allocators| then allocators[using.value] else null);
    }

    method AllocateOne(i: nat, granted: bool, releases: bool, ghost contents: Contents)
      requires Valid()
      modifies Footprint()
      ensures Valid() && fresh(Footprint() - old(Footprint()))
      ensures View() == Apply(old(View()), Op.Allocate(i, granted, releases, contents))
    {
      if i < |blobs| {
        blobs[i].Allocate(granted, releases, contents, world, i);
      }
    }

    method DeallocateOne(i: nat, releases: bool)
      requires Valid()
      modifies Footprint()
      ensures Valid() && fresh(Footprint() - old(Footprint()))
      ensures View() == Apply(old(View()), Deallocate(i, releases))
    {
      if i < |blobs| {
        var _ := blobs[i].Free(releases, world, i);
      }
    }

    method CopyConstructOne(j: nat, granted: bool, ghost contents: Contents) returns (defined: bool)
      requires Valid() && Consistent(View())
      modifies this`blobs, world, world.allocators
      ensures Valid() && fresh(Footprint() - old(Footprint()))
      ensures View() == Apply(old(View()), CopyConstruct(j, granted, contents))
      ensures defined <==> Defined(old(View()), CopyConstruct(j, granted, contents))
    {
      defined := true;
      if j < |blobs| {
        var i := |blobs|;
        MakeTarget(blobs[j].size);
        defined := Copy(i, j, granted, true, contents);
      }
    }

    method CopyAssignOne(i: nat, j: nat, granted: bool, releases: bool, ghost contents: Contents)
      returns (defined: bool)
      requires Valid() && Consistent(View())
      modifies Footprint()
      ensures Valid() && fresh(Footprint() - old(Footprint()))
      ensures View() == Apply(old(View()), CopyAssign(i, j, granted, releases, contents))
      ensures defined <==> Defined(old(View()), CopyAssign(i, j, granted, releases, contents))
    {
      defined := true;
      if i < |blobs| && j < |blobs| {
        defined := Copy(i, j, granted, releases, contents);
      }
    }

    method MoveConstructOne(j: nat)
      requires Valid()
      modifies Footprint()
      ensures Valid() && fresh(Footprint() - old(Footprint()))
      ensures View() == Apply(old(View()), MoveConstruct(j))
    {
      if j < |blobs| {
        var i := |blobs|;
        var b := Make(blobs[j].size, null);
        b.MoveFrom(blobs[j], world, i, j);
      }
    }

    method DestroyOne(i: nat, releases: bool)
      requires Valid()
      modifies this`blobs, world, blobs, world.allocators
      ensures Valid() && fresh(Footprint() - old(Footprint()))
      ensures View() == Apply(old(View()), Op.Destroy(i, releases))
    {
      if i < |blobs| {
        Remove(i, releases);
      }
    }

    /** One operation: the state of all blobs and allocators changes as in the
        value model. */
    method Step(op: Op) returns (defined: bool)
      requires Valid() && Consistent(View())
      modifies Footprint()
      ensures Valid() && fresh(Footprint() - old(Footprint()))
      ensures View() == Apply(old(View()), op) && (defined <==> Defined(old(View()), op))
    {
      defined := true;
      match op
      case NewAllocator => MakeAllocator();
      case Construct(size, using) => ConstructOne(size, using);
      case Allocate(i, granted, releases, contents) => AllocateOne(i, granted, releases, contents);
      case Deallocate(i, releases) => DeallocateOne(i, releases);
      case CopyConstruct(j, granted, contents) => defined := CopyConstructOne(j, granted, contents);
      case CopyAssign(i, j, granted, releases, contents) =>
        defined := CopyAssignOne(i, j, granted, releases, contents);
      case MoveConstruct(j) => MoveConstructOne(j);
      case Destroy(i, releases) => DestroyOne(i, releases);
    }

    /** A step of a run that has made the operations `done`. */
    method StepOn(op: Op, ghost done: seq<Op>)
      requires Running(done)
      modifies Footprint()
      ensures Running(done + [op]) && fresh(Footprint() - old(Footprint()))
      ensures View() == Apply(old(View()), op)
    {
      EmptyIsConsistent();
      RunConsistent(EMPTY, done);
      var _ := Step(op);
      assert (done + [op])[..|done|] == done;
    }

    ghost predicate Running(done: seq<Op>)
      reads this, world, world.blobs, world.allocators
    {
      Valid() && View() == Run(EMPTY, done)
    }

    /** Destroys the blobs that are left, the last one first; `releases` says what
        the allocator answers then. */
    method DestroyAll(releases: nat -> bool, ghost ops: seq<Op>, ghost done: seq<Op>) returns (ghost all: seq<Op>)
      requires Running(done) && EndsWithDestroys(ops, done)
      modifies Footprint()
      ensures Running(all) && blobs == [] && EndsWithDestroys(ops, all)
      decreases |blobs|
    {
      all := done;
      if blobs != [] {
        all := DestroyLast(releases(|blobs| - 1), ops, done);
        all := DestroyAll(releases, ops, all);
      }
    }

    method DestroyLast(releases: bool, ghost ops: seq<Op>, ghost done: seq<Op>) returns (ghost all: seq<Op>)
      requires Running(done) && EndsWithDestroys(ops, done) && blobs != []
      modifies Footprint()
      ensures Running(all) && EndsWithDestroys(ops, all)
      ensures fresh(Footprint() - old(Footprint())) && |blobs| == |old(blobs)| - 1
    {
      ghost var before := View();
      var op := Op.Destroy(|blobs| - 1, releases);
      StepOn(op, done);
      FreeKeepsCount(before, |before.blobs| - 1, releases);
      all := done + [op];
      assert all[..|all| - 1] == done;
    }
  }

  /** `all` is `ops` and then only operations that destroy blobs. */
  ghost predicate EndsWithDestroys(ops: seq<Op>, all: seq<Op>) {
    all == ops || (all != [] && all[|all| - 1].Destroy? && EndsWithDestroys(ops, all[..|all| - 1]))
  }

  /** Runs a program and then destroys the blobs that are left. */
  method Execute(ops: seq<Op>, releases: nat -> bool) returns (p: Program, ghost all: seq<Op>)
    ensures p.Running(all) && p.View().blobs == [] && EndsWithDestroys(ops, all)
  {
    p := new Program();
    for i := 0 to |ops|
      invariant p.Running(ops[..i]) && fresh(p.Footprint())
    {
      p.StepOn(ops[i], ops[..i]);
      assert ops[..i + 1] == ops[..i] + [ops[i]];
    }
    assert ops[..|ops|] == ops;
    all := p.DestroyAll(releases, ops, ops);
    assert |p.View().blobs| == |p.blobs|;
  }
}
