/**
 * src/BufferArray.cpp: `IOSocketBuffer::BufferArray`, one page of memory
 * mapped from the operating system (`mmap` on Linux, `VirtualAlloc`
 * elsewhere) and owned by exactly one object.  Moving hands the page over
 * and nulls the source's pointer; the destructor unmaps the page only when
 * the pointer is not null.
 *
 * A `Region` stands for one mapped page; its `releases` field counts the
 * `munmap` calls made on it.  Ownership is stated over a set of live
 * arrays and a set of regions: `Exclusive` (every region has at most one
 * owner, and no region is released twice) and `Accounted` (besides, every
 * region not yet released still has an owner, so none is leaked).
 */
module SrcBufferArray {
  /** A mapped page of `size` bytes and the number of times it was unmapped. */
  class Region {
    const size: nat
    var releases: nat

    constructor (size: nat)
      ensures this.size == size && releases == 0
    {
      this.size := size;
      releases := 0;
    }
  }

  /** What `get(offset)` returns: the page's base address plus `offset`. */
  datatype Address = Address(base: Region?, offset: nat)

  /**
   * No two live arrays own the same region, an owned region has not been
   * unmapped, and no region has been unmapped more than once.
   */
  predicate Exclusive(arenas: set<BufferArray>, regions: set<Region>)
    reads arenas, regions
  {
    (forall a | a in arenas && a.data != null :: a.data in regions && a.data.releases == 0) &&
    (forall a, b | a in arenas && b in arenas && a != b && a.data != null :: a.data != b.data) &&
    (forall r | r in regions :: r.releases <= 1)
  }

  /** `Exclusive`, and every region that was never unmapped still has an owner: nothing leaks. */
  predicate Accounted(arenas: set<BufferArray>, regions: set<Region>)
    reads arenas, regions
  {
    Exclusive(arenas, regions) &&
    forall r | r in regions && r.releases == 0 :: exists a | a in arenas :: a.data == r
  }

  class BufferArray {
    var data: Region?
    var dataSize: nat

    /**
     * The constructor: `dataSize` is the system's page size and `data` a
     * freshly mapped page of that size.  A new array joins the arrays
     * already accounted for without disturbing them.
     */
    constructor (pageSize: nat, ghost arenas: set<BufferArray>, ghost regions: set<Region>)
      ensures data != null && fresh(data) && data.size == pageSize && data.releases == 0 && dataSize == pageSize
      ensures old(Accounted(arenas, regions)) ==> Accounted(arenas + {this}, regions + {data})
    {
      var page := new Region(pageSize);
      data := page;
      dataSize := pageSize;
      new;
      assert forall a | a in arenas :: a.data != page;
    }

    /** The move constructor: takes `other`'s page and size; `other` keeps its size and loses the page. */
    constructor Move(other: BufferArray, ghost arenas: set<BufferArray>, ghost regions: set<Region>)
      modifies other
      ensures data == old(other.data) && dataSize == old(other.dataSize)
      ensures other.data == null && other.dataSize == old(other.dataSize)
      ensures other in arenas && old(Accounted(arenas, regions)) ==> Accounted(arenas + {this}, regions)
    {
      data := other.data;
      dataSize := other.dataSize;
      new;
      other.data := null;
      if other in arenas && old(Accounted(arenas, regions)) {
        forall r | r in regions && r.releases == 0
          ensures exists a | a in arenas + {this} :: a.data == r
        {
          var a :| a in arenas && old(a.data) == r;
          if a == other {
            assert this.data == r;
          } else {
            assert a.data == r;
          }
        }
      }
    }

    /**
     * Move assignment as written: the page and size of `other` are copied
     * and `other`'s pointer is nulled.  The page this array owned before is
     * not unmapped, and a move onto itself nulls the array's own pointer.
     * No page is unmapped twice, whatever the moves.
     */
    method MoveAssign(other: BufferArray, ghost arenas: set<BufferArray>, ghost regions: set<Region>)
      modifies this, other
      ensures data == (if other == this then null else old(other.data)) && dataSize == old(other.dataSize)
      ensures other != this ==> other.data == null && other.dataSize == old(other.dataSize)
      ensures this in arenas && other in arenas && old(Exclusive(arenas, regions)) ==> Exclusive(arenas, regions)
    {
      data := other.data;
      dataSize := other.dataSize;
      other.data := null;
    }

    /**
     * Move assignment as evidently intended: the page this array owned is
     * unmapped before the other's page is taken, and a move onto itself
     * changes nothing.  No page is then ever leaked.
     */
    method MoveAssignCorrected(other: BufferArray, ghost arenas: set<BufferArray>, ghost regions: set<Region>)
      modifies this, other, data
      ensures other == this ==> data == old(data) && dataSize == old(dataSize)
      ensures other != this ==>
        data == old(other.data) && dataSize == old(other.dataSize) &&
        other.data == null && other.dataSize == old(other.dataSize)
      ensures other != this && old(data) != null && old(data) != old(other.data) ==>
        old(data).releases == old(data.releases) + 1
      ensures this in arenas && other in arenas && old(Accounted(arenas, regions)) ==> Accounted(arenas, regions)
    {
      if other != this {
        if data != null && data != other.data {
          data.releases := data.releases + 1;
        }
        data := other.data;
        dataSize := other.dataSize;
        other.data := null;
      }
    }

    /** `size()`: the recorded size, which a moved-from array keeps. */
    method Size() returns (n: nat)
      ensures n == dataSize
    {
      n := dataSize;
    }

    /** `get(offset)`: the page's base plus `offset`, with no check against the page's size. */
    method Get(offset: nat) returns (p: Address)
      ensures p.base == data && p.offset == offset
    {
      p := Address(data, offset);
    }

    /**
     * The destructor: the page is unmapped when the pointer is not null.
     * The array leaves the live set; an owned page was never unmapped
     * before, so it is now unmapped exactly once.
     */
    method Destroy(ghost arenas: set<BufferArray>, ghost regions: set<Region>)
      modifies data
      ensures data != null ==> data.releases == old(data.releases) + 1
      ensures this in arenas && old(Exclusive(arenas, regions)) ==> Exclusive(arenas - {this}, regions)
      ensures this in arenas && old(Accounted(arenas, regions)) ==> Accounted(arenas - {this}, regions)
      ensures this in arenas && old(Exclusive(arenas, regions)) && data != null ==> data.releases == 1
    {
      if data != null {
        data.releases := data.releases + 1;
      }
    }
  }

  /**
   * Move assignment as written loses a page: after `a = std::move(b)` the
   * page `a` owned has no owner and was never unmapped, so the arrays stay
   * `Exclusive` but are no longer `Accounted`.
   */
  method MoveAssignLeaks(pageSize: nat) returns (a: BufferArray, b: BufferArray, lost: Region, moved: Region)
    ensures a.data == moved && b.data == null && lost != moved && lost.releases == 0
    ensures Exclusive({a, b}, {lost, moved}) && !Accounted({a, b}, {lost, moved})
  {
    a := new BufferArray(pageSize, {}, {});
    lost := a.data;
    b := new BufferArray(pageSize, {a}, {lost});
    moved := b.data;
    a.MoveAssign(b, {a, b}, {lost, moved});
  }

  /** With the corrected move assignment, the same moves unmap the page `a` owned, exactly once. */
  method MoveAssignCorrectedReleases(pageSize: nat) returns (a: BufferArray, b: BufferArray, released: Region, moved: Region)
    ensures a.data == moved && b.data == null && released != moved && released.releases == 1
    ensures Accounted({a, b}, {released, moved})
  {
    a := new BufferArray(pageSize, {}, {});
    released := a.data;
    b := new BufferArray(pageSize, {a}, {released});
    moved := b.data;
    a.MoveAssignCorrected(b, {a, b}, {released, moved});
  }
}
