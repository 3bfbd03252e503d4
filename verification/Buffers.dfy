/** The recycling pool of internal/utils/buffer_pool.go. A Go slice that starts at the front of
    its array is an array and a length; its capacity is the array's length. */
module Buffers {
  import opened Bytes
  import opened PacketFraming

  const MAX_BUFFER_SIZE := 16 * 1024 * 1024
  const BUFFER_SIZE_ALIGNMENT := 4 * 1024

  datatype Slice = Slice(arr: array<byte>, len: nat)

  /** The size class of a request: the size rounded up to whole 4 KiB blocks. */
  function AlignBufferSize(size: int): (aligned: int)
    ensures size <= aligned
    ensures size <= MAX_BUFFER_SIZE ==> 0 < aligned <= MAX_BUFFER_SIZE && aligned % BUFFER_SIZE_ALIGNMENT == 0
    ensures 0 < size <= MAX_BUFFER_SIZE ==> aligned < size + BUFFER_SIZE_ALIGNMENT
    ensures size > MAX_BUFFER_SIZE ==> aligned == size
  {
    if size <= 0 then BUFFER_SIZE_ALIGNMENT
    else if size > MAX_BUFFER_SIZE then size
    else (size + BUFFER_SIZE_ALIGNMENT - 1) / BUFFER_SIZE_ALIGNMENT * BUFFER_SIZE_ALIGNMENT
  }

  /** The size class is the least positive multiple of 4096 that holds the request, up to 16 MiB. */
  lemma SizeClassIsLeast(size: int, other: int)
    ensures size <= 16777216 ==> AlignBufferSize(size) % 4096 == 0 && AlignBufferSize(size) >= size
    ensures size <= 16777216 && 0 < other && size <= other && other % 4096 == 0 ==> AlignBufferSize(size) <= other
    ensures size > 16777216 ==> AlignBufferSize(size) == size
  {
    if 0 < size <= 16777216 && size <= other && other % 4096 == 0 {
      assert other == 4096 * (other / 4096);
    }
  }

  /** A buffer whose capacity is its own size class, or that no class takes. */
  predicate Recyclable(capacity: int) {
    capacity > MAX_BUFFER_SIZE || AlignBufferSize(capacity) == capacity
  }

  lemma AlignedIsRecyclable(size: int)
    ensures Recyclable(AlignBufferSize(size))
  {}

  /** Exactly the recyclable capacities are safe to put back: any other buffer would lie in a
      class from which a request can be larger than its capacity. */
  lemma SafeToPutIff(capacity: nat)
    requires capacity <= MAX_BUFFER_SIZE
    ensures Recyclable(capacity) <==>
            forall size :: 0 <= size <= MAX_BUFFER_SIZE && AlignBufferSize(size) == AlignBufferSize(capacity) ==> size <= capacity
  {
    var sizeClass := AlignBufferSize(capacity);
    assert AlignBufferSize(sizeClass) == sizeClass;
  }

  /** Put has no such test: a foreign buffer of any other capacity is filed in the class it rounds
      up to, and a request for that whole class is larger than the buffer. */
  lemma ForeignIsUnsafe(capacity: nat)
    requires capacity <= MAX_BUFFER_SIZE && !Recyclable(capacity)
    ensures var sizeClass := AlignBufferSize(capacity);
            capacity < sizeClass <= MAX_BUFFER_SIZE && AlignBufferSize(sizeClass) == sizeClass
    ensures AlignBufferSize(5000) == 8192 && !Recyclable(5000)
  {}

  ghost function Members(pools: map<int, seq<array<byte>>>): set<array<byte>> {
    set k, a | k in pools && a in pools[k] :: a
  }

  lemma MembersSplit(pools: map<int, seq<array<byte>>>, k: int)
    requires k in pools
    ensures Members(pools) == (set a | a in pools[k]) + Members(pools - {k})
  {
    forall a | a in Members(pools) ensures a in (set x | x in pools[k]) + Members(pools - {k}) {
      var j :| j in pools && a in pools[j];
      assert j != k ==> j in pools - {k} && a in (pools - {k})[j];
    }
    forall a | a in (set x | x in pools[k]) + Members(pools - {k}) ensures a in Members(pools) {
      if a in Members(pools - {k}) {
        var j :| j in pools - {k} && a in (pools - {k})[j];
        assert j in pools && a in pools[j];
      }
    }
  }

  lemma MembersAfterUpdate(pools: map<int, seq<array<byte>>>, k: int, stack: seq<array<byte>>)
    ensures Members(pools[k := stack]) == (set a | a in stack) + Members(pools - {k})
    ensures Members(pools) == (set a | k in pools && a in pools[k]) + Members(pools - {k})
  {
    var updated := pools[k := stack];
    MembersSplit(updated, k);
    assert updated - {k} == pools - {k};
    if k in pools {
      MembersSplit(pools, k);
      assert (set a | a in pools[k]) == (set a | k in pools && a in pools[k]);
    } else {
      assert pools - {k} == pools;
    }
  }

  class BufferPool {
    /** The source sets `pools` to nil when the pool is closed. */
    var closed: bool
    var pools: map<int, seq<array<byte>>>

    /** The buffers handed out by Get and not put back. */
    ghost var lent: set<array<byte>>

    ghost function Pooled(): set<array<byte>>
      reads this
    {
      Members(pools)
    }

    /** Every buffer in class k has capacity exactly k, none is listed twice or pooled while it
        is lent, and every lent buffer may be put back. */
    ghost predicate Valid()
      reads this
    {
      && (closed ==> pools == map[])
      && (forall k, a :: k in pools && a in pools[k] ==> a.Length == k && a !in lent)
      && (forall k, i, j :: k in pools && 0 <= i < j < |pools[k]| ==> pools[k][i] != pools[k][j])
      && (forall k :: k in pools ==> k <= MAX_BUFFER_SIZE && Recyclable(k))
      && (!closed ==> forall a :: a in lent ==> Recyclable(a.Length))
    }

    constructor ()
      ensures Valid() && !closed && lent == {} && Pooled() == {}
    {
      closed, pools, lent := false, map[], {};
    }

    /** A buffer of `size` bytes: an array nobody else holds, large enough for the request.
        `pick` says which pooled array sync.Pool hands out; past the end it makes a new one. */
    method Get(size: nat, pick: nat) returns (buf: Slice)
      requires Valid()
      modifies this
      ensures Valid() && closed == old(closed)
      ensures buf.len == size <= buf.arr.Length
      ensures buf.arr !in old(lent) && lent == old(lent) + {buf.arr}
      ensures if buf.arr in old(Pooled()) then Pooled() == old(Pooled()) - {buf.arr}
              else fresh(buf.arr) && Pooled() == old(Pooled())
      ensures var k := AlignBufferSize(size);
              if size <= MAX_BUFFER_SIZE && !closed then
                && k in pools
                && (if k in old(pools) && pick < |old(pools)[k]| then buf.arr == old(pools)[k][pick]
                    else fresh(buf.arr) && buf.arr.Length == k)
              else fresh(buf.arr) && buf.arr.Length == size
    {
      if size > MAX_BUFFER_SIZE || closed {
        buf := MakeUnpooled(size);
        return;
      }
      var alignedSize := AlignBufferSize(size);
      AlignedIsRecyclable(size);
      if alignedSize !in pools {
        MembersAfterUpdate(pools, alignedSize, []);
        pools := pools[alignedSize := []];
      }
      if pick < |pools[alignedSize]| {
        var a := TakeFrom(alignedSize, pick);
        buf := Slice(a, size);
      } else {
        var a := new byte[alignedSize];
        lent := lent + {a};
        buf := Slice(a, size);
      }
    }

    method MakeUnpooled(size: nat) returns (buf: Slice)
      requires Valid() && (size > MAX_BUFFER_SIZE || closed)
      modifies this`lent
      ensures Valid()
      ensures fresh(buf.arr) && buf.len == size == buf.arr.Length && lent == old(lent) + {buf.arr}
    {
      var a := new byte[size];
      lent := lent + {a};
      buf := Slice(a, size);
    }

    method TakeFrom(k: int, pick: nat) returns (a: array<byte>)
      requires Valid() && k in pools && pick < |pools[k]|
      modifies this
      ensures Valid() && closed == old(closed)
      ensures a in old(Pooled()) && a.Length == k && a !in old(lent) && lent == old(lent) + {a}
      ensures Pooled() == old(Pooled()) - {a} && a == old(pools)[k][pick] && k in pools
    {
      var stack := pools[k];
      a := stack[pick];
      var rest := stack[..pick] + stack[pick + 1..];
      assert forall x :: x in stack <==> x == a || x in rest;
      assert a !in rest;
      MembersAfterUpdate(pools, k, rest);
      pools := pools[k := rest];
      lent := lent + {a};
    }

    /** Put back a lent buffer; its class may be unknown, too large or gone, and then it is
        left to the garbage collector. */
    method Put(buf: Slice)
      requires Valid() && buf.arr in lent
      modifies this
      ensures Valid() && closed == old(closed) && lent == old(lent) - {buf.arr}
      ensures Pooled() ==
              if buf.arr.Length in old(pools) then old(Pooled()) + {buf.arr} else old(Pooled())
    {
      lent := lent - {buf.arr};
      var actualSize := buf.arr.Length;
      if actualSize > MAX_BUFFER_SIZE || closed {
        return;
      }
      var alignedSize := AlignBufferSize(actualSize);
      if alignedSize in pools {
        var stack := pools[alignedSize];
        MembersAfterUpdate(pools, alignedSize, stack + [buf.arr]);
        pools := pools[alignedSize := stack + [buf.arr]];
      }
    }

    /** sync.Pool may drop what it holds at any time. */
    method Drop(k: int, keep: nat)
      requires Valid()
      modifies this`pools
      ensures Valid() && Pooled() <= old(Pooled())
    {
      if k in pools && keep <= |pools[k]| {
        MembersAfterUpdate(pools, k, pools[k][..keep]);
        pools := pools[k := pools[k][..keep]];
      }
    }

    /** `onClose` */
    method Close()
      requires Valid()
      modifies this
      ensures Valid() && closed && Pooled() == {} && lent == old(lent)
    {
      pools, closed := map[], true;
    }
  }

  /** A buffer on loan that goes back to the pool at most once. */
  class ZeroCopyBuffer {
    const data: Slice
    const pool: BufferPool
    var closed: bool

    ghost predicate Valid()
      reads this, pool
    {
      pool.Valid() && (!closed ==> data.arr in pool.lent)
    }

    constructor (data: Slice, pool: BufferPool)
      requires pool.Valid() && data.arr in pool.lent
      ensures Valid() && this.data == data && this.pool == pool && !closed
    {
      this.data, this.pool, this.closed := data, pool, false;
    }

    method Close()
      requires Valid()
      modifies this, pool
      ensures Valid() && closed
      ensures pool.lent == if old(closed) then old(pool.lent) else old(pool.lent) - {data.arr}
    {
      if !closed {
        pool.Put(data);
        closed := true;
      }
    }
  }
}
