/** `malloc` and `free` of the guest C library over the guest's memory words. */
module Allocator {
  import opened Bytes
  import opened HeapModel

  type Memory = map<int, int>

  /** The 64-bit word at `a`; memory never written reads 0. */
  function Load(mem: Memory, a: int): (v: int) { if a in mem then mem[a] else 0 }

  // ----- Headers in memory -----

  /** What a `next` field that leads to position `i` of the list holds. */
  function Link(frees: seq<int>, i: nat): (p: int) { if i < |frees| then frees[i] else 0 }

  /** The header of the `i`-th free block points to the next one. */
  predicate Linked(mem: Memory, frees: seq<int>, i: nat)
    requires i < |frees|
  {
    Load(mem, frees[i] + 8) == Link(frees, i + 1)
  }

  /** Every block has its size in its header, and the headers of free blocks are linked in list order. */
  ghost predicate Represents(mem: Memory, h: Heap) {
    && (forall a :: a in h.sizes ==> Load(mem, a) == h.sizes[a])
    && (forall i {:trigger Linked(mem, h.frees, i)} :: 0 <= i < |h.frees| ==> Linked(mem, h.frees, i))
  }

  /** `w` is a byte address of the payload of a live block. */
  ghost predicate InPayload(h: Heap, w: int) {
    exists a :: Live(h, a) && a + HEADER <= w < a + h.sizes[a]
  }

  /** The two memories agree on every live payload of `h`. */
  ghost predicate SamePayloads(h: Heap, mem: Memory, mem': Memory) {
    forall w :: InPayload(h, w) ==> Load(mem', w) == Load(mem, w)
  }

  /** Make the link in front of position `i` lead to `target`. */
  function Splice(mem: Memory, frees: seq<int>, i: nat, target: int): (r: Memory)
    requires i < |frees|
  {
    if i == 0 then mem else mem[frees[i - 1] + 8 := target]
  }

  /** No word of one block is a word of another. */
  lemma {:induction false} BlocksApart(h: Heap, a: int, b: int, x: int)
    requires Sound(h) && a in h.sizes && b in h.sizes && a != b && a <= x < a + h.sizes[a]
    ensures !(b <= x < b + h.sizes[b])
  {
  }

  lemma {:induction false} FreeWordIsNotPayload(h: Heap, a: int, x: int)
    requires Sound(h) && a in h.sizes && a in h.frees && a <= x < a + h.sizes[a]
    ensures !InPayload(h, x)
  {
    if InPayload(h, x) {
      var b :| Live(h, b) && b + HEADER <= x < b + h.sizes[b];
      BlocksApart(h, a, b, x);
    }
  }

  /** Header words of distinct blocks are distinct. */
  lemma {:induction false} HeadersApart(h: Heap)
    requires Sound(h)
    ensures forall a, b :: a in h.sizes && b in h.sizes ==> a + 8 != b
  {
    forall a, b | a in h.sizes && b in h.sizes
      ensures a + 8 != b
    {
      assert Block(h.base, h.sizes, h.top, a);
    }
  }

  /** The stores of a split: the header of the remainder, the shortened size, the link before it. */
  function SplitStores(mem: Memory, h: Heap, i: nat, need: int): (r: Memory)
    requires i < |h.frees| && h.frees[i] in h.sizes
  {
    var a := h.frees[i];
    var rest := a + need;
    Splice(mem[rest := h.sizes[a] - need][rest + 8 := Load(mem, a + 8)][a := need], h.frees, i, rest)
  }

  /** Skipping position `i` keeps the list linked. */
  lemma {:induction false} SkipLinked(mem: Memory, mem': Memory, frees: seq<int>, i: nat, k: nat)
    requires i < |frees| && k < |frees| - 1
    requires Linked(mem, frees, i) && Linked(mem, frees, if k < i then k else k + 1)
    requires k + 1 == i ==> Load(mem', frees[k] + 8) == Load(mem, frees[i] + 8)
    requires k + 1 != i ==> var f := frees[if k < i then k else k + 1] + 8; Load(mem', f) == Load(mem, f)
    ensures Linked(mem', frees[..i] + frees[i + 1..], k)
  {
  }

  lemma {:induction false} UnlinkRepresents(h: Heap, mem: Memory, i: nat)
    requires Sound(h) && Represents(mem, h) && i < |h.frees|
    ensures var mem' := Splice(mem, h.frees, i, Load(mem, h.frees[i] + 8));
            && Represents(mem', h.(frees := h.frees[..i] + h.frees[i + 1..]))
            && SamePayloads(h, mem, mem')
  {
    hide Tiled;
    hide InPayload;
    var mem' := Splice(mem, h.frees, i, Load(mem, h.frees[i] + 8));
    if i > 0 {
      BlockIsInside(h, h.frees[i - 1]);
      FreeWordIsNotPayload(h, h.frees[i - 1], h.frees[i - 1] + 8);
      HeadersApart(h);
    }
    var frees' := h.frees[..i] + h.frees[i + 1..];
    forall k | 0 <= k < |frees'|
      ensures Linked(mem', frees', k)
    {
      var j := if k < i then k else k + 1;
      assert Linked(mem, h.frees, j) && Linked(mem, h.frees, i);
      assert i > 0 && j != i - 1 ==> h.frees[j] != h.frees[i - 1];
      SkipLinked(mem, mem', h.frees, i, k);
    }
  }

  lemma {:induction false} SplitReads(h: Heap, mem: Memory, i: nat, need: int)
    requires Sound(h) && i < |h.frees|
    requires HEADER + ALIGN <= need && need + HEADER + ALIGN <= h.sizes[h.frees[i]]
    ensures var a := h.frees[i];
            var rest := a + need;
            var mem' := SplitStores(mem, h, i, need);
            && Load(mem', a) == need && Load(mem', rest) == h.sizes[a] - need && Load(mem', rest + 8) == Load(mem, a + 8)
            && (i > 0 ==> Load(mem', h.frees[i - 1] + 8) == rest)
            && (forall x :: x != a && x != rest && x != rest + 8 && (i == 0 || x != h.frees[i - 1] + 8) ==> Load(mem', x) == Load(mem, x))
  {
    RestIsFresh(h, h.frees[i], need);
    HeadersApart(h);
    assert i > 0 ==> h.frees[i - 1] in h.sizes;
  }

  lemma {:induction false} SplitSizes(h: Heap, mem: Memory, i: nat, need: int)
    requires Sound(h) && Represents(mem, h) && i < |h.frees|
    requires HEADER + ALIGN <= need && need + HEADER + ALIGN <= h.sizes[h.frees[i]]
    ensures var a := h.frees[i];
            var sizes' := h.sizes[a + need := h.sizes[a] - need][a := need];
            forall b :: b in sizes' ==> Load(SplitStores(mem, h, i, need), b) == sizes'[b]
  {
    var a := h.frees[i];
    HeadersApart(h);
    RestIsFresh(h, a, need);
    SplitReads(h, mem, i, need);
    assert i > 0 ==> h.frees[i - 1] in h.sizes;
  }

  lemma {:induction false} SplitLinks(h: Heap, mem: Memory, i: nat, need: int, k: nat)
    requires Sound(h) && Represents(mem, h) && i < |h.frees| && k < |h.frees|
    requires HEADER + ALIGN <= need && need + HEADER + ALIGN <= h.sizes[h.frees[i]]
    ensures Linked(SplitStores(mem, h, i, need), h.frees[i := h.frees[i] + need], k)
  {
    hide SplitStores;
    var a := h.frees[i];
    HeadersApart(h);
    RestIsFresh(h, a, need);
    SplitReads(h, mem, i, need);
    assert Linked(mem, h.frees, k);
    assert h.frees[k] in h.sizes && (k != i ==> h.frees[k] != a);
    assert i > 0 && k != i - 1 ==> h.frees[k] != h.frees[i - 1];
    SwapLinked(mem, SplitStores(mem, h, i, need), h.frees, i, a + need, k);
  }

  lemma {:induction false} SplitSpares(h: Heap, mem: Memory, i: nat, need: int)
    requires Sound(h) && i < |h.frees|
    requires HEADER + ALIGN <= need && need + HEADER + ALIGN <= h.sizes[h.frees[i]]
    ensures SamePayloads(h, mem, SplitStores(mem, h, i, need))
  {
    var a := h.frees[i];
    FreeWordIsNotPayload(h, a, a);
    FreeWordIsNotPayload(h, a, a + need);
    FreeWordIsNotPayload(h, a, a + need + 8);
    if i > 0 {
      BlockIsInside(h, h.frees[i - 1]);
      FreeWordIsNotPayload(h, h.frees[i - 1], h.frees[i - 1] + 8);
    }
    SplitReads(h, mem, i, need);
  }

  lemma {:induction false} SplitRepresents(h: Heap, mem: Memory, i: nat, need: int)
    requires Sound(h) && Represents(mem, h) && i < |h.frees|
    requires HEADER + ALIGN <= need && need + HEADER + ALIGN <= h.sizes[h.frees[i]]
    ensures var a := h.frees[i];
            var rest := a + need;
            var mem' := SplitStores(mem, h, i, need);
            && Represents(mem', h.(sizes := h.sizes[rest := h.sizes[a] - need][a := need], frees := h.frees[i := rest]))
            && SamePayloads(h, mem, mem')
  {
    SplitSizes(h, mem, i, need);
    SplitSpares(h, mem, i, need);
    var mem', frees' := SplitStores(mem, h, i, need), h.frees[i := h.frees[i] + need];
    forall k | 0 <= k < |frees'|
      ensures Linked(mem', frees', k)
    {
      SplitLinks(h, mem, i, need, k);
    }
  }

  /** Putting `rest` in position `i` keeps the list linked. */
  lemma {:induction false} SwapLinked(mem: Memory, mem': Memory, frees: seq<int>, i: nat, rest: int, k: nat)
    requires i < |frees| && k < |frees| && Linked(mem, frees, k)
    requires k == i ==> Load(mem', rest + 8) == Load(mem, frees[i] + 8)
    requires k + 1 == i ==> Load(mem', frees[k] + 8) == rest
    requires k != i && k + 1 != i ==> Load(mem', frees[k] + 8) == Load(mem, frees[k] + 8)
    ensures Linked(mem', frees[i := rest], k)
  {
  }

  lemma {:induction false} RestIsFresh(h: Heap, a: int, need: int)
    requires Sound(h) && a in h.sizes && HEADER + ALIGN <= need && need + HEADER + ALIGN <= h.sizes[a]
    ensures forall b :: b in h.sizes ==> b != a + need && b != a + need + 8 && b + 8 != a + need && b + 8 != a + need + 8
  {
    forall b | b in h.sizes
      ensures b != a + need && b != a + need + 8 && b + 8 != a + need && b + 8 != a + need + 8
    {
      assert Block(h.base, h.sizes, h.top, b);
    }
  }

  lemma {:induction false} GrowRepresents(h: Heap, mem: Memory, need: int)
    requires Sound(h) && Represents(mem, h)
    ensures Represents(mem[h.top := need], h.(sizes := h.sizes[h.top := need], top := h.top + need))
    ensures SamePayloads(h, mem, mem[h.top := need])
  {
    forall b | b in h.sizes
      ensures b + HEADER + ALIGN <= b + h.sizes[b] <= h.top
    {
      BlockIsInside(h, b);
    }
    var mem' := mem[h.top := need];
    forall k | 0 <= k < |h.frees|
      ensures Linked(mem', h.frees, k)
    {
      assert Linked(mem, h.frees, k);
    }
  }

  lemma {:induction false} FreeRepresents(h: Heap, mem: Memory, a: int)
    requires Sound(h) && Represents(mem, h) && Live(h, a)
    ensures Represents(mem[a + 8 := Link(h.frees, 0)], h.(frees := [a] + h.frees))
    ensures SamePayloads(h.(frees := [a] + h.frees), mem, mem[a + 8 := Link(h.frees, 0)])
  {
    var mem' := mem[a + 8 := Link(h.frees, 0)];
    var h' := h.(frees := [a] + h.frees);
    BlockIsInside(h, a);
    FreeKeepsSound(h, a + HEADER);
    assert h' == Free(h, a + HEADER);
    assert h'.frees[0] == a;
    FreeWordIsNotPayload(h', a, a + 8);
    HeadersApart(h);
    assert Load(mem', a + 8) == Link(h.frees, 0);
    assert forall x :: x != a + 8 ==> Load(mem', x) == Load(mem, x);
    forall k | 0 <= k < |h'.frees|
      ensures Linked(mem', h'.frees, k)
    {
      if k > 0 {
        assert Linked(mem, h.frees, k - 1);
      }
    }
  }

  /** Client stores inside live payloads miss every header the allocator reads. */
  lemma {:induction false} PokeRepresents(h: Heap, mem: Memory, w: int, value: int)
    requires Sound(h) && Represents(mem, h) && InPayload(h, w)
    ensures Represents(mem[w := value], h)
  {
    var b :| Live(h, b) && b + HEADER <= w < b + h.sizes[b];
    forall a | a in h.sizes
      ensures a != w && (a in h.frees ==> a + 8 != w)
    {
      BlockIsInside(h, a);
      if a != b {
        BlocksApart(h, b, a, w);
      }
    }
    var mem' := mem[w := value];
    forall k | 0 <= k < |h.frees|
      ensures Linked(mem', h.frees, k)
    {
      assert Linked(mem, h.frees, k);
    }
  }

  // ----- The allocator -----

  class Allocator {
    const end: int // address of `_end`
    var mem: Memory
    var freeList: int
    var heapTop: int
    ghost var heap: Heap

    ghost predicate Valid()
      reads this
    {
      && Sound(heap) && Represents(mem, heap)
      && 0 < end && heap.base == (end + 7) / 8 * 8
      && freeList == Link(heap.frees, 0)
      && (heapTop == heap.top || (heapTop == 0 && heap.top == heap.base))
    }

    constructor (end: int)
      requires 0 < end <= LIMIT - ALIGN
      ensures Valid() && this.end == end
      ensures heap.sizes == map[] && heap.frees == [] && heap.top == heap.base && mem == map[]
    {
      this.end := end;
      mem, freeList, heapTop := map[], 0, 0;
      var base := (end + 7) / 8 * 8;
      heap := Heap(base, map[], [], base);
    }

    method Sbrk(increment: int) returns (old_top: int)
      requires Valid()
      modifies this`heapTop
      ensures if Wrap(heap.top + increment) >= LIMIT then old_top == -1 && Valid()
              else old_top == heap.top && heapTop == Wrap(heap.top + increment)
    {
      hide Sound;
      hide Represents;
      hide Wrap;
      AlignUp(end);
      TopIsLow(heap);
      if heapTop == 0 {
        heapTop := end;
        if end % ALIGN != 0 {
          heapTop := heapTop + (ALIGN - end % ALIGN);
        }
      }
      old_top := heapTop;
      if Wrap(heapTop + increment) >= LIMIT {
        return -1;
      }
      heapTop := Wrap(heapTop + increment);
    }

    /** `free`: of NULL, or of a pointer not yet freed. */
    method Free(p: int)
      requires Valid() && (p == 0 || Live(heap, p - HEADER))
      modifies this`mem, this`freeList, this`heap
      ensures Valid() && heap == HeapModel.Free(old(heap), p)
      ensures SamePayloads(heap, old(mem), mem)
    {
      if p == 0 {
        return;
      }
      var block := p - HEADER;
      FreeKeepsSound(heap, p);
      FreeRepresents(heap, mem, block);
      mem := mem[block + 8 := freeList];
      freeList := block;
      heap := HeapModel.Free(heap, p);
    }

    method Malloc(size: nat) returns (p: int)
      requires Valid() && size < MODULUS
      modifies this
      ensures Safe(old(heap), size) ==>
        && Valid() && heap == HeapModel.Malloc(old(heap), size).0
        && p == (match HeapModel.Malloc(old(heap), size).1 case None => 0 case Some(q) => q)
        && SamePayloads(old(heap), old(mem), mem)
      ensures Safe(old(heap), size) && p != 0 ==> Granted(old(heap), size, heap, p)
    {
      hide Aligned;
      hide Granted;
      if size == 0 {
        return 0;
      }
      if Safe(heap, size) && HeapModel.Malloc(heap, size).1.Some? {
        GrantIsExact(heap, size);
      }
      var totalSize := TotalSize(size);
      var prev, curr := 0, freeList;
      ghost var i := 0;
      while curr != 0
        invariant Valid() && unchanged(this)
        invariant i <= |heap.frees| && curr == Link(heap.frees, i)
        invariant prev == if i == 0 then 0 else heap.frees[i - 1]
        invariant forall k :: 0 <= k < i ==> heap.sizes[heap.frees[k]] < totalSize
        invariant FirstFit(heap, totalSize, 0) >= i
        decreases |heap.frees| - i
      {
        if Load(mem, curr) >= totalSize {
          p := CarveFit(prev, curr, totalSize, size, i);
          return;
        }
        assert Linked(mem, heap.frees, i);
        prev := curr;
        curr := Load(mem, curr + 8);
        i := i + 1;
      }
      if i < |heap.frees| {
        BlockIsInside(heap, heap.frees[i]);
      }
      p := Extend(totalSize, size);
    }

    /** What `malloc` does with the first block that fits. */
    method CarveFit(prev: int, curr: int, totalSize: int, ghost size: nat, ghost i: nat) returns (p: int)
      requires Valid() && 0 < size < MODULUS && totalSize == TotalSize(size)
      requires i < |heap.frees| && curr == heap.frees[i] && FirstFit(heap, totalSize, 0) == i
      requires prev == if i == 0 then 0 else heap.frees[i - 1]
      modifies this
      ensures Safe(old(heap), size) ==>
        && Valid() && (heap, Some(p)) == HeapModel.Malloc(old(heap), size)
        && SamePayloads(old(heap), old(mem), mem)
    {
      hide Wrap;
      hide Aligned;
      hide Needed;
      hide Load;
      hide Linked;
      hide Represents;
      hide Sound;
      FreeBlock(heap, mem, i);
      if Safe(heap, size) {
        CarveIsRight(heap, mem, i, size);
      }
      TakeHead(heap, i, totalSize);
      hide Take;
      hide Link;
      hide CarveStores;
      hide HeapModel.Malloc;
      hide Safe;
      hide SamePayloads;
      hide TotalSize;
      p := Carve(prev, curr, totalSize, i);
      heap := Take(heap, i, totalSize);
    }

    /** Take the block at `curr` out of the list, whole or split. */
    method Carve(prev: int, curr: int, totalSize: int, ghost i: nat) returns (p: int)
      requires i < |heap.frees| && curr == heap.frees[i] && curr in heap.sizes
      requires Load(mem, curr) == heap.sizes[curr] && Linked(mem, heap.frees, i)
      requires if i == 0 then prev == 0 else prev == heap.frees[i - 1] && prev != 0
      requires freeList == Link(heap.frees, 0)
      modifies this`mem, this`freeList
      ensures p == curr + HEADER
      ensures totalSize >= HEADER ==> mem == CarveStores(old(mem), heap, i, totalSize)
      ensures totalSize >= HEADER ==> freeList == Link(Take(heap, i, totalSize).frees, 0)
    {
      hide Take;
      TakeHead(heap, i, totalSize);
      if Load(mem, curr) >= Wrap(totalSize + HEADER + ALIGN) {
        var remaining := curr + totalSize;
        mem := mem[remaining := Load(mem, curr) - totalSize];
        mem := mem[remaining + 8 := Load(mem, curr + 8)];
        mem := mem[curr := totalSize];
        if prev != 0 {
          mem := mem[prev + 8 := remaining];
        } else {
          freeList := remaining;
        }
      } else {
        if prev != 0 {
          mem := mem[prev + 8 := Load(mem, curr + 8)];
        } else {
          freeList := Load(mem, curr + 8);
        }
      }
      p := curr + HEADER;
    }

    /** The client writes a word of its own. */
    method Poke(w: int, value: int)
      requires Valid() && InPayload(heap, w)
      modifies this`mem
      ensures Valid() && mem == old(mem)[w := value]
    {
      PokeRepresents(heap, mem, w, value);
      mem := mem[w := value];
    }

    method Extend(totalSize: int, ghost size: nat) returns (p: int)
      requires Valid() && 0 < size < MODULUS && totalSize == TotalSize(size)
      requires forall k :: 0 <= k < |heap.frees| ==> heap.sizes[heap.frees[k]] < totalSize
      modifies this
      ensures Safe(old(heap), size) ==>
        && Valid() && heap == HeapModel.Malloc(old(heap), size).0
        && p == (match HeapModel.Malloc(old(heap), size).1 case None => 0 case Some(q) => q)
        && SamePayloads(old(heap), old(mem), mem)
    {
      var block := Sbrk(totalSize);
      if block == -1 {
        return 0;
      }
      if Safe(heap, size) {
        SafeIsServed(heap, size);
        NeededFits(size);
        TotalIsNeeded(size);
        GrowRepresents(heap, mem, totalSize);
      }
      mem := mem[block := totalSize];
      heap := Grow(heap, totalSize);
      p := block + HEADER;
    }
  }

  /** The stores for taking the `i`-th free block. */
  function CarveStores(mem: Memory, h: Heap, i: nat, need: int): (r: Memory)
    requires i < |h.frees| && h.frees[i] in h.sizes
  {
    if h.sizes[h.frees[i]] >= Wrap(need + HEADER + ALIGN) then SplitStores(mem, h, i, need)
    else Splice(mem, h.frees, i, Load(mem, h.frees[i] + 8))
  }

  /** The words written by a taken block, whole or split, represent the new heap. */
  lemma {:induction false} CarveIsRight(h: Heap, mem: Memory, i: nat, size: nat)
    requires Sound(h) && Represents(mem, h) && 0 < size < MODULUS && Safe(h, size)
    requires i < |h.frees| && FirstFit(h, TotalSize(size), 0) == i
    ensures TotalSize(size) >= HEADER
    ensures HeapModel.Malloc(h, size) == (Take(h, i, TotalSize(size)), Some(h.frees[i] + HEADER))
    ensures Sound(Take(h, i, TotalSize(size)))
    ensures Represents(CarveStores(mem, h, i, TotalSize(size)), Take(h, i, TotalSize(size)))
    ensures SamePayloads(h, mem, CarveStores(mem, h, i, TotalSize(size)))
  {
    hide Represents;
    hide SamePayloads;
    hide SplitStores;
    hide Splice;
    hide Sound;
    hide Safe;
    hide TotalSize;
    hide FirstFit;
    hide HeapModel.Malloc;
    CarveServes(h, i, size);
    if h.sizes[h.frees[i]] >= Wrap(TotalSize(size) + HEADER + ALIGN) {
      SplitRepresents(h, mem, i, TotalSize(size));
    } else {
      UnlinkRepresents(h, mem, i);
    }
  }

  /** The block found is in the heap, and its size and the sums made with it do not wrap. */
  lemma {:induction false} CarveServes(h: Heap, i: nat, size: nat)
    requires Sound(h) && 0 < size < MODULUS && Safe(h, size)
    requires i < |h.frees| && FirstFit(h, TotalSize(size), 0) == i
    ensures h.frees[i] in h.sizes && TotalSize(size) >= HEADER + ALIGN
    ensures Wrap(TotalSize(size) + HEADER + ALIGN) == TotalSize(size) + HEADER + ALIGN
    ensures HeapModel.Malloc(h, size) == (Take(h, i, TotalSize(size)), Some(h.frees[i] + HEADER))
    ensures Sound(Take(h, i, TotalSize(size)))
  {
    hide Splice;
    hide Tiled;
    SafeIsServed(h, size);
    NeededFits(size);
    TotalIsNeeded(size);
    BlockIsInside(h, h.frees[i]);
    TopIsLow(h);
    WrapSmall(TotalSize(size) + HEADER + ALIGN);
  }

  lemma {:induction false} WrapSmall(x: int)
    requires 0 <= x < MODULUS
    ensures Wrap(x) == x
  {
  }

  lemma {:induction false} AlignUp(end: int)
    requires end > 0
    ensures (end + 7) / 8 * 8 == if end % ALIGN != 0 then end + (ALIGN - end % ALIGN) else end
  {
  }

  /** What the headers say of a free block, and that the one before it is not at address 0. */
  lemma {:induction false} FreeBlock(h: Heap, mem: Memory, i: nat)
    requires Sound(h) && Represents(mem, h) && i < |h.frees|
    ensures h.frees[i] in h.sizes && Linked(mem, h.frees, i) && Load(mem, h.frees[i]) == h.sizes[h.frees[i]]
    ensures i > 0 ==> h.frees[i - 1] != 0
  {
    hide Load;
    if i > 0 {
      BlockIsInside(h, h.frees[i - 1]);
      TopIsLow(h);
    }
  }

  /** The new head of the free list. */
  lemma {:induction false} TakeHead(h: Heap, i: nat, need: int)
    requires i < |h.frees| && h.frees[i] in h.sizes
    ensures Link(Take(h, i, need).frees, 0) ==
      if i > 0 then Link(h.frees, 0)
      else if h.sizes[h.frees[0]] >= Wrap(need + HEADER + ALIGN) then h.frees[0] + need
      else Link(h.frees, 1)
    ensures Take(h, i, need).base == h.base && Take(h, i, need).top == h.top
  {
  }
}
