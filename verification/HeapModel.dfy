/** The heap of `malloc`/`free` as a value: which blocks there are, which of them are free and in
    which order the free list holds them. */
module HeapModel {
  import opened Bytes

  const ALIGN := 8
  const HEADER := 16
  const LIMIT := 0x8120_0000
  const MODULUS := 0x1_0000_0000_0000_0000

  function Wrap(x: int): (r: int) { x % MODULUS }

  /** `ALIGN(size + BLOCK_SIZE)` in 64-bit arithmetic. */
  function TotalSize(size: nat): (t: int) { Wrap(size + HEADER + ALIGN - 1) / ALIGN * ALIGN }

  /** The same sum on unbounded integers. */
  function Needed(size: nat): (t: nat) { (size + HEADER + ALIGN - 1) / ALIGN * ALIGN }

  /** `sizes` gives every block, by header address, its size; `frees` is the free list. */
  datatype Heap = Heap(base: int, sizes: map<int, int>, frees: seq<int>, top: int)

  // ----- Soundness -----

  predicate Aligned(x: int) { x % ALIGN == 0 }

  lemma {:induction false} AlignedSum(x: int, y: int)
    requires Aligned(x) && Aligned(y)
    ensures Aligned(x + y) && Aligned(x - y)
  {
  }

  /** The block at `a` is aligned, holds more than its header, and ends where the next block or the
      top is. */
  predicate Block(base: int, sizes: map<int, int>, top: int, a: int)
    requires a in sizes
  {
    && base <= a < top && Aligned(a)
    && sizes[a] >= HEADER + ALIGN && Aligned(sizes[a])
    && (a + sizes[a] == top || a + sizes[a] in sizes)
  }

  /** Blocks follow one another without gap or overlap from `base` to `top`. */
  ghost predicate Tiled(base: int, sizes: map<int, int>, top: int) {
    && 0 < base <= top < LIMIT && Aligned(base) && Aligned(top)
    && (base == top || base in sizes)
    && (forall a {:trigger Block(base, sizes, top, a)} :: a in sizes ==> Block(base, sizes, top, a))
    && (forall a, b :: a in sizes && b in sizes && a < b ==> a + sizes[a] <= b)
  }

  /** The free list names blocks, each at most once. */
  ghost predicate Listed(sizes: map<int, int>, frees: seq<int>) {
    && (forall i :: 0 <= i < |frees| ==> frees[i] in sizes)
    && (forall i, j :: 0 <= i < j < |frees| ==> frees[i] != frees[j])
  }

  ghost predicate Sound(h: Heap) { Tiled(h.base, h.sizes, h.top) && Listed(h.sizes, h.frees) }

  predicate Live(h: Heap, a: int) { a in h.sizes && a !in h.frees }

  // ----- Operations -----

  /** The first position from `i` on whose block is big enough, or the end of the list. */
  function FirstFit(h: Heap, need: int, i: nat): (r: nat)
    requires i <= |h.frees| && forall k :: 0 <= k < |h.frees| ==> h.frees[k] in h.sizes
    ensures i <= r <= |h.frees|
    ensures r < |h.frees| ==> h.sizes[h.frees[r]] >= need
    ensures forall k :: i <= k < r ==> h.sizes[h.frees[k]] < need
    decreases |h.frees| - i
  {
    if i == |h.frees| || h.sizes[h.frees[i]] >= need then i else FirstFit(h, need, i + 1)
  }

  /** Take the `i`-th free block for `need` bytes, splitting it when header and a word remain. */
  function Take(h: Heap, i: nat, need: int): (r: Heap)
    requires i < |h.frees| && h.frees[i] in h.sizes
  {
    var a := h.frees[i];
    if h.sizes[a] >= Wrap(need + HEADER + ALIGN)
    then h.(sizes := h.sizes[a + need := h.sizes[a] - need][a := need], frees := h.frees[i := a + need])
    else h.(frees := h.frees[..i] + h.frees[i + 1..])
  }

  function Grow(h: Heap, need: int): (r: Heap) {
    h.(sizes := h.sizes[h.top := need], top := Wrap(h.top + need))
  }

  function Malloc(h: Heap, size: nat): (r: (Heap, Option<int>))
    requires forall k :: 0 <= k < |h.frees| ==> h.frees[k] in h.sizes
  {
    if size == 0 then (h, None)
    else
      var need := TotalSize(size);
      var i := FirstFit(h, need, 0);
      if i < |h.frees| then (Take(h, i, need), Some(h.frees[i] + HEADER))
      else if Wrap(h.top + need) >= LIMIT then (h, None)
      else (Grow(h, need), Some(h.top + HEADER))
  }

  function Free(h: Heap, p: int): (r: Heap) {
    if p == 0 then h else h.(frees := [p - HEADER] + h.frees)
  }

  // ----- What malloc owes its caller -----

  /** The heap stays sound, and a granted pointer is the payload of a live block, new to the caller, of
      at least `size` bytes; no other block changes hands. */
  ghost predicate Served(h: Heap, size: nat, h': Heap, p: Option<int>) {
    && Sound(h') && h'.base == h.base && h'.top >= h.top
    && match p
       case None => h' == h
       case Some(q) =>
         && Live(h', q - HEADER) && !Live(h, q - HEADER)
         && h'.sizes[q - HEADER] >= size + HEADER
         && (forall a :: Live(h, a) ==> Live(h', a) && h'.sizes[a] == h.sizes[a])
         && (forall a :: Live(h', a) && a != q - HEADER ==> Live(h, a))
  }

  /** Sizes for which the 64-bit sums do no harm: none wraps, or the wrapped request is refused too. */
  predicate Safe(h: Heap, size: nat) {
    || size == 0
    || h.top + Needed(size) < MODULUS
    || (h.frees == [] && Needed(size) >= MODULUS && h.top + Needed(size) - MODULUS >= LIMIT)
  }

  lemma {:induction false} NeededFits(size: nat)
    ensures Needed(size) >= size + HEADER && Aligned(Needed(size)) && Needed(size) < size + HEADER + ALIGN
    ensures size > 0 ==> Needed(size) >= HEADER + ALIGN
  {
  }

  lemma {:induction false} TotalIsNeeded(size: nat)
    requires size < MODULUS
    ensures TotalSize(size) == if Needed(size) < MODULUS then Needed(size) else Needed(size) - MODULUS
    ensures Needed(size) >= MODULUS ==> 0 <= TotalSize(size) <= HEADER
  {
  }

  lemma {:induction false} TakeWholeServes(h: Heap, i: nat, size: nat)
    requires Sound(h) && i < |h.frees| && size > 0
    requires Needed(size) <= h.sizes[h.frees[i]] < Needed(size) + HEADER + ALIGN
    ensures Served(h, size, h.(frees := h.frees[..i] + h.frees[i + 1..]), Some(h.frees[i] + HEADER))
  {
    hide Tiled;
    NeededFits(size);
    var h' := h.(frees := h.frees[..i] + h.frees[i + 1..]);
    var a := h.frees[i];
    forall b | b in h.sizes && b != a
      ensures b in h'.frees <==> b in h.frees
    {
      if b in h.frees {
        var j :| 0 <= j < |h.frees| && h.frees[j] == b;
        assert h'.frees[if j < i then j else j - 1] == b;
      }
    }
    BlockIsInside(h, a);
  }

  lemma {:induction false} SplitTiles(base: int, sizes: map<int, int>, top: int, a: int, need: int)
    requires Tiled(base, sizes, top) && a in sizes && Aligned(need)
    requires HEADER + ALIGN <= need && need + HEADER + ALIGN <= sizes[a]
    ensures a + need !in sizes
    ensures Tiled(base, sizes[a + need := sizes[a] - need][a := need], top)
  {
    hide Aligned;
    var rest, end := a + need, a + sizes[a];
    var sizes' := sizes[rest := sizes[a] - need][a := need];
    assert Block(base, sizes, top, a);
    AlignedSum(a, need);
    AlignedSum(sizes[a], need);
    EndsBelowTop(base, sizes, top, a);
    forall b | b in sizes'
      ensures Block(base, sizes', top, b)
    {
      if b in sizes {
        assert Block(base, sizes, top, b);
      }
    }
    forall b, c | b in sizes' && c in sizes' && b < c
      ensures b + sizes'[b] <= c
    {
      assert c in sizes && c > a ==> end <= c;
      assert b in sizes && b > a ==> end <= b;
      if c == rest && b < a {
        assert b + sizes[b] <= a;
      }
    }
  }

  lemma {:induction false} TakeSplitServes(h: Heap, i: nat, size: nat)
    requires Sound(h) && i < |h.frees| && size > 0
    requires h.sizes[h.frees[i]] >= Needed(size) + HEADER + ALIGN
    ensures var a := h.frees[i]; var need := Needed(size);
            Served(h, size, h.(sizes := h.sizes[a + need := h.sizes[a] - need][a := need], frees := h.frees[i := a + need]), Some(a + HEADER))
  {
    NeededFits(size);
    var a, need := h.frees[i], Needed(size);
    SplitTiles(h.base, h.sizes, h.top, a, need);
    var h' := h.(sizes := h.sizes[a + need := h.sizes[a] - need][a := need], frees := h.frees[i := a + need]);
    assert Listed(h'.sizes, h'.frees);
    assert a !in h'.frees;
    assert a in h.frees;
    assert h'.frees[i] == a + need;
    forall b | b in h.sizes && b != a
      ensures b in h'.frees <==> b in h.frees
    {
      if b in h.frees {
        var j :| 0 <= j < |h.frees| && h.frees[j] == b;
        assert h'.frees[j] == b;
      }
    }
  }

  lemma {:induction false} EndsBelowTop(base: int, sizes: map<int, int>, top: int, a: int)
    requires Tiled(base, sizes, top) && a in sizes
    ensures a + sizes[a] <= top
  {
    assert Block(base, sizes, top, a);
    if a + sizes[a] in sizes {
      assert Block(base, sizes, top, a + sizes[a]);
    }
  }

  lemma {:induction false} GrowTiles(base: int, sizes: map<int, int>, top: int, need: int)
    requires Tiled(base, sizes, top) && HEADER + ALIGN <= need && Aligned(need) && top + need < LIMIT
    ensures top !in sizes
    ensures Tiled(base, sizes[top := need], top + need)
  {
    assert top in sizes ==> Block(base, sizes, top, top);
    AlignedSum(top, need);
    var sizes' := sizes[top := need];
    forall b | b in sizes'
      ensures Block(base, sizes', top + need, b)
    {
      assert b in sizes ==> Block(base, sizes, top, b);
    }
    forall b, c | b in sizes' && c in sizes' && b < c
      ensures b + sizes'[b] <= c
    {
      if c == top {
        EndsBelowTop(base, sizes, top, b);
      } else {
        assert Block(base, sizes, top, c);
      }
    }
  }

  lemma {:induction false} GrowServes(h: Heap, size: nat)
    requires Sound(h) && size > 0 && h.top + Needed(size) < LIMIT
    ensures Served(h, size, Grow(h, Needed(size)), Some(h.top + HEADER))
  {
    NeededFits(size);
    GrowTiles(h.base, h.sizes, h.top, Needed(size));
    assert 0 < h.top;
    hide Tiled;
    var h' := Grow(h, Needed(size));
    assert h'.frees == h.frees;
  }

  /** A safe request is served: granted when a free block is large enough or the heap can still grow,
      refused with the heap unchanged otherwise. */
  lemma {:induction false} SafeIsServed(h: Heap, size: nat)
    requires Sound(h) && size < MODULUS && Safe(h, size)
    ensures var (h', p) := Malloc(h, size); Served(h, size, h', p)
    ensures Malloc(h, size).1.Some? <==>
      size > 0 && ((exists i :: 0 <= i < |h.frees| && h.sizes[h.frees[i]] >= Needed(size)) || h.top + Needed(size) < LIMIT)
  {
    hide Served;
    hide Tiled;
    hide Wrap;
    NeededFits(size);
    TotalIsNeeded(size);
    TopIsLow(h);
    WrapSum(h.top + TotalSize(size));
    WrapSum(TotalSize(size) + HEADER + ALIGN);
    if size == 0 {
      assert Served(h, size, h, None) by { RefusalServes(h, size); }
    } else if Needed(size) >= MODULUS {
      RefusalServes(h, size);
    } else {
      var i := FirstFit(h, Needed(size), 0);
      if i < |h.frees| {
        BlockIsInside(h, h.frees[i]);
        if h.sizes[h.frees[i]] >= Needed(size) + HEADER + ALIGN {
          TakeSplitServes(h, i, size);
        } else {
          TakeWholeServes(h, i, size);
        }
      } else if h.top + Needed(size) < LIMIT {
        GrowServes(h, size);
      } else {
        RefusalServes(h, size);
      }
    }
  }

  lemma {:induction false} TopIsLow(h: Heap)
    requires Sound(h)
    ensures 0 < h.base <= h.top < LIMIT
  {
  }

  lemma {:induction false} WrapSum(x: int)
    requires 0 <= x < 2 * MODULUS
    ensures Wrap(x) == if x < MODULUS then x else x - MODULUS
  {
  }

  lemma {:induction false} BlockIsInside(h: Heap, a: int)
    requires Sound(h) && a in h.sizes
    ensures h.base <= a && a + HEADER + ALIGN <= a + h.sizes[a] <= h.top && Aligned(a)
  {
    EndsBelowTop(h.base, h.sizes, h.top, a);
    assert Block(h.base, h.sizes, h.top, a);
  }

  lemma {:induction false} RefusalServes(h: Heap, size: nat)
    requires Sound(h)
    ensures Served(h, size, h, None)
  {
  }

  /** An unsafe request is granted all the same, and never properly. */
  lemma {:induction false} UnsafeIsNotServed(h: Heap, size: nat)
    requires Sound(h) && size < MODULUS && !Safe(h, size)
    ensures var (h', p) := Malloc(h, size); p.Some? && !Served(h, size, h', p)
  {
    hide Block;
    NeededFits(size);
    TotalIsNeeded(size);
    forall i | 0 <= i < |h.frees|
      ensures HEADER + ALIGN <= h.sizes[h.frees[i]] < LIMIT
    {
      BlockIsInside(h, h.frees[i]);
    }
  }

  /** `malloc` does its duty exactly on the safe requests. */
  lemma {:induction false} ServedIffSafe(h: Heap, size: nat)
    requires Sound(h) && size < MODULUS
    ensures var (h', p) := Malloc(h, size); Served(h, size, h', p) <==> Safe(h, size)
  {
    if Safe(h, size) {
      SafeIsServed(h, size);
    } else {
      UnsafeIsNotServed(h, size);
    }
  }

  /** A request of 2^64 - 100 bytes on a fresh heap is granted, and moves the top below the base. */
  lemma {:induction false} HugeRequestSucceeds(base: int)
    requires 100 <= base < LIMIT && Aligned(base)
    ensures var (h, p) := Malloc(Heap(base, map[], [], base), MODULUS - 100);
            p == Some(base + HEADER) && h.top == base - 80
  {
  }

  // ----- Free -----

  lemma {:induction false} FreeKeepsSound(h: Heap, p: int)
    requires Sound(h) && (p == 0 || Live(h, p - HEADER))
    ensures Sound(Free(h, p)) && Free(h, p).sizes == h.sizes && Free(h, p).top == h.top
    ensures forall a :: Live(Free(h, p), a) <==> Live(h, a) && a != p - HEADER
  {
    if p == 0 {
      if -HEADER in h.sizes {
        BlockIsInside(h, -HEADER);
      }
    } else {
      assert Free(h, p).frees[1..] == h.frees;
    }
  }

  /** A block just freed is the first one looked at: a request it fits without splitting gets it back. */
  lemma {:induction false} FreedIsReused(h: Heap, a: int, size: nat)
    requires Sound(h) && Live(h, a) && 0 < size < MODULUS
    requires Needed(size) <= h.sizes[a] < Needed(size) + HEADER + ALIGN
    ensures Sound(Free(h, a + HEADER)) && Malloc(Free(h, a + HEADER), size) == (h, Some(a + HEADER))
  {
    BlockIsInside(h, a);
    FreeKeepsSound(h, a + HEADER);
    NeededFits(size);
    TotalIsNeeded(size);
    var f := Free(h, a + HEADER);
    assert FirstFit(f, Needed(size), 0) == 0;
    assert f.frees[..0] + f.frees[1..] == h.frees;
  }

  lemma {:induction false} GrantedFits(h: Heap, size: nat)
    requires Sound(h) && 0 < size < MODULUS && h.top + Needed(size) < MODULUS && Malloc(h, size).1.Some?
    ensures var (h', p) := Malloc(h, size); var a := p.value - HEADER;
            a in h'.sizes && Needed(size) <= h'.sizes[a] < Needed(size) + HEADER + ALIGN
  {
    NeededFits(size);
    TotalIsNeeded(size);
    var i := FirstFit(h, Needed(size), 0);
    if i < |h.frees| {
      BlockIsInside(h, h.frees[i]);
    }
  }

  lemma {:induction false} GrantedIsSmall(h: Heap, size: nat)
    requires Sound(h) && size < MODULUS && Safe(h, size) && Malloc(h, size).1.Some?
    ensures 0 < size && h.top + Needed(size) < MODULUS
  {
    TotalIsNeeded(size);
    TopIsLow(h);
    WrapSum(h.top + TotalSize(size));
  }

  /** Free block `i` is the first with room for `need` bytes. */
  ghost predicate FirstWithRoom(h: Heap, i: nat, need: nat) {
    && i < |h.frees| && h.frees[i] in h.sizes && h.sizes[h.frees[i]] >= need
    && forall k :: 0 <= k < i ==> h.frees[k] in h.sizes && h.sizes[h.frees[k]] < need
  }

  /** The block at `a` was free; it leaves the list whole if a header and a word do not remain, and else the rest takes its
      place in the list. */
  ghost predicate Reused(h: Heap, i: nat, need: nat, h': Heap, a: int) {
    && FirstWithRoom(h, i, need) && a == h.frees[i]
    && if h.sizes[a] < need + HEADER + ALIGN then h' == h.(frees := h.frees[..i] + h.frees[i + 1..])
       else h' == h.(sizes := h.sizes[a + need := h.sizes[a] - need][a := need], frees := h.frees[i := a + need])
  }

  /** No free block has room; the block at `a` is new at the top, which moves up by just its size. */
  ghost predicate Grown(h: Heap, need: nat, h': Heap, a: int) {
    && (forall k :: 0 <= k < |h.frees| ==> h.frees[k] in h.sizes && h.sizes[h.frees[k]] < need)
    && a == h.top && h' == h.(sizes := h.sizes[a := need], top := a + need)
  }

  /** What a grant of `size` bytes at `q` is, in exact arithmetic: `Needed(size)` bytes, from the first free block that has
      them or else from the top. */
  ghost predicate Granted(h: Heap, size: nat, h': Heap, q: int) {
    GrantedAt(h, Needed(size), h', q - HEADER)
  }

  ghost predicate GrantedAt(h: Heap, need: nat, h': Heap, a: int) {
    (exists i: nat :: Reused(h, i, need, h', a)) || Grown(h, need, h', a)
  }

  lemma {:induction false} GrantIsExact(h: Heap, size: nat)
    requires Sound(h) && size < MODULUS && Safe(h, size) && Malloc(h, size).1.Some?
    ensures Granted(h, size, Malloc(h, size).0, Malloc(h, size).1.value)
  {
    hide Tiled;
    hide Needed;
    hide TotalSize;
    GrantedIsSmall(h, size);
    NeededFits(size);
    TotalIsNeeded(size);
    TopIsLow(h);
    var need := Needed(size);
    WrapSum(h.top + need);
    var i := FirstFit(h, need, 0);
    if i < |h.frees| {
      BlockIsInside(h, h.frees[i]);
      WrapSum(need + HEADER + ALIGN);
      assert Reused(h, i, need, Malloc(h, size).0, h.frees[i]);
    }
  }

  /** Freeing a fresh allocation and asking for the same size again gives the same block back and
      the same heap. */
  lemma {:induction false} FreeThenMalloc(h: Heap, size: nat)
    requires Sound(h) && size < MODULUS && Safe(h, size) && Malloc(h, size).1.Some?
    ensures var (h', p) := Malloc(h, size);
            Sound(Free(h', p.value)) && Malloc(Free(h', p.value), size) == (h', p)
  {
    hide Malloc;
    SafeIsServed(h, size);
    GrantedIsSmall(h, size);
    var (h', p) := Malloc(h, size);
    GrantedFits(h, size);
    FreedIsReused(h', p.value - HEADER, size);
  }

  // ----- Consequences of soundness -----

  /** The blocks from `a` to the top, in address order. */
  ghost function Chain(h: Heap, a: int): (s: seq<int>)
    requires Sound(h) && (a == h.top || a in h.sizes)
    ensures forall i :: 0 <= i < |s| ==> s[i] in h.sizes
    decreases h.top - a
  {
    if a == h.top then []
    else
      assert Block(h.base, h.sizes, h.top, a);
      BlockIsInside(h, a);
      [a] + Chain(h, a + h.sizes[a])
  }

  ghost function SumOf(sizes: map<int, int>, s: seq<int>): (t: int)
    requires forall i :: 0 <= i < |s| ==> s[i] in sizes
  {
    if s == [] then 0 else sizes[s[0]] + SumOf(sizes, s[1..])
  }

  lemma {:induction false} ChainStep(h: Heap, a: int)
    requires Sound(h) && a in h.sizes
    ensures h.base <= a < a + h.sizes[a] <= h.top && (a + h.sizes[a] == h.top || a + h.sizes[a] in h.sizes)
    ensures Chain(h, a) == [a] + Chain(h, a + h.sizes[a])
  {
    BlockIsInside(h, a);
    assert Block(h.base, h.sizes, h.top, a);
  }

  /** The walk goes upwards. */
  lemma {:induction false} ChainRises(h: Heap, a: int)
    requires Sound(h) && (a == h.top || a in h.sizes)
    ensures forall i :: 0 <= i < |Chain(h, a)| ==> Chain(h, a)[i] >= a
    ensures forall i, j :: 0 <= i < j < |Chain(h, a)| ==> Chain(h, a)[i] < Chain(h, a)[j]
    decreases h.top - a
  {
    if a != h.top {
      ChainStep(h, a);
      ChainRises(h, a + h.sizes[a]);
    }
  }

  /** It misses no block. */
  lemma {:induction false} ChainHasAll(h: Heap, a: int, b: int)
    requires Sound(h) && (a == h.top || a in h.sizes) && b in h.sizes && b >= a
    ensures b in Chain(h, a)
    decreases h.top - a
  {
    ChainStep(h, b);
    if a != h.top {
      ChainStep(h, a);
      assert a < b ==> a + h.sizes[a] <= b;
      hide Chain;
      if a < b {
        ChainHasAll(h, a + h.sizes[a], b);
      }
    }
  }

  lemma {:induction false} ChainSums(h: Heap, a: int)
    requires Sound(h) && (a == h.top || a in h.sizes)
    ensures SumOf(h.sizes, Chain(h, a)) == h.top - a
    decreases h.top - a
  {
    if a != h.top {
      ChainStep(h, a);
      ChainSums(h, a + h.sizes[a]);
      assert Chain(h, a)[1..] == Chain(h, a + h.sizes[a]);
    }
  }

  /** Walking the blocks from any of them meets every later block once, in order, and their sizes add up to
      the stretch walked. */
  lemma {:induction false} ChainTiles(h: Heap, a: int)
    requires Sound(h) && (a == h.top || a in h.sizes)
    ensures forall i :: 0 <= i < |Chain(h, a)| ==> Chain(h, a)[i] >= a
    ensures forall i, j :: 0 <= i < j < |Chain(h, a)| ==> Chain(h, a)[i] < Chain(h, a)[j]
    ensures forall b :: b in h.sizes && b >= a ==> b in Chain(h, a)
    ensures SumOf(h.sizes, Chain(h, a)) == h.top - a
  {
    ChainRises(h, a);
    ChainSums(h, a);
    forall b | b in h.sizes && b >= a
      ensures b in Chain(h, a)
    {
      ChainHasAll(h, a, b);
    }
  }

  /** The blocks tile the heap: all of them, each once, adding up to its extent. */
  lemma {:induction false} HeapIsTiled(h: Heap)
    requires Sound(h)
    ensures var s := Chain(h, h.base);
            && (forall b :: b in s <==> b in h.sizes)
            && (forall i, j :: 0 <= i < j < |s| ==> s[i] < s[j])
            && SumOf(h.sizes, s) == h.top - h.base
  {
    ChainTiles(h, h.base);
    forall b | b in h.sizes
      ensures b >= h.base
    {
      BlockIsInside(h, b);
    }
  }

  /** Every address of the heap lies in exactly one block. */
  lemma {:induction false} AddressHasOneBlock(h: Heap, x: int, a: int) returns (b: int)
    requires Sound(h) && (a == h.top || a in h.sizes) && a <= x < h.top
    ensures b in h.sizes && b <= x < b + h.sizes[b]
    ensures forall c :: c in h.sizes && c <= x < c + h.sizes[c] ==> c == b
    decreases h.top - a
  {
    BlockIsInside(h, a);
    if x < a + h.sizes[a] {
      b := a;
    } else {
      assert Block(h.base, h.sizes, h.top, a);
      b := AddressHasOneBlock(h, x, a + h.sizes[a]);
    }
  }
}
