/** Whole runs of a program that allocates, releases and writes to what it holds. */
module HeapClient {
  import opened Bytes
  import opened HeapModel
  import opened Allocator

  datatype Op = Request(size: nat) | Release(p: int) | Write(w: int, value: int)

  /** The program's own view: what it asked for and still holds, and what it wrote there. */
  datatype Client = Client(heap: Heap, asked: map<int, nat>, data: map<int, int>)

  /** `w` is a byte the program asked for, in the allocation `p`. */
  ghost predicate Owns(asked: map<int, nat>, w: int) {
    exists p :: p in asked && p <= w < p + asked[p]
  }

  /** The rules of the C library: release what you hold, write where you may, and request no size
      whose sums wrap. */
  ghost predicate Allowed(c: Client, op: Op) {
    match op
    case Request(size) => size < MODULUS && Safe(c.heap, size)
    case Release(p) => p == 0 || p in c.asked
    case Write(w, _) => Aligned(w) && Owns(c.asked, w)
  }

  ghost predicate Consistent(c: Client) {
    && Sound(c.heap)
    && (forall p :: p in c.asked ==> Live(c.heap, p - HEADER) && p + c.asked[p] <= p - HEADER + c.heap.sizes[p - HEADER])
    && (forall a :: Live(c.heap, a) ==> a + HEADER in c.asked)
    && (forall w :: w in c.data ==> InPayload(c.heap, w))
  }

  function Step(c: Client, op: Op): (r: Client)
    requires forall k :: 0 <= k < |c.heap.frees| ==> c.heap.frees[k] in c.heap.sizes
    requires op.Release? && op.p != 0 ==> op.p - HEADER in c.heap.sizes
  {
    match op
    case Request(size) =>
      var (h, p) := HeapModel.Malloc(c.heap, size);
      c.(heap := h, asked := if p.Some? then c.asked[p.value := size] else c.asked)
    case Release(p) =>
      if p == 0 then c
      else
        var end := p - HEADER + c.heap.sizes[p - HEADER];
        Client(Free(c.heap, p), c.asked - {p}, map w | w in c.data && !(p <= w < end) :: c.data[w])
    case Write(w, value) => c.(data := c.data[w := value])
  }

  lemma {:induction false} OwnedIsPayload(c: Client, w: int)
    requires Consistent(c) && Owns(c.asked, w)
    ensures InPayload(c.heap, w)
  {
    var p :| p in c.asked && p <= w < p + c.asked[p];
    assert Live(c.heap, p - HEADER);
  }

  lemma {:induction false} GrantKeeps(c: Client, size: nat, h: Heap, q: int)
    requires Consistent(c) && Served(c.heap, size, h, Some(q))
    ensures Consistent(Client(h, c.asked[q := size], c.data))
  {
    var c' := Client(h, c.asked[q := size], c.data);
    forall r | r in c'.asked
      ensures Live(h, r - HEADER) && r + c'.asked[r] <= r - HEADER + h.sizes[r - HEADER]
    {
      if r != q {
        assert Live(c.heap, r - HEADER);
      }
    }
    forall w | w in c'.data
      ensures InPayload(h, w)
    {
      var a :| Live(c.heap, a) && a + HEADER <= w < a + c.heap.sizes[a];
      assert Live(h, a);
    }
  }

  lemma {:induction false} RequestKeeps(c: Client, size: nat)
    requires Consistent(c) && Allowed(c, Request(size))
    ensures Consistent(Step(c, Request(size)))
  {
    SafeIsServed(c.heap, size);
    var (h, p) := HeapModel.Malloc(c.heap, size);
    if p.Some? {
      GrantKeeps(c, size, h, p.value);
    }
  }

  lemma {:induction false} ReleaseKeeps(c: Client, p: int)
    requires Consistent(c) && Allowed(c, Release(p))
    ensures p != 0 ==> Live(c.heap, p - HEADER)
    ensures Consistent(Step(c, Release(p)))
  {
    if p != 0 {
      assert Live(c.heap, p - HEADER);
      FreeKeepsSound(c.heap, p);
      hide Free;
      var c' := Step(c, Release(p));
      forall w | w in c'.data
        ensures InPayload(c'.heap, w)
      {
        var a :| Live(c.heap, a) && a + HEADER <= w < a + c.heap.sizes[a];
        assert Live(c'.heap, a);
      }
    }
  }

  lemma {:induction false} StepKeeps(c: Client, op: Op)
    requires Consistent(c) && Allowed(c, op)
    ensures op.Release? && op.p != 0 ==> Live(c.heap, op.p - HEADER)
    ensures Consistent(Step(c, op))
  {
    match op
    case Request(size) => RequestKeeps(c, size);
    case Release(p) => ReleaseKeeps(c, p);
    case Write(w, _) => OwnedIsPayload(c, w);
  }

  /** The states of a run, as long as it obeys the rules. */
  ghost predicate Obeys(c: Client, ops: seq<Op>)
    requires Consistent(c)
    decreases |ops|
  {
    ops == [] || (Allowed(c, ops[0]) && (StepKeeps(c, ops[0]); Obeys(Step(c, ops[0]), ops[1..])))
  }

  ghost function Run(c: Client, ops: seq<Op>): (r: Client)
    requires Consistent(c) && Obeys(c, ops)
    ensures Consistent(r)
    decreases |ops|
  {
    if ops == [] then c else
      StepKeeps(c, ops[0]);
      Run(Step(c, ops[0]), ops[1..])
  }

  /** What a program may rely on at any point of any run: each allocation it holds lies inside the heap, is
      aligned, and shares no byte with another one or with any header. */
  lemma {:induction false} HoldingsAreApart(c: Client, p: int, q: int)
    requires Consistent(c) && p in c.asked && q in c.asked && p < q
    ensures Aligned(p) && c.heap.base + HEADER <= p && p + c.asked[p] + HEADER <= q && q + c.asked[q] <= c.heap.top
  {
    assert Live(c.heap, p - HEADER) && Live(c.heap, q - HEADER);
    BlockIsInside(c.heap, p - HEADER);
    BlockIsInside(c.heap, q - HEADER);
  }

  lemma {:induction false} EveryRunIsSound(base: int, ops: seq<Op>)
    requires 0 < base < LIMIT && Aligned(base)
    ensures Consistent(Start(base))
    ensures Obeys(Start(base), ops) ==>
      var c := Run(Start(base), ops);
      && Consistent(c)
      && (forall p, q :: p in c.asked && q in c.asked && p < q ==> p + c.asked[p] + HEADER <= q)
      && SumOf(c.heap.sizes, Chain(c.heap, c.heap.base)) == c.heap.top - c.heap.base
  {
    if Obeys(Start(base), ops) {
      var c := Run(Start(base), ops);
      HeapIsTiled(c.heap);
      forall p, q | p in c.asked && q in c.asked && p < q
        ensures p + c.asked[p] + HEADER <= q
      {
        HoldingsAreApart(c, p, q);
      }
    }
  }

  function Start(base: int): (c: Client) { Client(Heap(base, map[], [], base), map[], map[]) }

  /** Memory holds what the program wrote. */
  ghost predicate Holds(mem: Memory, data: map<int, int>) {
    forall w :: w in data ==> Load(mem, w) == data[w]
  }

  /** What a step does for the program: a granted request is held under a new pointer with the size asked for; a released
      allocation is held no more and its block is free, with what was written there forgotten and all else kept; a write is
      remembered. */
  ghost predicate Effect(c: Client, op: Op, r: Client) {
    match op
    case Request(size) =>
      && r.data == c.data
      && (r == c || exists q :: q !in c.asked && r.asked == c.asked[q := size] && Live(r.heap, q - HEADER) && !Live(c.heap, q - HEADER))
    case Release(p) =>
      if p == 0 then r == c
      else
        && p in c.asked && r.asked == c.asked - {p} && !Live(r.heap, p - HEADER)
        && (forall a :: a != p - HEADER ==> (Live(r.heap, a) <==> Live(c.heap, a)))
        && (forall q, w :: q in r.asked && q <= w < q + r.asked[q] && w in c.data ==> w in r.data && r.data[w] == c.data[w])
        && (forall w :: w in r.data ==> w in c.data && r.data[w] == c.data[w] && !(p <= w < p + c.asked[p]))
    case Write(w, value) => r == c.(data := c.data[w := value])
  }

  lemma {:induction false} StepHasEffect(c: Client, op: Op)
    requires Consistent(c) && Allowed(c, op)
    ensures op.Release? && op.p != 0 ==> op.p - HEADER in c.heap.sizes
    ensures Effect(c, op, Step(c, op))
  {
    StepKeeps(c, op);
    match op
    case Request(size) => RequestEffect(c, size);
    case Release(p) => if p != 0 { ReleaseEffect(c, p); }
    case Write(w, value) =>
  }

  lemma {:induction false} NotAsked(c: Client, a: int)
    requires Consistent(c) && !Live(c.heap, a)
    ensures a + HEADER !in c.asked
  {
  }

  lemma {:induction false} RequestEffect(c: Client, size: nat)
    requires Consistent(c) && Allowed(c, Request(size))
    ensures Effect(c, Request(size), Step(c, Request(size)))
  {
    hide Tiled;
    hide Safe;
    SafeIsServed(c.heap, size);
    var (h, p) := HeapModel.Malloc(c.heap, size);
    if p.Some? {
      NotAsked(c, p.value - HEADER);
      assert Step(c, Request(size)).asked == c.asked[p.value := size];
    } else {
      assert Step(c, Request(size)) == c;
    }
  }

  lemma {:induction false} BlocksApart(c: Client, p: int, q: int)
    requires Consistent(c) && p in c.asked && q in c.asked && p != q
    ensures p - HEADER in c.heap.sizes && q - HEADER in c.heap.sizes
    ensures var end := p - HEADER + c.heap.sizes[p - HEADER]; q + c.asked[q] <= p - HEADER || end <= q - HEADER
  {
    hide Block;
    assert Live(c.heap, p - HEADER) && Live(c.heap, q - HEADER);
  }

  lemma {:induction false} ReleaseEffect(c: Client, p: int)
    requires Consistent(c) && p in c.asked && p != 0
    ensures p - HEADER in c.heap.sizes && Effect(c, Release(p), Step(c, Release(p)))
  {
    hide Tiled;
    hide InPayload;
    assert Live(c.heap, p - HEADER);
    FreeKeepsSound(c.heap, p);
    var end := p - HEADER + c.heap.sizes[p - HEADER];
    assert p + c.asked[p] <= end;
    forall q | q in c.asked && q != p
      ensures q + c.asked[q] <= p || end <= q
    {
      BlocksApart(c, p, q);
    }
  }

  method Perform(al: Allocator, ghost c: Client, op: Op)
    requires al.Valid() && Consistent(c) && al.heap == c.heap && Holds(al.mem, c.data) && Allowed(c, op)
    modifies al
    ensures op.Release? && op.p != 0 ==> op.p - HEADER in c.heap.sizes
    ensures al.Valid() && al.heap == Step(c, op).heap && Holds(al.mem, Step(c, op).data)
  {
    hide Tiled;
    hide Represents;
    hide Live;
    hide InPayload;
    hide Aligned;
    StepKeeps(c, op);
    hide Sound;
    match op
    case Request(size) =>
      var p := al.Malloc(size);
    case Release(p) =>
      al.Free(p);
      if p != 0 {
        assert Step(c, op).data.Keys <= c.data.Keys;
      }
    case Write(w, value) =>
      OwnedIsPayload(c, w);
      al.Poke(w, value);
  }

  /** Every run on the real headers goes the way of the model, and what the program wrote and has not
      released is still there at the end. */
  method Execute(al: Allocator, ghost c0: Client, ops: seq<Op>)
    requires al.Valid() && Consistent(c0) && al.heap == c0.heap && Holds(al.mem, c0.data) && Obeys(c0, ops)
    modifies al
    ensures al.Valid() && al.heap == Run(c0, ops).heap && Holds(al.mem, Run(c0, ops).data)
  {
    hide Consistent;
    hide Allowed;
    hide Holds;
    ghost var c := c0;
    var i := 0;
    while i < |ops|
      invariant i <= |ops| && al.Valid() && Consistent(c) && al.heap == c.heap && Holds(al.mem, c.data)
      invariant Obeys(c, ops[i..]) && Run(c, ops[i..]) == Run(c0, ops)
    {
      assert ops[i..][1..] == ops[i + 1..];
      StepKeeps(c, ops[i]);
      Perform(al, c, ops[i]);
      c := Step(c, ops[i]);
      i := i + 1;
    }
  }
}
