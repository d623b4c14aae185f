/** Set-associative caches as values: which lines are held, and what installing and invalidating do. */
module CacheModel {
  import opened Bytes

  datatype Line = Line(tag: nat, valid: bool, dirty: bool)

  /** The ways of every set. */
  type Sets = seq<seq<Line>>

  // ----- Line numbers, sets and tags -----

  /** `n` is a line number: an address divided by the line size. */
  function SetOf(n: nat, sets: nat): (s: nat)
    requires sets > 0
    ensures s < sets
  {
    n % sets
  }

  function TagOf(n: nat, sets: nat): (t: nat)
    requires sets > 0
  {
    n / sets
  }

  function LineAt(tag: nat, s: nat, sets: nat): (n: nat) { tag * sets + s }

  lemma {:induction false} Monotone(x: nat, y: nat, b: nat)
    requires x <= y
    ensures x * b <= y * b
  {
  }

  lemma {:induction false} DivMod(a: nat, b: nat)
    requires b > 0
    ensures a == (a / b) * b + a % b && a % b < b
  {
  }

  lemma {:induction false} QuotientIsUnique(b: nat, q: nat, w: nat, q': nat, w': nat)
    requires w < b && w' < b && q * b + w == q' * b + w'
    ensures q == q'
  {
    Monotone(q + 1, if q < q' then q' else q + 1, b);
    Monotone(q' + 1, if q' < q then q else q' + 1, b);
    assert (q + 1) * b == q * b + b && (q' + 1) * b == q' * b + b;
  }

  lemma {:induction false} DivisionIs(a: nat, b: nat, q: nat, w: nat)
    requires w < b && a == q * b + w
    ensures a / b == q && a % b == w
  {
    DivMod(a, b);
    QuotientIsUnique(b, q, w, a / b, a % b);
  }

  lemma {:induction false} LineAtIs(tag: nat, s: nat, sets: nat)
    requires s < sets
    ensures SetOf(LineAt(tag, s, sets), sets) == s && TagOf(LineAt(tag, s, sets), sets) == tag
  {
    DivisionIs(tag * sets + s, sets, tag, s);
  }

  lemma {:induction false} LineAtOwn(n: nat, sets: nat)
    requires sets > 0
    ensures LineAt(TagOf(n, sets), SetOf(n, sets), sets) == n
  {
  }

  /** The tag as the code computes it, from the address in one division. */
  lemma {:induction false} TagOfAddress(addr: nat, lineBytes: nat, sets: nat)
    requires lineBytes > 0 && sets > 0
    ensures lineBytes * sets > 0 && addr / (lineBytes * sets) == TagOf(addr / lineBytes, sets)
  {
    DivMod(addr, lineBytes);
    DivMod(addr / lineBytes, sets);
    TagFrom(addr, addr / lineBytes, addr % lineBytes, (addr / lineBytes) / sets, (addr / lineBytes) % sets, lineBytes, sets);
  }

  lemma {:induction false} TagFrom(addr: nat, q: nat, r: nat, t: nat, u: nat, lineBytes: nat, sets: nat)
    requires addr == q * lineBytes + r && q == t * sets + u && r < lineBytes && u < sets
    ensures lineBytes * sets > 0 && addr / (lineBytes * sets) == t
  {
    Regroup(t, u, r, lineBytes, sets);
    Offset(u, r, lineBytes, sets);
    DivisionIs(addr, lineBytes * sets, t, u * lineBytes + r);
  }

  lemma {:induction false} Regroup(t: nat, u: nat, r: nat, lineBytes: nat, sets: nat)
    ensures (t * sets + u) * lineBytes + r == t * (lineBytes * sets) + (u * lineBytes + r)
  {
  }

  lemma {:induction false} Offset(u: nat, r: nat, lineBytes: nat, sets: nat)
    requires r < lineBytes && u < sets
    ensures u * lineBytes + r < lineBytes * sets
  {
    assert (u + 1) * lineBytes <= sets * lineBytes;
  }

  /** The address of a victim lies in the victim's line. */
  lemma {:induction false} VictimAddress(tag: nat, s: nat, lineBytes: nat, sets: nat)
    requires lineBytes > 0
    ensures (tag * (lineBytes * sets) + s * lineBytes) / lineBytes == LineAt(tag, s, sets)
  {
    assert tag * (lineBytes * sets) + s * lineBytes == LineAt(tag, s, sets) * lineBytes;
    DivisionIs(LineAt(tag, s, sets) * lineBytes, lineBytes, LineAt(tag, s, sets), 0);
  }

  // ----- Contents -----

  predicate Shape(c: Sets, ways: nat) {
    |c| > 0 && ways > 0 && forall s :: 0 <= s < |c| ==> |c[s]| == ways
  }

  predicate Matches(l: Line, tag: nat) { l.valid && l.tag == tag }

  predicate UniqueIn(ls: seq<Line>) {
    forall i, j :: 0 <= i < j < |ls| && ls[i].valid && ls[j].valid ==> ls[i].tag != ls[j].tag
  }

  /** No line is held twice. */
  predicate Unique(c: Sets) { forall s :: 0 <= s < |c| ==> UniqueIn(c[s]) }

  predicate HoldsIn(ls: seq<Line>, tag: nat) { exists i :: 0 <= i < |ls| && Matches(ls[i], tag) }

  predicate Holds(c: Sets, n: nat)
    requires |c| > 0
  {
    HoldsIn(c[SetOf(n, |c|)], TagOf(n, |c|))
  }

  ghost function Contents(c: Sets): (r: iset<nat>)
    requires |c| > 0
  {
    iset n: nat | Holds(c, n)
  }

  // ----- Installing -----

  function Install(c: Sets, n: nat, way: nat, dirty: bool): (r: Sets)
    requires |c| > 0 && way < |c[SetOf(n, |c|)]|
  {
    var s := SetOf(n, |c|);
    c[s := c[s][way := Line(TagOf(n, |c|), true, dirty)]]
  }

  /** The line dropped by installing `n` in `way`. */
  function Victim(c: Sets, n: nat, way: nat): (r: Option<nat>)
    requires |c| > 0 && way < |c[SetOf(n, |c|)]|
  {
    var s := SetOf(n, |c|);
    if c[s][way].valid then Some(LineAt(c[s][way].tag, s, |c|)) else None
  }

  lemma {:induction false} InstallInSet(ls: seq<Line>, way: nat, tag: nat, dirty: bool)
    requires UniqueIn(ls) && way < |ls| && !HoldsIn(ls, tag)
    ensures var ls' := ls[way := Line(tag, true, dirty)];
            && UniqueIn(ls') && HoldsIn(ls', tag)
            && (forall t :: t != tag ==> (HoldsIn(ls', t) <==> HoldsIn(ls, t) && !Matches(ls[way], t)))
  {
    var ls' := ls[way := Line(tag, true, dirty)];
    assert Matches(ls'[way], tag);
    forall i | 0 <= i < |ls| && ls[i].valid
      ensures ls[i].tag != tag
    {
      assert Matches(ls[i], ls[i].tag);
    }
    forall t | t != tag
      ensures HoldsIn(ls', t) <==> HoldsIn(ls, t) && !Matches(ls[way], t)
    {
      if HoldsIn(ls', t) {
        var i :| 0 <= i < |ls'| && Matches(ls'[i], t);
        assert Matches(ls[i], t);
      }
      if HoldsIn(ls, t) && !Matches(ls[way], t) {
        var i :| 0 <= i < |ls| && Matches(ls[i], t);
        assert Matches(ls'[i], t);
      }
    }
  }

  /** The set a line maps to changes only for lines of that set. */
  lemma {:induction false} InstallHolds(c: Sets, ways: nat, n: nat, way: nat, dirty: bool, x: nat)
    requires Shape(c, ways) && Unique(c) && way < ways && !Holds(c, n)
    ensures Holds(Install(c, n, way, dirty), x) <==> x == n || (Holds(c, x) && Victim(c, n, way) != Some(x))
  {
    hide HoldsIn;
    var k, s := |c|, SetOf(n, |c|);
    InstallInSet(c[s], way, TagOf(n, k), dirty);
    LineAtOwn(n, k);
    LineAtOwn(x, k);
    LineAtIs(c[s][way].tag, s, k);
  }

  /** After a miss is filled, the cache holds what it held, less the victim, and the new line. */
  lemma {:induction false} InstallIs(c: Sets, ways: nat, n: nat, way: nat, dirty: bool)
    requires Shape(c, ways) && Unique(c) && way < ways && !Holds(c, n)
    ensures Shape(Install(c, n, way, dirty), ways) && Unique(Install(c, n, way, dirty))
    ensures Contents(Install(c, n, way, dirty)) ==
      (match Victim(c, n, way) case None => Contents(c) case Some(v) => Contents(c) - iset{v}) + iset{n}
    ensures Victim(c, n, way).Some? ==> Victim(c, n, way).value in Contents(c) && Victim(c, n, way).value != n
  {
    var s := SetOf(n, |c|);
    InstallInSet(c[s], way, TagOf(n, |c|), dirty);
    LineAtIs(c[s][way].tag, s, |c|);
    assert c[s][way].valid ==> Matches(c[s][way], c[s][way].tag);
    forall x: nat
      ensures Holds(Install(c, n, way, dirty), x) <==> x == n || (Holds(c, x) && Victim(c, n, way) != Some(x))
    {
      InstallHolds(c, ways, n, way, dirty, x);
    }
    hide UniqueIn;
  }

  // ----- Invalidating -----

  function Clear(c: Sets, n: nat, way: nat): (r: Sets)
    requires |c| > 0 && way < |c[SetOf(n, |c|)]|
  {
    var s := SetOf(n, |c|);
    c[s := c[s][way := c[s][way].(valid := false, dirty := false)]]
  }

  lemma {:induction false} ClearInSet(ls: seq<Line>, way: nat, tag: nat)
    requires UniqueIn(ls) && way < |ls| && Matches(ls[way], tag)
    ensures var ls' := ls[way := ls[way].(valid := false, dirty := false)];
            UniqueIn(ls') && (forall t :: HoldsIn(ls', t) <==> HoldsIn(ls, t) && t != tag)
  {
    var ls' := ls[way := ls[way].(valid := false, dirty := false)];
    forall t
      ensures HoldsIn(ls', t) <==> HoldsIn(ls, t) && t != tag
    {
      if HoldsIn(ls', t) {
        var i :| 0 <= i < |ls'| && Matches(ls'[i], t);
        assert Matches(ls[i], t);
      }
      if HoldsIn(ls, t) && t != tag {
        var i :| 0 <= i < |ls| && Matches(ls[i], t);
        assert Matches(ls'[i], t);
      }
    }
  }

  lemma {:induction false} ClearHolds(c: Sets, ways: nat, n: nat, way: nat, x: nat)
    requires Shape(c, ways) && Unique(c) && way < ways && Matches(c[SetOf(n, |c|)][way], TagOf(n, |c|))
    ensures Holds(Clear(c, n, way), x) <==> Holds(c, x) && x != n
  {
    ClearInSet(c[SetOf(n, |c|)], way, TagOf(n, |c|));
    LineAtOwn(n, |c|);
    LineAtOwn(x, |c|);
  }

  lemma {:induction false} ClearIs(c: Sets, ways: nat, n: nat, way: nat)
    requires Shape(c, ways) && Unique(c) && way < ways && Matches(c[SetOf(n, |c|)][way], TagOf(n, |c|))
    ensures Shape(Clear(c, n, way), ways) && Unique(Clear(c, n, way))
    ensures Contents(Clear(c, n, way)) == Contents(c) - iset{n}
  {
    ClearInSet(c[SetOf(n, |c|)], way, TagOf(n, |c|));
    forall x: nat
      ensures Holds(Clear(c, n, way), x) <==> Holds(c, x) && x != n
    {
      ClearHolds(c, ways, n, way, x);
    }
  }

  /** First way from `i` on that holds `tag`, or the number of ways. */
  function WayIn(ls: seq<Line>, tag: nat, i: nat): (w: nat)
    requires i <= |ls|
    ensures i <= w <= |ls| && (w < |ls| ==> Matches(ls[w], tag))
    ensures forall k :: i <= k < w ==> !Matches(ls[k], tag)
    decreases |ls| - i
  {
    if i == |ls| || Matches(ls[i], tag) then i else WayIn(ls, tag, i + 1)
  }

  function WayOf(c: Sets, n: nat): (w: nat)
    requires |c| > 0
    ensures w <= |c[SetOf(n, |c|)]|
    ensures w < |c[SetOf(n, |c|)]| <==> Holds(c, n)
    ensures w < |c[SetOf(n, |c|)]| ==> Matches(c[SetOf(n, |c|)][w], TagOf(n, |c|))
  {
    WayIn(c[SetOf(n, |c|)], TagOf(n, |c|), 0)
  }

  /** `invalidate_line`. */
  function Invalidate(c: Sets, n: nat): (r: Sets)
    requires |c| > 0
  {
    if Holds(c, n) then Clear(c, n, WayOf(c, n)) else c
  }

  lemma {:induction false} InvalidateIs(c: Sets, ways: nat, n: nat)
    requires Shape(c, ways) && Unique(c)
    ensures Shape(Invalidate(c, n), ways) && Unique(Invalidate(c, n))
    ensures Contents(Invalidate(c, n)) == Contents(c) - iset{n}
  {
    if Holds(c, n) {
      ClearIs(c, ways, n, WayOf(c, n));
    }
  }

  /** A write hit marks its line dirty. */
  function Mark(c: Sets, n: nat): (r: Sets)
    requires |c| > 0 && Holds(c, n)
  {
    var s := SetOf(n, |c|);
    var w := WayOf(c, n);
    c[s := c[s][w := c[s][w].(dirty := true)]]
  }

  /** Marking a line dirty changes nothing held. */
  lemma {:induction false} MarkIs(c: Sets, ways: nat, s: nat, way: nat)
    requires Shape(c, ways) && Unique(c) && s < |c| && way < ways
    ensures var c' := c[s := c[s][way := c[s][way].(dirty := true)]];
            Shape(c', ways) && Unique(c') && Contents(c') == Contents(c)
  {
    var c' := c[s := c[s][way := c[s][way].(dirty := true)]];
    forall x: nat
      ensures Holds(c', x) <==> Holds(c, x)
    {
      var ls, ls', t := c[SetOf(x, |c|)], c'[SetOf(x, |c|)], TagOf(x, |c|);
      assert forall i :: 0 <= i < |ls| ==> Matches(ls[i], t) == Matches(ls'[i], t);
    }
    forall k | 0 <= k < |c'|
      ensures UniqueIn(c'[k])
    {
      assert UniqueIn(c[k]);
    }
  }
}
