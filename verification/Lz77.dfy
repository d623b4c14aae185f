/** The LZ77 compressor of the benchmark `lz77_bench.c`, and the decoder its output format implies.

    A literal is one byte; a match is the byte `0x80 | (distance & 0x7F)` followed by a length byte.
    The format has no escape for literals with the top bit set, so the compressor is lossless on
    exactly the inputs whose bytes are all below 0x80 (`RoundTrip`).
 */
module Lz77 {
  import opened Bytes

  const WINDOW_SIZE := 128
  const LOOKAHEAD_BUFFER := 16
  const MIN_MATCH := 3

  predicate SameAt(src: seq<u8>, k: nat, dist: nat) {
    dist <= k < |src| && src[k] == src[k - dist]
  }

  /** The `len` bytes at `pos` repeat what stands `dist` bytes earlier (possibly overlapping). */
  ghost predicate Repeats(src: seq<u8>, pos: nat, dist: nat, len: nat) {
    1 <= dist <= pos && pos + len <= |src| && forall k :: pos <= k < pos + len ==> SameAt(src, k, dist)
  }

  /** `len` is the length of the longest match for `pos` at distance `dist`. */
  ghost predicate LongestAt(src: seq<u8>, pos: nat, dist: nat, len: nat) {
    && len <= LOOKAHEAD_BUFFER
    && Repeats(src, pos, dist, len)
    && (len == LOOKAHEAD_BUFFER || pos + len == |src| || !SameAt(src, pos + len, dist))
  }

  /** The pair found by the window search: the longest match, and among the longest the farthest
      one. Distance 0 stands for "no match". */
  ghost predicate BestMatch(src: seq<u8>, pos: nat, len: nat, dist: nat) {
    && (len == 0 <==> dist == 0)
    && (len > 0 ==> dist <= WINDOW_SIZE && LongestAt(src, pos, dist, len))
    && (forall d: nat, m: nat :: 1 <= d <= WINDOW_SIZE && LongestAt(src, pos, d, m) ==>
                                   if len > 0 && d > dist then m < len else m <= len)
  }

  lemma {:induction false} LongestIsUnique(src: seq<u8>, pos: nat, dist: nat, m: nat, n: nat)
    requires LongestAt(src, pos, dist, m) && LongestAt(src, pos, dist, n)
    ensures m == n
  {
  }

  /** Length of the match that starts at `i`; the inner `while` of the search. */
  method MatchLength(src: seq<u8>, i: nat, pos: nat) returns (len: nat)
    requires i < pos < |src|
    ensures LongestAt(src, pos, pos - i, len)
  {
    len := 0;
    while len < LOOKAHEAD_BUFFER && pos + len < |src| && src[i + len] == src[pos + len]
      invariant len <= LOOKAHEAD_BUFFER && Repeats(src, pos, pos - i, len)
      decreases |src| - len
    {
      len := len + 1;
    }
  }

  method FindBestMatch(src: seq<u8>, pos: nat) returns (len: nat, dist: nat)
    requires pos < |src|
    ensures BestMatch(src, pos, len, dist)
  {
    len, dist := 0, 0;
    var start := if pos < WINDOW_SIZE then 0 else pos - WINDOW_SIZE;
    var i := start;
    while i < pos
      invariant start <= i <= pos
      invariant len == 0 <==> dist == 0
      invariant len > 0 ==> pos - i < dist <= pos - start && LongestAt(src, pos, dist, len)
      invariant forall d: nat, m: nat :: pos - i < d <= pos - start && LongestAt(src, pos, d, m) ==>
                                           if len > 0 && d > dist then m < len else m <= len
    {
      var n := MatchLength(src, i, pos);
      ghost var d: nat := pos - i;
      forall m: nat | LongestAt(src, pos, d, m) ensures m == n {
        LongestIsUnique(src, pos, d, m, n);
      }
      if n > len {
        len, dist := n, pos - i;
      }
      i := i + 1;
    }
  }

  // ----- Tokens -----

  /** The token written at one position: a literal, or a match of at least three bytes. */
  datatype Token = Literal(b: u8) | Match(dist: nat, len: nat)

  ghost predicate IsTokenAt(src: seq<u8>, pos: nat, t: Token) {
    pos < |src| &&
    match t
    case Literal(b) => b == src[pos]
    case Match(dist, len) =>
      && MIN_MATCH <= len <= LOOKAHEAD_BUFFER
      && dist <= WINDOW_SIZE && Repeats(src, pos, dist, len)
  }

  function Width(t: Token): (n: nat) {
    if t.Literal? then 1 else t.len
  }

  function Encode(t: Token): (bs: seq<u8>)
    requires t.Match? ==> t.len < 256
    ensures 1 <= |bs| <= 2
    ensures t.Match? ==> |bs| == 2 && bs[0] >= 0x80
  {
    match t
    case Literal(b) => [b]
    case Match(dist, len) => [0x80 + dist % 0x80, len]
  }

  /** `ts` covers `src[pos..]` from left to right. */
  ghost predicate Covers(src: seq<u8>, pos: nat, ts: seq<Token>)
    decreases |ts|
  {
    if ts == [] then pos == |src|
    else IsTokenAt(src, pos, ts[0]) && Covers(src, pos + Width(ts[0]), ts[1..])
  }

  ghost predicate Encodable(ts: seq<Token>) {
    forall t :: t in ts && t.Match? ==> t.len < 256
  }

  function EncodeAll(ts: seq<Token>): (bs: seq<u8>)
    requires Encodable(ts)
  {
    if ts == [] then [] else Encode(ts[0]) + EncodeAll(ts[1..])
  }

  // ----- Decoder -----

  /** Byte-by-byte copy, so that a distance shorter than the length repeats what it has just written. */
  function CopyBack(out: seq<u8>, dist: nat, len: nat): (r: seq<u8>)
    requires 1 <= dist <= |out|
    ensures |r| == |out| + len && out <= r
    decreases len
  {
    if len == 0 then out
    else
      var next := out + [out[|out| - dist]];
      assert out <= next <= CopyBack(next, dist, len - 1);
      CopyBack(next, dist, len - 1)
  }

  lemma {:induction false} CopyBackAt(out: seq<u8>, dist: nat, len: nat, k: nat)
    requires 1 <= dist <= |out| <= k < |out| + len
    ensures CopyBack(out, dist, len)[k] == CopyBack(out, dist, len)[k - dist]
    decreases len
  {
    var next := out + [out[|out| - dist]];
    if k == |out| {
      assert next[k] == next[k - dist];
    } else {
      CopyBackAt(next, dist, len - 1, k);
    }
  }

  /** Decodes `code` after `out`. A distance field of 0 stands for 128. */
  function Decode(code: seq<u8>, out: seq<u8>): (r: Option<seq<u8>>)
    ensures r.Some? ==> out <= r.value
    decreases |code|
  {
    if code == [] then Some(out)
    else if code[0] < 0x80 then
      var r := Decode(code[1..], out + [code[0]]);
      assert r.Some? ==> out <= out + [code[0]] <= r.value;
      r
    else if |code| == 1 then None
    else
      var dist := if code[0] == 0x80 then 128 else code[0] - 0x80;
      var len := code[1];
      if dist > |out| || len < MIN_MATCH || len > LOOKAHEAD_BUFFER then None
      else
        var next := CopyBack(out, dist, len);
        var r := Decode(code[2..], next);
        assert r.Some? ==> out <= next <= r.value;
        r
  }

  // ----- Losslessness -----

  ghost predicate Ascii(s: seq<u8>) {
    forall k :: 0 <= k < |s| ==> s[k] < 0x80
  }

  lemma {:induction false} CopyReproduces(src: seq<u8>, pos: nat, dist: nat, len: nat)
    requires Repeats(src, pos, dist, len)
    ensures CopyBack(src[..pos], dist, len) == src[..pos + len]
  {
    var r := CopyBack(src[..pos], dist, len);
    var k := pos;
    while k < pos + len
      invariant pos <= k <= pos + len
      invariant r[..k] == src[..k]
    {
      assert SameAt(src, k, dist);
      CopyBackAt(src[..pos], dist, len, k);
      assert r[k - dist] == r[..k][k - dist];
      k := k + 1;
    }
    assert r[..pos + len] == r;
  }

  lemma {:induction false} DecodeMatch(out: seq<u8>, dist: nat, len: nat, rest: seq<u8>)
    requires 1 <= dist <= WINDOW_SIZE && dist <= |out| && MIN_MATCH <= len <= LOOKAHEAD_BUFFER
    ensures Decode(Encode(Match(dist, len)) + rest, out) == Decode(rest, CopyBack(out, dist, len))
  {
    var code := Encode(Match(dist, len)) + rest;
    assert code[0] == 0x80 + dist % 0x80 && code[1] == len && code[2..] == rest;
    assert dist == if code[0] == 0x80 then 128 else code[0] - 0x80;
  }

  lemma {:induction false} DecodeLiteral(out: seq<u8>, b: u8, rest: seq<u8>)
    requires b < 0x80
    ensures Decode([b] + rest, out) == Decode(rest, out + [b])
  {
    assert ([b] + rest)[1..] == rest;
  }

  /** A step whose literal, if it is one, is below 0x80 is undone by the decoder. */
  lemma {:induction false} DecodeStep(src: seq<u8>, pos: nat, t: Token, rest: seq<u8>)
    requires IsTokenAt(src, pos, t) && (t.Literal? ==> t.b < 0x80)
    ensures Decode(Encode(t) + rest, src[..pos]) == Decode(rest, src[..pos + Width(t)])
  {
    if t.Literal? {
      DecodeLiteral(src[..pos], t.b, rest);
      assert src[..pos] + [src[pos]] == src[..pos + 1];
    } else {
      DecodeMatch(src[..pos], t.dist, t.len, rest);
      CopyReproduces(src, pos, t.dist, t.len);
    }
  }

  lemma {:induction false} AsciiDecodes(src: seq<u8>, pos: nat, ts: seq<Token>)
    requires pos <= |src| && Covers(src, pos, ts) && Encodable(ts) && Ascii(src)
    ensures Decode(EncodeAll(ts), src[..pos]) == Some(src)
    decreases |ts|
  {
    if ts == [] {
      assert src[..pos] == src;
    } else {
      DecodeStep(src, pos, ts[0], EncodeAll(ts[1..]));
      AsciiDecodes(src, pos + Width(ts[0]), ts[1..]);
    }
  }

  /** A match only repeats earlier bytes, so it never covers the first byte with the top bit set. */
  lemma {:induction false} StepStaysAscii(src: seq<u8>, pos: nat, t: Token)
    requires IsTokenAt(src, pos, t) && Ascii(src[..pos]) && (t.Literal? ==> t.b < 0x80)
    ensures Ascii(src[..pos + Width(t)])
  {
    var k := pos;
    while t.Match? && k < pos + t.len
      invariant t.Match? ==> pos <= k <= pos + t.len && Ascii(src[..k])
    {
      assert SameAt(src, k, t.dist) && src[k - t.dist] == src[..k][k - t.dist];
      k := k + 1;
    }
  }

  /** The decoder takes a literal with the top bit set for a match and copies an earlier byte, which
      is below 0x80. */
  lemma {:induction false} HighLiteralIsMisread(src: seq<u8>, pos: nat, code: seq<u8>)
    requires pos < |src| && Ascii(src[..pos]) && src[pos] >= 0x80
    requires |code| > 0 && code[0] == src[pos]
    ensures Decode(code, src[..pos]) != Some(src)
  {
    var out := src[..pos];
    var dist := if code[0] == 0x80 then 128 else code[0] - 0x80;
    if |code| > 1 && dist <= pos && MIN_MATCH <= code[1] <= LOOKAHEAD_BUFFER {
      var next := CopyBack(out, dist, code[1]);
      CopyBackAt(out, dist, code[1], pos);
      assert next[pos - dist] == out[pos - dist];
      assert Decode(code, out) == Decode(code[2..], next);
    }
  }

  lemma {:induction false} NonAsciiIsLost(src: seq<u8>, pos: nat, ts: seq<Token>)
    requires pos <= |src| && Covers(src, pos, ts) && Encodable(ts)
    requires Ascii(src[..pos]) && !Ascii(src)
    ensures Decode(EncodeAll(ts), src[..pos]) != Some(src)
    decreases |ts|
  {
    hide Repeats;
    hide Decode;
    if ts == [] {
    } else if ts[0].Literal? && ts[0].b >= 0x80 {
      HighLiteralIsMisread(src, pos, EncodeAll(ts));
    } else {
      var next := pos + Width(ts[0]);
      StepStaysAscii(src, pos, ts[0]);
      DecodeStep(src, pos, ts[0], EncodeAll(ts[1..]));
      NonAsciiIsLost(src, next, ts[1..]);
    }
  }

  lemma {:induction false} NeverExpands(src: seq<u8>, pos: nat, ts: seq<Token>)
    requires pos <= |src| && Covers(src, pos, ts) && Encodable(ts)
    ensures |EncodeAll(ts)| <= |src| - pos
    decreases |ts|
  {
    if ts != [] {
      NeverExpands(src, pos + Width(ts[0]), ts[1..]);
    }
  }

  /** Any covering of the input by tokens is lossless exactly on inputs below 0x80. */
  lemma {:induction false} RoundTrip(src: seq<u8>, ts: seq<Token>)
    requires Covers(src, 0, ts) && Encodable(ts)
    ensures Decode(EncodeAll(ts), []) == Some(src) <==> Ascii(src)
    ensures |EncodeAll(ts)| <= |src|
  {
    assert src[..0] == [];
    if Ascii(src) {
      AsciiDecodes(src, 0, ts);
    } else {
      NonAsciiIsLost(src, 0, ts);
    }
    NeverExpands(src, 0, ts);
  }

  // ----- The compressor -----

  /** `t` is what the greedy rule writes at `pos`: the best match of the window if it has at least
      three bytes, else the literal. */
  ghost predicate GreedyAt(src: seq<u8>, pos: nat, t: Token) {
    pos < |src| && exists len: nat, dist: nat ::
      BestMatch(src, pos, len, dist) && t == if len >= MIN_MATCH then Match(dist, len) else Literal(src[pos])
  }

  /** `ts` are the greedy tokens of `src[start..pos]`. */
  ghost predicate GreedyTo(src: seq<u8>, start: nat, ts: seq<Token>, pos: nat)
    decreases |ts|
  {
    if ts == [] then pos == start
    else GreedyAt(src, start, ts[0]) && GreedyTo(src, start + Width(ts[0]), ts[1..], pos)
  }

  lemma {:induction false} GreedySnoc(src: seq<u8>, start: nat, ts: seq<Token>, pos: nat, t: Token)
    requires GreedyTo(src, start, ts, pos) && GreedyAt(src, pos, t)
    ensures GreedyTo(src, start, ts + [t], pos + Width(t))
    decreases |ts|
  {
    if ts != [] {
      assert (ts + [t])[1..] == ts[1..] + [t];
      GreedySnoc(src, start + Width(ts[0]), ts[1..], pos, t);
    }
  }

  lemma {:induction false} GreedyCovers(src: seq<u8>, start: nat, ts: seq<Token>)
    requires GreedyTo(src, start, ts, |src|)
    ensures Covers(src, start, ts)
    decreases |ts|
  {
    if ts != [] {
      var len: nat, dist: nat :| BestMatch(src, start, len, dist)
        && ts[0] == if len >= MIN_MATCH then Match(dist, len) else Literal(src[start]);
      assert IsTokenAt(src, start, ts[0]);
      GreedyCovers(src, start + Width(ts[0]), ts[1..]);
    }
  }

  lemma {:induction false} EncodeSnoc(ts: seq<Token>, t: Token)
    requires Encodable(ts) && Encodable([t])
    ensures Encodable(ts + [t]) && EncodeAll(ts + [t]) == EncodeAll(ts) + Encode(t)
    decreases |ts|
  {
    assert t in [t];
    if ts == [] {
      assert ts + [t] == [t] && [t][1..] == [];
    } else {
      assert (ts + [t])[1..] == ts[1..] + [t];
      EncodeSnoc(ts[1..], t);
    }
  }

  // ----- No decoder at all -----

  lemma {:induction false} GreedyTokenIsUnique(src: seq<u8>, pos: nat, t: Token, u: Token)
    requires GreedyAt(src, pos, t) && GreedyAt(src, pos, u)
    ensures t == u && Width(t) > 0
  {
    hide LongestAt;
  }

  /** The greedy rule leaves no choice, so the output is a function of the input. */
  lemma {:induction false} GreedyIsUnique(src: seq<u8>, start: nat, ts: seq<Token>, us: seq<Token>)
    requires GreedyTo(src, start, ts, |src|) && GreedyTo(src, start, us, |src|)
    ensures ts == us
    decreases |ts|
  {
    if ts != [] && us != [] {
      GreedyTokenIsUnique(src, start, ts[0], us[0]);
      GreedyIsUnique(src, start + Width(ts[0]), ts[1..], us[1..]);
    }
  }

  /** A byte that occurs nowhere before is written as a literal. */
  lemma {:induction false} NewByteIsLiteral(src: seq<u8>, pos: nat)
    requires pos < |src| && forall k :: 0 <= k < pos ==> src[k] != src[pos]
    ensures GreedyAt(src, pos, Literal(src[pos]))
  {
    forall d: nat, m: nat | 1 <= d <= WINDOW_SIZE && LongestAt(src, pos, d, m)
      ensures m == 0
    {
      assert m > 0 ==> SameAt(src, pos, d);
    }
    assert BestMatch(src, pos, 0, 0);
  }

  /** Three different bytes repeated once: the repetition is written as a match. */
  lemma {:induction false} RepetitionIsMatch(src: seq<u8>)
    requires |src| == 6 && src[0] != src[1] && src[1] != src[2] && src[0] != src[2]
    requires src[3] == src[0] && src[4] == src[1] && src[5] == src[2]
    ensures GreedyAt(src, 3, Match(3, 3))
  {
    assert LongestAt(src, 3, 3, 3);
    forall d: nat, m: nat | 1 <= d <= WINDOW_SIZE && LongestAt(src, 3, d, m)
      ensures m <= 3 && d <= 3
    {
    }
    assert BestMatch(src, 3, 3, 3);
  }

  lemma {:induction false} AllNew(src: seq<u8>, start: nat)
    requires start <= |src| && forall i, j :: 0 <= i < j < |src| ==> src[i] != src[j]
    ensures GreedyTo(src, start, Literals(src[start..]), |src|)
    decreases |src| - start
  {
    hide GreedyAt;
    if start < |src| {
      NewByteIsLiteral(src, start);
      AllNew(src, start + 1);
      assert Literals(src[start..])[1..] == Literals(src[start + 1..]);
    }
  }

  function Literals(bs: seq<u8>): (ts: seq<Token>)
    ensures |ts| == |bs| && forall i :: 0 <= i < |bs| ==> ts[i] == Literal(bs[i])
    ensures Encodable(ts)
  {
    seq(|bs|, i requires 0 <= i < |bs| => Literal(bs[i]))
  }

  lemma {:induction false} LiteralsEncode(bs: seq<u8>)
    ensures EncodeAll(Literals(bs)) == bs
  {
    if bs != [] {
      assert Literals(bs)[1..] == Literals(bs[1..]);
      LiteralsEncode(bs[1..]);
    }
  }

  /** Two inputs with the same output: three different bytes twice, and the three followed by the code of the match. */
  lemma {:induction false} OutputsCollide(a: u8, b: u8, c: u8)
    requires a < 0x80 && b < 0x80 && c < 0x80 && a != b && b != c && a != c && a != 3 && b != 3 && c != 3
    ensures var ts, us := Literals([a, b, c]) + [Match(3, 3)], Literals([a, b, c, 0x83, 3]);
            && GreedyTo([a, b, c, a, b, c], 0, ts, 6) && GreedyTo([a, b, c, 0x83, 3], 0, us, 5)
            && Encodable(ts) && EncodeAll(ts) == EncodeAll(us)
  {
    hide GreedyAt;
    var src := [a, b, c, a, b, c];
    AllNew([a, b, c, 0x83, 3], 0);
    assert [a, b, c, 0x83, 3][0..] == [a, b, c, 0x83, 3];
    NewByteIsLiteral(src, 0);
    NewByteIsLiteral(src, 1);
    NewByteIsLiteral(src, 2);
    RepetitionIsMatch(src);
    EncodeSnoc(Literals([a, b, c]), Match(3, 3));
    LiteralsEncode([a, b, c]);
    LiteralsEncode([a, b, c, 0x83, 3]);
    ThreeThenMatch(src, a, b, c);
  }

  lemma {:induction false} ThreeThenMatch(src: seq<u8>, a: u8, b: u8, c: u8)
    requires GreedyAt(src, 0, Literal(a)) && GreedyAt(src, 1, Literal(b)) && GreedyAt(src, 2, Literal(c)) && GreedyAt(src, 3, Match(3, 3))
    ensures GreedyTo(src, 0, Literals([a, b, c]) + [Match(3, 3)], 6)
  {
    hide GreedyAt;
    GreedySnoc(src, 0, [], 0, Literal(a));
    GreedySnoc(src, 0, [Literal(a)], 1, Literal(b));
    GreedySnoc(src, 0, [Literal(a), Literal(b)], 2, Literal(c));
    assert Literals([a, b, c]) == [Literal(a), Literal(b), Literal(c)];
    GreedySnoc(src, 0, Literals([a, b, c]), 3, Match(3, 3));
  }

  /** Whatever function is taken for a decoder, it fails on the output for some input. */
  lemma {:induction false} NoDecoder(decode: seq<u8> -> seq<u8>) returns (src: seq<u8>, ts: seq<Token>)
    ensures GreedyTo(src, 0, ts, |src|) && Encodable(ts) && decode(EncodeAll(ts)) != src
  {
    OutputsCollide(97, 98, 99);
    src, ts := [97, 98, 99, 97, 98, 99], Literals([97, 98, 99]) + [Match(3, 3)];
    if decode(EncodeAll(ts)) == src {
      src, ts := [97, 98, 99, 0x83, 3], Literals([97, 98, 99, 0x83, 3]);
    }
  }

  /** Writes one token at `dst[n..]`. */
  method Emit(t: Token, dst: array<u8>, n: nat) returns (next: nat)
    requires t.Match? ==> t.len < 256
    requires n + |Encode(t)| <= dst.Length
    modifies dst
    ensures next == n + |Encode(t)|
    ensures dst[..next] == old(dst[..n]) + Encode(t)
    ensures dst[next..] == old(dst[next..])
  {
    if t.Match? {
      dst[n] := 0x80 + t.dist % 0x80;
      dst[n + 1] := t.len;
      next := n + 2;
    } else {
      dst[n] := t.b;
      next := n + 1;
    }
  }

  /** Match or literal at `pos`: one round of the outer loop. */
  method NextToken(src: seq<u8>, pos: nat) returns (t: Token)
    requires pos < |src|
    ensures GreedyAt(src, pos, t) && pos + Width(t) <= |src| && |Encode(t)| <= Width(t)
    ensures t.Match? ==> t.len <= LOOKAHEAD_BUFFER
  {
    var len, dist := FindBestMatch(src, pos);
    t := if len >= MIN_MATCH then Match(dist, len) else Literal(src[pos]);
  }

  /** The whole compressor: what is written is decodable back to the input exactly when every input
      byte is below 0x80, it never grows, and the tokens are the greedy ones. */
  method Compress(src: seq<u8>, dst: array<u8>) returns (n: nat, ghost ts: seq<Token>)
    requires |src| <= dst.Length
    modifies dst
    ensures n <= |src|
    ensures Decode(dst[..n], []) == Some(src) <==> Ascii(src)
    ensures GreedyTo(src, 0, ts, |src|) && Encodable(ts) && dst[..n] == EncodeAll(ts)
    ensures dst[n..] == old(dst[n..])
  {
    hide Ascii;
    hide GreedyAt;
    n := 0;
    var pos := 0;
    ts := [];
    while pos < |src|
      invariant n <= pos <= |src|
      invariant GreedyTo(src, 0, ts, pos) && Encodable(ts) && dst[..n] == EncodeAll(ts)
      invariant dst[n..] == old(dst[n..])
      decreases |src| - pos
    {
      var t := NextToken(src, pos);
      GreedySnoc(src, 0, ts, pos, t);
      EncodeSnoc(ts, t);
      n := Emit(t, dst, n);
      pos := pos + Width(t);
      ts := ts + [t];
    }
    GreedyCovers(src, 0, ts);
    RoundTrip(src, ts);
  }
}
