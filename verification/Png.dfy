/** corpus/falsifying-class/libpng-iccp/mutate-class.py: taking a PNG apart into chunks,
    putting it together again, and mutating it in between (section 5.3 of the PNG
    Specification, Second Edition). */
module Png {
  import opened Text
  import opened Bytes

  type Checksum = seq<Byte> -> nat

  const SIG: seq<Byte> := [0x89, 0x50, 0x4E, 0x47, 0x0D, 0x0A, 0x1A, 0x0A]
  const IEND: seq<Byte> := [0x49, 0x45, 0x4E, 0x44]

  datatype Chunk = Chunk(typ: seq<Byte>, data: seq<Byte>, crc: nat, offset: nat)

  /** Length, type, data and checksum. */
  function Size(c: Chunk): nat { 12 + |c.data| }

  function TotalSize(cs: seq<Chunk>): nat { if cs == [] then 0 else Size(cs[0]) + TotalSize(cs[1..]) }

  /* ---------- taking apart ---------- */

  /** There is a whole chunk at `i`. */
  predicate WholeAt(b: seq<Byte>, i: nat) {
    i + 8 <= |b| && i + 8 + BigEndian(b[i..i + 4]) + 4 <= |b|
  }

  function ChunkAt(b: seq<Byte>, i: nat): (c: Chunk)
    requires WholeAt(b, i)
    ensures |c.typ| == 4 && |c.data| < TWO32 && i + Size(c) <= |b|
  {
    var n := BigEndian(b[i..i + 4]);
    Chunk(b[i + 4..i + 8], b[i + 8..i + 8 + n], BigEndian(b[i + 8 + n..i + 12 + n]), i)
  }

  /** The chunks from `i` on, up to the first that is cut short, and not past an IEND. */
  function Parse(b: seq<Byte>, i: nat): seq<Chunk>
    decreases |b| - i, 1
  {
    if WholeAt(b, i) then [ChunkAt(b, i)] + After(b, ChunkAt(b, i), i) else []
  }

  /** What follows a chunk at `i`. */
  function After(b: seq<Byte>, c: Chunk, i: nat): seq<Chunk>
    requires i + Size(c) <= |b|
    decreases |b| - i, 0
  {
    if c.typ == IEND then [] else Parse(b, i + Size(c))
  }

  lemma ParseStep(b: seq<Byte>, i: nat, c: Chunk)
    requires WholeAt(b, i) && c == ChunkAt(b, i)
    ensures Parse(b, i) == [c] + After(b, c, i)
  {
  }

  /** There is room for a whole chunk from `i` on: length, type, that much data, checksum. */
  predicate RoomAt(b: seq<Byte>, i: nat) { i + 8 <= |b| && i + 12 + BigEndian(b[i..i + 4]) <= |b| }

  /** The chunk is what stands at its offset: length, type, data and checksum, in that order. */
  predicate StandsAt(b: seq<Byte>, c: Chunk) {
    var i, n := c.offset, |c.data|;
    && i + 12 + n <= |b| && BigEndian(b[i..i + 4]) == n
    && c.typ == b[i + 4..i + 8] && c.data == b[i + 8..i + 8 + n] && c.crc == BigEndian(b[i + 8 + n..i + 12 + n])
  }

  predicate IsEnd(c: Chunk) { c.typ == [0x49, 0x45, 0x4E, 0x44] }

  /** `cs` are the chunks from `i` on: each is what stands there, where the one before it ends,
      none comes after an IEND, and none is left out. */
  ghost predicate AreChunks(b: seq<Byte>, i: nat, cs: seq<Chunk>) {
    && (forall c :: c in cs ==> StandsAt(b, c)) && EndToEnd(cs, i)
    && (forall k :: 0 <= k < |cs| - 1 ==> !IsEnd(cs[k]))
    && ReachesEnd(b, i, cs)
  }

  /** An IEND comes last, or there is no room for another chunk. */
  predicate ReachesEnd(b: seq<Byte>, i: nat, cs: seq<Chunk>) {
    (cs != [] && IsEnd(cs[|cs| - 1])) || !RoomAt(b, i + TotalSize(cs))
  }

  lemma ChunkStands(b: seq<Byte>, i: nat)
    requires WholeAt(b, i)
    ensures StandsAt(b, ChunkAt(b, i))
  {
  }

  lemma {:induction false} ParsedStand(b: seq<Byte>, i: nat, c: Chunk)
    requires c in Parse(b, i)
    ensures StandsAt(b, c)
    decreases |b| - i
  {
    var first := ChunkAt(b, i);
    ParseStep(b, i, first);
    ChunkStands(b, i);
    if c != first {
      ParsedStand(b, i + Size(first), c);
    }
  }

  lemma {:induction false} ParsedReachesEnd(b: seq<Byte>, i: nat)
    ensures ReachesEnd(b, i, Parse(b, i))
    decreases |b| - i
  {
    if WholeAt(b, i) {
      var c := ChunkAt(b, i);
      var rest := After(b, c, i);
      ParseStep(b, i, c);
      assert ([c] + rest)[1..] == rest && TotalSize([c] + rest) == Size(c) + TotalSize(rest);
      if c.typ != IEND {
        ParsedReachesEnd(b, i + Size(c));
        assert rest != [] ==> ([c] + rest)[|rest|] == rest[|rest| - 1];
      }
    }
  }

  lemma ParsedAreChunks(b: seq<Byte>, i: nat)
    ensures AreChunks(b, i, Parse(b, i))
  {
    forall c | c in Parse(b, i) ensures StandsAt(b, c) {
      ParsedStand(b, i, c);
    }
    ParseOffsets(b, i);
    ParseShape(b, i);
    ParsedReachesEnd(b, i);
  }

  /** The same, onto chunks already read. */
  function ParseOnto(done: seq<Chunk>, b: seq<Byte>, i: nat): seq<Chunk>
    decreases |b| - i
  {
    if !WholeAt(b, i) then done
    else
      var c := ChunkAt(b, i);
      if c.typ == IEND then done + [c] else ParseOnto(done + [c], b, i + Size(c))
  }

  lemma Reassociate(a: seq<Chunk>, b: seq<Chunk>, c: seq<Chunk>)
    ensures a + (b + c) == (a + b) + c
    ensures a + [] == a
  {
  }

  lemma {:induction false} OntoIsParse(done: seq<Chunk>, b: seq<Byte>, i: nat)
    ensures ParseOnto(done, b, i) == done + Parse(b, i)
    decreases |b| - i
  {
    if WholeAt(b, i) {
      var c := ChunkAt(b, i);
      ParseStep(b, i, c);
      Reassociate(done, [c], After(b, c, i));
      if c.typ != IEND {
        OntoIsParse(done + [c], b, i + Size(c));
      }
    }
  }

  /** The chunk at `i`, read as the loop reads it. */
  method ReadChunk(b: seq<Byte>, i: nat) returns (r: Option<Chunk>)
    requires i + 8 <= |b|
    ensures r.Some? <==> WholeAt(b, i)
    ensures r.Some? ==> r.value == ChunkAt(b, i)
  {
    var n := BigEndian(b[i..i + 4]);
    var typ := b[i + 4..i + 8];
    if i + 8 + n + 4 > |b| {
      return None;
    }
    r := Some(Chunk(typ, b[i + 8..i + 8 + n], BigEndian(b[i + 8 + n..i + 12 + n]), i));
  }

  method Chunks(b: seq<Byte>) returns (out: seq<Chunk>)
    ensures out == Parse(b, |SIG|)
    ensures AreChunks(b, 8, out)
  {
    ParsedAreChunks(b, |SIG|);
    OntoIsParse([], b, |SIG|);
    assert [] + Parse(b, |SIG|) == Parse(b, |SIG|);
    out := [];
    var i := |SIG|;
    while i + 8 <= |b|
      invariant ParseOnto(out, b, i) == ParseOnto([], b, |SIG|)
      decreases |b| - i
    {
      var c := ReadChunk(b, i);
      if c.None? {
        return;
      }
      out := out + [c.value];
      if c.value.typ == IEND {
        return;
      }
      i := i + Size(c.value);
    }
  }

  /* ---------- putting together ---------- */

  predicate WellFormed(c: Chunk) { |c.typ| == 4 && |c.data| < TWO32 }

  predicate AllWellFormed(cs: seq<Chunk>) { forall c :: c in cs ==> WellFormed(c) }

  /** The checksum of type and data, as a 32-bit number. */
  function Sum(crc32: Checksum, c: Chunk): nat { crc32(c.typ + c.data) % TWO32 }

  function Encode(crc32: Checksum, c: Chunk): seq<Byte>
    requires WellFormed(c)
  {
    BytesOf(|c.data|) + c.typ + c.data + BytesOf(Sum(crc32, c))
  }

  function EncodeAll(crc32: Checksum, cs: seq<Chunk>): (b: seq<Byte>)
    requires AllWellFormed(cs)
    ensures |b| == TotalSize(cs)
  {
    if cs == [] then [] else Encode(crc32, cs[0]) + EncodeAll(crc32, cs[1..])
  }

  lemma {:induction false} EncodeAppend(crc32: Checksum, cs: seq<Chunk>, c: Chunk)
    requires AllWellFormed(cs) && WellFormed(c)
    ensures AllWellFormed(cs + [c]) && EncodeAll(crc32, cs + [c]) == EncodeAll(crc32, cs) + Encode(crc32, c)
  {
    if cs == [] {
      assert (cs + [c])[1..] == [];
    } else {
      assert (cs + [c])[1..] == cs[1..] + [c];
      EncodeAppend(crc32, cs[1..], c);
    }
  }

  lemma Regroup(sig: seq<Byte>, before: seq<Byte>, length: seq<Byte>, typ: seq<Byte>, data: seq<Byte>, sum: seq<Byte>)
    ensures sig + before + (length + typ + data) + sum == sig + (before + (length + typ + data + sum))
  {
  }

  method Rebuild(crc32: Checksum, cs: seq<Chunk>) returns (b: seq<Byte>)
    requires AllWellFormed(cs)
    ensures b == SIG + EncodeAll(crc32, cs)
    ensures [0x89, 0x50, 0x4E, 0x47, 0x0D, 0x0A, 0x1A, 0x0A] <= b
  {
    b := SIG;
    for i := 0 to |cs|
      invariant b == SIG + EncodeAll(crc32, cs[..i])
    {
      assert cs[..i + 1] == cs[..i] + [cs[i]];
      EncodeAppend(crc32, cs[..i], cs[i]);
      Regroup(SIG, EncodeAll(crc32, cs[..i]), BytesOf(|cs[i].data|), cs[i].typ, cs[i].data, BytesOf(Sum(crc32, cs[i])));
      b := b + (BytesOf(|cs[i].data|) + cs[i].typ + cs[i].data);
      b := b + BytesOf(Sum(crc32, cs[i]));
    }
    assert cs[..|cs|] == cs;
  }

  /* ---------- apart again ---------- */

  /** The chunks as they come back: checksums recomputed, offsets counted from `i`. */
  function Restamp(crc32: Checksum, cs: seq<Chunk>, i: nat): seq<Chunk> {
    if cs == [] then []
    else [Stamped(crc32, cs[0], i)] + Restamp(crc32, cs[1..], i + Size(cs[0]))
  }

  /** How many chunks there are up to and including the first IEND. */
  function Kept(cs: seq<Chunk>): (n: nat)
    ensures n <= |cs|
  {
    if cs == [] then 0 else if cs[0].typ == IEND then 1 else 1 + Kept(cs[1..])
  }

  /** What the parser meets, chunk by chunk. */
  function Met(crc32: Checksum, cs: seq<Chunk>, i: nat): seq<Chunk> {
    if cs == [] then []
    else [Stamped(crc32, cs[0], i)] + if cs[0].typ == IEND then [] else Met(crc32, cs[1..], i + Size(cs[0]))
  }

  /** IEND occurs at most once, and last. */
  predicate EndsProperly(cs: seq<Chunk>) { forall k :: 0 <= k < |cs| - 1 ==> cs[k].typ != IEND }

  function Stamped(crc32: Checksum, c: Chunk, i: nat): Chunk { Chunk(c.typ, c.data, Sum(crc32, c), i) }

  /** The chunk lies encoded at `i`. */
  predicate EncodedAt(crc32: Checksum, b: seq<Byte>, i: nat, c: Chunk) {
    WellFormed(c) && i + Size(c) <= |b| && b[i..i + Size(c)] == Encode(crc32, c)
  }

  lemma EncodedIsWhole(crc32: Checksum, b: seq<Byte>, i: nat, c: Chunk)
    requires EncodedAt(crc32, b, i, c)
    ensures WholeAt(b, i) && ChunkAt(b, i) == Stamped(crc32, c, i)
  {
    var n := |c.data|;
    Fields(BytesOf(n), c.typ, c.data, BytesOf(Sum(crc32, c)));
    Within(b, i, i + Size(c), 0, 4);
    Within(b, i, i + Size(c), 4, 8);
    Within(b, i, i + Size(c), 8, 8 + n);
    Within(b, i, i + Size(c), 8 + n, 12 + n);
    BigEndianOfBytes(n);
    BigEndianOfBytes(Sum(crc32, c));
  }

  lemma Fields(length: seq<Byte>, typ: seq<Byte>, data: seq<Byte>, sum: seq<Byte>)
    requires |length| == |typ| == |sum| == 4
    ensures var e, n := length + typ + data + sum, |data|;
            e[0..4] == length && e[4..8] == typ && e[8..8 + n] == data && e[8 + n..12 + n] == sum
  {
  }

  lemma Within(b: seq<Byte>, i: nat, k: nat, lo: nat, hi: nat)
    requires i <= k <= |b| && lo <= hi <= k - i
    ensures b[i..k][lo..hi] == b[i + lo..i + hi]
  {
    assert forall x :: 0 <= x < hi - lo ==> b[i..k][lo..hi][x] == b[i + lo..i + hi][x];
  }

  lemma EncodedHead(crc32: Checksum, b: seq<Byte>, i: nat, cs: seq<Chunk>)
    requires AllWellFormed(cs) && cs != [] && i <= |b| && b[i..] == EncodeAll(crc32, cs)
    ensures EncodedAt(crc32, b, i, cs[0]) && b[i + Size(cs[0])..] == EncodeAll(crc32, cs[1..])
  {
    CutFirst(b, i, Encode(crc32, cs[0]), EncodeAll(crc32, cs[1..]));
  }

  lemma CutFirst(b: seq<Byte>, i: nat, first: seq<Byte>, rest: seq<Byte>)
    requires i <= |b| && b[i..] == first + rest
    ensures i + |first| <= |b| && b[i..i + |first|] == first && b[i + |first|..] == rest
  {
    assert (first + rest)[..|first|] == first && (first + rest)[|first|..] == rest;
    assert b[i..i + |first|] == b[i..][..|first|] && b[i + |first|..] == b[i..][|first|..];
  }

  /** `cs` is what there is to read at `i`. */
  ghost predicate Reads(b: seq<Byte>, i: nat, cs: seq<Chunk>) { cs == Parse(b, i) }

  lemma ReadsFirst(b: seq<Byte>, i: nat, c: Chunk, later: seq<Chunk>)
    requires WholeAt(b, i) && c == ChunkAt(b, i)
    requires if c.typ == IEND then later == [] else Reads(b, i + Size(c), later)
    ensures Reads(b, i, [c] + later)
  {
    assert later == After(b, c, i);
    ParseStep(b, i, c);
  }

  lemma {:induction false} ReadsMet(crc32: Checksum, b: seq<Byte>, i: nat, cs: seq<Chunk>)
    requires AllWellFormed(cs) && i <= |b| && b[i..] == EncodeAll(crc32, cs)
    ensures Reads(b, i, Met(crc32, cs, i))
    decreases cs
  {
    if cs == [] {
      assert !WholeAt(b, i);
    } else {
      var c := Stamped(crc32, cs[0], i);
      EncodedHead(crc32, b, i, cs);
      EncodedIsWhole(crc32, b, i, cs[0]);
      assert Size(c) == Size(cs[0]);
      if c.typ != IEND {
        ReadsMet(crc32, b, i + Size(c), cs[1..]);
      }
      ReadsFirst(b, i, c, if c.typ == IEND then [] else Met(crc32, cs[1..], i + Size(c)));
    }
  }

  lemma {:induction false} MetIsRestamp(crc32: Checksum, cs: seq<Chunk>, i: nat)
    ensures |Restamp(crc32, cs, i)| == |cs|
    ensures Met(crc32, cs, i) == Restamp(crc32, cs, i)[..Kept(cs)]
    decreases cs
  {
    if cs != [] {
      MetIsRestamp(crc32, cs[1..], i + Size(cs[0]));
    }
  }

  lemma {:induction false} AllKeptIff(cs: seq<Chunk>)
    ensures Kept(cs) == |cs| <==> EndsProperly(cs)
  {
    if cs != [] && cs[0].typ != IEND {
      AllKeptIff(cs[1..]);
      assert EndsProperly(cs) <==> EndsProperly(cs[1..]) by {
        assert forall k :: 0 < k < |cs| ==> cs[k] == cs[1..][k - 1];
      }
    }
  }

  /** A rebuilt PNG comes apart into the chunks it was built from, with their checksums
      recomputed and their true offsets, up to the first IEND; and so into all of them
      exactly when IEND occurs at most once and last. */
  lemma RebuiltComesApart(crc32: Checksum, cs: seq<Chunk>)
    requires AllWellFormed(cs)
    ensures |Restamp(crc32, cs, |SIG|)| == |cs|
    ensures Parse(SIG + EncodeAll(crc32, cs), |SIG|) == Restamp(crc32, cs, |SIG|)[..Kept(cs)]
    ensures Parse(SIG + EncodeAll(crc32, cs), |SIG|) == Restamp(crc32, cs, |SIG|) <==> EndsProperly(cs)
  {
    assert (SIG + EncodeAll(crc32, cs))[|SIG|..] == EncodeAll(crc32, cs);
    ReadsMet(crc32, SIG + EncodeAll(crc32, cs), |SIG|, cs);
    MetIsRestamp(crc32, cs, |SIG|);
    AllKeptIff(cs);
  }

  /* ---------- together again ---------- */

  /** Every checksum is that of type and data. */
  ghost predicate SumsValid(crc32: Checksum, cs: seq<Chunk>) {
    forall c :: c in cs ==> c.crc == crc32(c.typ + c.data) % 0x1_0000_0000
  }

  lemma {:induction false} ParseShape(b: seq<Byte>, i: nat)
    ensures AllWellFormed(Parse(b, i)) && EndsProperly(Parse(b, i))
    decreases |b| - i
  {
    if WholeAt(b, i) {
      var c := ChunkAt(b, i);
      ParseStep(b, i, c);
      if c.typ != IEND {
        ParseShape(b, i + Size(c));
      }
    }
  }

  lemma EncodedInPlace(crc32: Checksum, b: seq<Byte>, i: nat)
    requires WholeAt(b, i)
    ensures var c := ChunkAt(b, i); Encode(crc32, c) == b[i..i + Size(c)] <==> c.crc == Sum(crc32, c)
  {
    var c := ChunkAt(b, i);
    var n := |c.data|;
    var here := b[i..i + Size(c)];
    BytesOfBigEndian(b[i..i + 4]);
    BytesOfBigEndian(b[i + 8 + n..i + 12 + n]);
    BigEndianOfBytes(Sum(crc32, c));
    assert here == b[i..i + 4] + c.typ + c.data + b[i + 8 + n..i + 12 + n];
    if Encode(crc32, c) == here {
      assert Encode(crc32, c)[8 + n..] == BytesOf(Sum(crc32, c)) && here[8 + n..] == b[i + 8 + n..i + 12 + n];
    }
  }

  lemma EncodedFirst(crc32: Checksum, c: Chunk, rest: seq<Chunk>)
    requires WellFormed(c) && AllWellFormed(rest)
    ensures AllWellFormed([c] + rest) && TotalSize([c] + rest) == Size(c) + TotalSize(rest)
    ensures EncodeAll(crc32, [c] + rest) == Encode(crc32, c) + EncodeAll(crc32, rest)
    ensures SumsValid(crc32, [c] + rest) <==> c.crc == Sum(crc32, c) && SumsValid(crc32, rest)
  {
    assert ([c] + rest)[1..] == rest;
  }

  /** The chunks, written back, are the bytes from `i` on as far as they go. */
  predicate WritesBack(crc32: Checksum, cs: seq<Chunk>, b: seq<Byte>, i: nat)
    requires AllWellFormed(cs) && i + TotalSize(cs) <= |b|
  {
    EncodeAll(crc32, cs) == b[i..i + TotalSize(cs)]
  }

  lemma WritesBackFirst(crc32: Checksum, c: Chunk, rest: seq<Chunk>, b: seq<Byte>, i: nat)
    requires WellFormed(c) && AllWellFormed(rest) && i + Size(c) + TotalSize(rest) <= |b|
    ensures AllWellFormed([c] + rest) && TotalSize([c] + rest) == Size(c) + TotalSize(rest)
    ensures WritesBack(crc32, [c] + rest, b, i) <==>
            Encode(crc32, c) == b[i..i + Size(c)] && WritesBack(crc32, rest, b, i + Size(c))
  {
    EncodedFirst(crc32, c, rest);
    Halves(Encode(crc32, c), EncodeAll(crc32, rest), b, i, i + Size(c), i + Size(c) + TotalSize(rest));
  }

  /** The chunks written back give the bytes they were read from exactly when every
      checksum was right. */
  lemma {:induction false} EncodedParse(crc32: Checksum, b: seq<Byte>, i: nat, cs: seq<Chunk>)
    requires i <= |b| && cs == Parse(b, i)
    ensures AllWellFormed(cs) && i + TotalSize(cs) <= |b|
    ensures WritesBack(crc32, cs, b, i) <==> SumsValid(crc32, cs)
    decreases |b| - i
  {
    if WholeAt(b, i) {
      var c := ChunkAt(b, i);
      var rest := After(b, c, i);
      ParseStep(b, i, c);
      if c.typ != IEND {
        EncodedParse(crc32, b, i + Size(c), rest);
      }
      EncodedWhole(crc32, b, i, c, rest);
      assert cs == [c] + rest;
    }
  }

  lemma EncodedWhole(crc32: Checksum, b: seq<Byte>, i: nat, c: Chunk, rest: seq<Chunk>)
    requires WholeAt(b, i) && c == ChunkAt(b, i)
    requires AllWellFormed(rest) && i + Size(c) + TotalSize(rest) <= |b|
    requires WritesBack(crc32, rest, b, i + Size(c)) <==> SumsValid(crc32, rest)
    ensures var cs := [c] + rest;
            && AllWellFormed(cs) && i + TotalSize(cs) <= |b|
            && (WritesBack(crc32, cs, b, i) <==> SumsValid(crc32, cs))
  {
    EncodedInPlace(crc32, b, i);
    WritesBackFirst(crc32, c, rest, b, i);
    EncodedFirst(crc32, c, rest);
  }

  lemma Halves(x: seq<Byte>, y: seq<Byte>, b: seq<Byte>, i: nat, j: nat, k: nat)
    requires i <= j <= k <= |b| && |x| == j - i && |y| == k - j
    ensures x + y == b[i..k] <==> x == b[i..j] && y == b[j..k]
  {
    assert b[i..k] == b[i..j] + b[j..k];
    if x + y == b[i..k] {
      assert (x + y)[..|x|] == x && (x + y)[|x|..] == y;
      assert b[i..k][..|x|] == b[i..j] && b[i..k][|x|..] == b[j..k];
    }
  }

  ghost predicate NothingButChunks(crc32: Checksum, b: seq<Byte>) {
    SIG <= b && |b| == |SIG| + TotalSize(Parse(b, |SIG|)) && SumsValid(crc32, Parse(b, |SIG|))
  }

  /** Taking a file apart and putting it together gives it back exactly when it starts with
      the signature, is nothing but whole chunks up to an IEND or its end, and every
      checksum is right. */
  lemma RebuiltIsOriginalIff(crc32: Checksum, b: seq<Byte>)
    ensures AllWellFormed(Parse(b, |SIG|))
    ensures SIG + EncodeAll(crc32, Parse(b, |SIG|)) == b <==> NothingButChunks(crc32, b)
  {
    ParseShape(b, |SIG|);
    if |b| >= |SIG| {
      EncodedParse(crc32, b, |SIG|, Parse(b, |SIG|));
      WholeFile(crc32, Parse(b, |SIG|), b);
    }
  }

  lemma WholeFile(crc32: Checksum, cs: seq<Chunk>, b: seq<Byte>)
    requires AllWellFormed(cs) && |SIG| + TotalSize(cs) <= |b|
    ensures SIG + EncodeAll(crc32, cs) == b <==>
            SIG <= b && |b| == |SIG| + TotalSize(cs) && WritesBack(crc32, cs, b, |SIG|)
  {
    if |b| == |SIG| + TotalSize(cs) {
      Halves(SIG, EncodeAll(crc32, cs), b, 0, |SIG|, |b|);
      assert b[0..|b|] == b && b[0..|SIG|] == b[..|SIG|];
    }
  }

  /* ---------- mutating ---------- */

  /** What the random source is asked for, before it is brought into range. */
  datatype Draw = Draw(pick: nat, at: nat, value: Byte)

  /** Where a draw lands among the bytes after the signature. */
  function Target(d: Draw, length: nat): (i: nat)
    requires length > |SIG|
    ensures 8 <= i < length && (d.at < length - 8 ==> i == 8 + d.at)
  {
    |SIG| + d.at % (length - |SIG|)
  }

  function Overwritten(b: seq<Byte>, draws: seq<Draw>): (r: seq<Byte>)
    requires draws != [] ==> |b| > |SIG|
    ensures |r| == |b|
  {
    if draws == [] then b
    else
      var d := draws[|draws| - 1];
      Overwritten(b, draws[..|draws| - 1])[Target(d, |b|) := d.value]
  }

  /** naive: overwrite bytes after the signature. Python raises ValueError when there are none. */
  method Naive(seed: seq<Byte>, draws: seq<Draw>) returns (r: Option<seq<Byte>>)
    ensures r.None? <==> |seed| <= |SIG| && draws != []
    ensures r.Some? ==> r.value == Overwritten(seed, draws)
  {
    if |seed| <= |SIG| && draws != [] {
      return None;
    }
    var b := new Byte[|seed|](i requires 0 <= i < |seed| => seed[i]);
    for k := 0 to |draws|
      invariant b[..] == Overwritten(seed, draws[..k])
    {
      assert draws[..k + 1][..k] == draws[..k];
      var i := Target(draws[k], |seed|);
      b[i] := draws[k].value;
    }
    assert draws[..|draws|] == draws;
    r := Some(b[..]);
  }

  /** The draw lands on byte `i` and no later one does. */
  predicate LastOn(draws: seq<Draw>, k: nat, length: nat, i: nat)
    requires k < |draws| && length > |SIG|
  {
    Target(draws[k], length) == i && forall l :: k < l < |draws| ==> Target(draws[l], length) != i
  }

  /** Every byte is the seed's or that of the last draw to land on it; the signature stays. */
  lemma {:induction false} LastDrawWins(b: seq<Byte>, draws: seq<Draw>, i: nat)
    requires i < |b| && (draws != [] ==> |b| > |SIG|)
    ensures i < |SIG| ==> Overwritten(b, draws)[i] == b[i]
    ensures (forall k :: 0 <= k < |draws| ==> Target(draws[k], |b|) != i) ==> Overwritten(b, draws)[i] == b[i]
    ensures forall k :: 0 <= k < |draws| && LastOn(draws, k, |b|, i) ==> Overwritten(b, draws)[i] == draws[k].value
  {
    if draws != [] {
      var init, last := draws[..|draws| - 1], draws[|draws| - 1];
      LastDrawWins(b, init, i);
      assert forall k :: 0 <= k < |init| ==> init[k] == draws[k];
      assert Overwritten(b, draws)[i] == if Target(last, |b|) == i then last.value else Overwritten(b, init)[i];
      forall k | 0 <= k < |draws| && LastOn(draws, k, |b|, i) ensures Overwritten(b, draws)[i] == draws[k].value {
        if k < |init| {
          assert LastOn(init, k, |b|, i);
        }
      }
    }
  }

  /** The chunks with data that a mutation may touch. */
  predicate Mutable(c: Chunk) { |c.data| > 0 && !IsEnd(c) }

  function MutableOf(cs: seq<Chunk>): (js: seq<nat>)
    ensures forall j: nat :: j in js <==> j < |cs| && Mutable(cs[j])
    ensures forall i, j :: 0 <= i < j < |js| ==> js[i] < js[j]
  {
    if cs == [] then []
    else
      var before := MutableOf(cs[..|cs| - 1]);
      assert forall i :: 0 <= i < |before| ==> before[i] in before;
      if Mutable(cs[|cs| - 1]) then before + [|cs| - 1] else before
  }

  /** Same chunks, of the same types and lengths, in the same places. */
  ghost predicate SameShape(a: seq<Chunk>, b: seq<Chunk>) {
    |a| == |b| && forall k :: 0 <= k < |a| ==>
      a[k].typ == b[k].typ && |a[k].data| == |b[k].data| && a[k].offset == b[k].offset &&
          (a[k].typ == IEND ==> a[k].data == b[k].data)
  }

  predicate AllMutable(cs: seq<Chunk>, js: seq<nat>) { forall j :: j in js ==> j < |cs| && Mutable(cs[j]) }

  /** One byte of one chunk's data. */
  function Mutate(cs: seq<Chunk>, js: seq<nat>, d: Draw): seq<Chunk>
    requires js != [] && AllMutable(cs, js)
  {
    var j := js[d.pick % |js|];
    assert j in js;
    assert Mutable(cs[j]);
    var data := cs[j].data;
    cs[j := cs[j].(data := data[d.at % |data| := d.value])]
  }

  lemma MutateKeepsShape(cs: seq<Chunk>, js: seq<nat>, d: Draw)
    requires js != [] && AllMutable(cs, js) && AllWellFormed(cs)
    ensures SameShape(Mutate(cs, js, d), cs) && AllWellFormed(Mutate(cs, js, d)) && AllMutable(Mutate(cs, js, d), js)
  {
    var j := js[d.pick % |js|];
    var m := Mutate(cs, js, d);
    assert j in js;
    forall c | c in m ensures WellFormed(c) {
      var k :| 0 <= k < |m| && m[k] == c;
      assert cs[k] in cs;
    }
  }

  /** One draw after the other. */
  function Mutated(cs: seq<Chunk>, js: seq<nat>, draws: seq<Draw>): (r: seq<Chunk>)
    requires js != [] && AllMutable(cs, js) && AllWellFormed(cs)
    ensures SameShape(r, cs) && AllWellFormed(r) && AllMutable(r, js)
  {
    if draws == [] then cs
    else
      var before := Mutated(cs, js, draws[..|draws| - 1]);
      MutateKeepsShape(before, js, draws[|draws| - 1]);
      Mutate(before, js, draws[|draws| - 1])
  }

  /** What the draws make of the seed's chunks. */
  function Mutant(seed: seq<Byte>, draws: seq<Draw>): (cs: seq<Chunk>)
    ensures SameShape(cs, Parse(seed, |SIG|)) && AllWellFormed(cs)
  {
    ParseShape(seed, |SIG|);
    var cs := Parse(seed, |SIG|);
    if MutableOf(cs) == [] then cs else Mutated(cs, MutableOf(cs), draws)
  }

  /** Nothing is changed without a draw, and each draw sets one byte of one chunk: of those with
      data that are not IEND, counted in order, the one it picks. */
  lemma EachDrawSetsOneByte(seed: seq<Byte>, draws: seq<Draw>, d: Draw)
    ensures Mutant(seed, []) == Parse(seed, |SIG|)
    ensures var js := MutableOf(Parse(seed, |SIG|));
            if js == [] then Mutant(seed, draws + [d]) == Parse(seed, |SIG|)
            else
              var j, before := js[d.pick % |js|], Mutant(seed, draws);
              && j < |before| && |before[j].data| > 0
              && Mutant(seed, draws + [d]) ==
                 before[j := before[j].(data := before[j].data[d.at % |before[j].data| := d.value])]
  {
    ParseShape(seed, |SIG|);
    var cs := Parse(seed, |SIG|);
    var js := MutableOf(cs);
    if js != [] {
      assert (draws + [d])[..|draws|] == draws;
      assert js[d.pick % |js|] in js;
      assert Mutable(Mutated(cs, js, draws)[js[d.pick % |js|]]);
    }
  }

  method ListMutable(cs: seq<Chunk>) returns (js: seq<nat>)
    ensures js == MutableOf(cs)
  {
    js := [];
    for j := 0 to |cs|
      invariant js == MutableOf(cs[..j])
    {
      assert cs[..j + 1][..j] == cs[..j];
      if |cs[j].data| > 0 && cs[j].typ != IEND {
        js := js + [j];
      }
    }
    assert cs[..|cs|] == cs;
  }

  /** Flip bytes inside chunk data, one for each draw. */
  method FlipBytes(parsed: seq<Chunk>, js: seq<nat>, draws: seq<Draw>) returns (cs: seq<Chunk>)
    requires js != [] && AllMutable(parsed, js) && AllWellFormed(parsed)
    ensures cs == Mutated(parsed, js, draws)
  {
    cs := parsed;
    for k := 0 to |draws|
      invariant AllMutable(cs, js) && AllWellFormed(cs) && cs == Mutated(parsed, js, draws[..k])
    {
      assert draws[..k + 1][..k] == draws[..k];
      MutateKeepsShape(cs, js, draws[k]);
      var j := js[draws[k].pick % |js|];
      assert j in js;
      var data := cs[j].data;
      data := data[draws[k].at % |data| := draws[k].value];
      cs := cs[j := cs[j].(data := data)];
    }
    assert draws[..|draws|] == draws;
  }

  /** crc_repaired: flip bytes inside chunk data, then recompute every checksum. With no
      draws it is taking apart and putting together. */
  method CrcRepaired(crc32: Checksum, seed: seq<Byte>, draws: seq<Draw>) returns (b: seq<Byte>)
    ensures b == SIG + EncodeAll(crc32, Mutant(seed, draws))
    ensures SameShape(Parse(b, |SIG|), Parse(seed, |SIG|)) && SumsValid(crc32, Parse(b, |SIG|))
    ensures |b| == |SIG| + TotalSize(Parse(seed, |SIG|))
    ensures draws == [] && NothingButChunks(crc32, seed) ==> b == seed
  {
    var cs := Chunks(seed);
    ParseShape(seed, |SIG|);
    var js := ListMutable(cs);
    if js != [] {
      cs := FlipBytes(cs, js, draws);
    }
    b := Rebuild(crc32, cs);
    RepairedKeepsShape(crc32, seed, draws);
    RebuiltIsOriginalIff(crc32, seed);
  }

  /** Whatever the random choices, what comes out is a PNG with the seed's chunks: the same
      types, lengths and places, with every checksum right. */
  lemma RepairedKeepsShape(crc32: Checksum, seed: seq<Byte>, draws: seq<Draw>)
    ensures var b := SIG + EncodeAll(crc32, Mutant(seed, draws));
            var out := Parse(b, |SIG|);
            SameShape(out, Parse(seed, |SIG|)) && SumsValid(crc32, out) && |b| == |SIG| + TotalSize(Parse(seed, |SIG|))
  {
    var mutated := Mutant(seed, draws);
    ParseShape(seed, |SIG|);
    RebuiltComesApart(crc32, mutated);
    ParseOffsets(seed, |SIG|);
    RestampShape(crc32, mutated, Parse(seed, |SIG|), |SIG|);
  }

  /** The chunks lie end to end from `i` on. */
  ghost predicate EndToEnd(cs: seq<Chunk>, i: nat) {
    && (cs != [] ==> cs[0].offset == i)
    && forall k :: 0 < k < |cs| ==> cs[k].offset == cs[k - 1].offset + Size(cs[k - 1])
  }

  lemma EndToEndGrows(c: Chunk, rest: seq<Chunk>)
    requires EndToEnd(rest, c.offset + Size(c))
    ensures EndToEnd([c] + rest, c.offset)
  {
  }

  lemma {:induction false} ParseOffsets(b: seq<Byte>, i: nat)
    ensures EndToEnd(Parse(b, i), i)
    decreases |b| - i
  {
    if WholeAt(b, i) {
      var c := ChunkAt(b, i);
      ParseStep(b, i, c);
      if c.typ != IEND {
        ParseOffsets(b, i + Size(c));
      }
      EndToEndGrows(c, After(b, c, i));
    }
  }

  lemma {:induction false} RestampShape(crc32: Checksum, cs: seq<Chunk>, like: seq<Chunk>, i: nat)
    requires SameShape(cs, like) && EndToEnd(like, i)
    ensures SameShape(Restamp(crc32, cs, i), like) && SumsValid(crc32, Restamp(crc32, cs, i))
    ensures TotalSize(cs) == TotalSize(like)
    decreases cs
  {
    if cs != [] {
      RestampShape(crc32, cs[1..], like[1..], i + Size(cs[0]));
    }
  }
}
