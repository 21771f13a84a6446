/** The primitive reads of the decoder over a byte stream and a read position:
    single bytes, base-128 varints, big-endian fixed-width integers and short byte strings.
    Each read is first stated as a function of the bytes and the start position, then
    carried out step by step by the `Reader` class, whose methods are proved to agree. */
module Primitives {
  import opened Words
  import opened Results

  /** A decoded value together with the stream position just after it. */
  datatype Cursor<+T> = Cursor(value: T, next: nat)

  function ByteAt(data: seq<byte>, pos: nat): (r: Result<Cursor<byte>>)
    ensures r.Ok? ==> pos < r.value.next <= |data|
  {
    if pos < |data| then Ok(Cursor(data[pos], pos + 1)) else Err(Truncated)
  }

  // ---------------------------------------------------------------------------
  // Varints

  /** One past the first byte at or after `pos` whose 0x80 bit is clear; None when
      the stream ends while every byte still has its continuation bit set. */
  function VarIntEnd(data: seq<byte>, pos: nat): (r: Option<nat>)
    decreases |data| - pos
    ensures r.Some? ==> pos < r.value <= |data|
  {
    if pos >= |data| then None
    else if data[pos] < 0x80 then Some(pos + 1)
    else VarIntEnd(data, pos + 1)
  }

  /** The bits the `i`-th byte of a varint ORs into the accumulator: its low seven
      bits shifted left by `7 * i`, the shift count masked to six bits and the result
      cut to 64 bits, as C# does for `ulong << int`. The first nine groups fit whole;
      only the tenth loses bits. */
  function Group(b: byte, i: nat): (r: nat)
    ensures r < TWO_64
    ensures i < 9 ==> r == (b % 0x80) * Pow2(7 * i)
  {
    Pow2Longs();
    Pow2Bytes();
    if i < 9 then
      Pow2Monotone(7 * i, 56);
      Pow2Add(7, 56);
      assert (b % 0x80) * Pow2(7 * i) < TWO_63 by {
        MulStrict(b % 0x80, 0x80, Pow2(7 * i));
      }
      ModMultiple((b % 0x80) * Pow2(7 * i), 0, TWO_64);
      ((b % 0x80) * Pow2((7 * i) % 64)) % TWO_64
    else
      ((b % 0x80) * Pow2((7 * i) % 64)) % TWO_64
  }

  /** The 64-bit accumulator after OR-ing in every byte of `bs`, first byte first. */
  function Accumulate(bs: seq<byte>): (r: nat)
    ensures r < TWO_64
  {
    if |bs| == 0 then 0
    else
      var acc := Accumulate(bs[..|bs| - 1]);
      var g := Group(bs[|bs| - 1], |bs| - 1);
      Pow2Longs();
      BitOrBound(acc, g, 64);
      BitOr(acc, g)
  }

  /** A varint read at `pos`: the accumulated bits reinterpreted as a signed 64-bit value. */
  function VarIntAt(data: seq<byte>, pos: nat): (r: Result<Cursor<int>>)
    ensures r.Ok? ==> pos < r.value.next <= |data|
  {
    match VarIntEnd(data, pos)
    case None => Err(Truncated)
    case Some(end) => Ok(Cursor(AsInt64(Accumulate(data[pos..end])), end))
  }

  /** The plain base-128 value of a run of groups, least significant group first. */
  function GroupSum(bs: seq<byte>): nat
  {
    if bs == [] then 0 else bs[0] % 0x80 + 0x80 * GroupSum(bs[1..])
  }

  /** The canonical base-128 encoding of `u`, low group first, the 0x80 bit set on every
      byte but the last. */
  function EncodeVarInt(u: nat): seq<byte>
    decreases u
  {
    if u < 0x80 then [u] else [u % 0x80 + 0x80] + EncodeVarInt(u / 0x80)
  }

  // ---------------------------------------------------------------------------
  // Fixed-width integers and byte strings

  /** The big-endian unsigned value of `bs`, most significant byte first: `n` bytes
      hold a value below 2^(8n). */
  function BigEndian(bs: seq<byte>): (r: nat)
    ensures r < Pow2(8 * |bs|)
  {
    if |bs| == 0 then 0
    else
      var prefix := BigEndian(bs[..|bs| - 1]);
      Pow2Add(8 * (|bs| - 1), 8);
      Pow2Bytes();
      prefix * 0x100 + bs[|bs| - 1]
  }

  /** `n` bytes at `pos` read as a big-endian integer: the accumulator keeps only its
      low 64 bits and is returned as a signed 64-bit value. */
  function FixedIntAt(data: seq<byte>, pos: nat, n: nat): (r: Result<Cursor<int>>)
    ensures r.Ok? ==> pos <= r.value.next <= |data|
  {
    if pos + n <= |data| then Ok(Cursor(AsInt64(BigEndian(data[pos..pos + n])), pos + n))
    else Err(Truncated)
  }

  /** A bulk read of `count` bytes: a negative count is refused, and a read near the end
      of the stream returns the bytes that remain rather than failing. */
  function BytesAt(data: seq<byte>, pos: nat, count: int): (r: Result<Cursor<seq<byte>>>)
    requires pos <= |data|
    ensures r.Ok? <==> count >= 0
    ensures r.Err? ==> r.error == NegativeCount
    ensures r.Ok? ==> pos <= r.value.next <= |data| && r.value.value == data[pos..r.value.next]
    ensures r.Ok? ==> |r.value.value| == if pos + count <= |data| then count else |data| - pos
  {
    if count < 0 then Err(NegativeCount)
    else
      var end := if pos + count <= |data| then pos + count else |data|;
      Ok(Cursor(data[pos..end], end))
  }

  /** ASCII decoding: bytes above 0x7f become '?'. The text is all ASCII, one character
      per byte, and ASCII bytes come through unchanged. */
  function Ascii(bs: seq<byte>): (s: string)
    ensures |s| == |bs|
    ensures forall i | 0 <= i < |s| :: s[i] as int < 0x80
    ensures forall i | 0 <= i < |bs| :: s[i] == '?' <==> (bs[i] >= 0x80 || bs[i] == '?' as int)
    ensures forall i | 0 <= i < |bs| && bs[i] < 0x80 :: s[i] as int == bs[i]
  {
    seq(|bs|, i requires 0 <= i < |bs| => if bs[i] < 0x80 then bs[i] as char else '?')
  }

  // ---------------------------------------------------------------------------
  // The reader

  /** What a read method did, given the result its specification function prescribes:
      on success the value and the new position, on failure the error and `failPos`. */
  ghost predicate Moved<T>(r: Result<T>, pos: nat, spec: Result<Cursor<T>>, failPos: nat)
  {
    match spec
    case Ok(c) => r == Ok(c.value) && pos == c.next
    case Err(e) => r == Err(e) && pos == failPos
  }

  /** An immutable byte stream with a read position that only moves forward. */
  class Reader {
    const data: seq<byte>
    var pos: nat

    ghost predicate Valid()
      reads this
    {
      pos <= |data|
    }

    constructor (bytes: seq<byte>)
      ensures Valid() && data == bytes && pos == 0
    {
      data := bytes;
      pos := 0;
    }

    method ReadByte() returns (r: Result<byte>)
      requires Valid()
      modifies this
      ensures Valid()
      ensures old(pos) < |data| ==> r == Ok(data[old(pos)]) && pos == old(pos) + 1
      ensures old(pos) == |data| ==> r == Err(Truncated) && pos == old(pos)
    {
      if pos < |data| {
        r := Ok(data[pos]);
        pos := pos + 1;
      } else {
        r := Err(Truncated);
      }
    }

    /** Reads bytes until one has its 0x80 bit clear, OR-ing each byte's low seven bits
        into a 64-bit accumulator at a shift growing by seven. */
    method ReadVarInt() returns (r: Result<int>)
      requires Valid()
      modifies this
      ensures Valid()
      ensures Moved(r, pos, VarIntAt(data, old(pos)), |data|)
    {
      ghost var start := pos;
      var acc: nat := 0;
      var shift: nat := 0;
      while true
        invariant start <= pos <= |data|
        invariant shift == 7 * (pos - start)
        invariant acc == Accumulate(data[start..pos])
        invariant VarIntEnd(data, pos) == VarIntEnd(data, start)
        decreases |data| - pos
      {
        ghost var p := pos;
        var next := ReadByte();
        if next.Err? {
          VarIntAtStops(data, start, p);
          return Err(next.error);
        }
        var b := next.value;
        AccumulateSnoc(data, start, p, shift);
        acc := BitOr(acc, ((b % 0x80) * Pow2(shift % 64)) % TWO_64);
        shift := shift + 7;
        if b < 0x80 {
          VarIntAtStops(data, start, p);
          return Ok(AsInt64(acc));
        }
        assert VarIntEnd(data, p) == VarIntEnd(data, pos);
      }
    }

    /** Reads `n` bytes, shifting the 64-bit accumulator left by eight and OR-ing each in. */
    method ReadInt(n: nat) returns (r: Result<int>)
      requires Valid()
      modifies this
      ensures Valid()
      ensures Moved(r, pos, FixedIntAt(data, old(pos), n), |data|)
    {
      ghost var start := pos;
      var acc: nat := 0;
      for i := 0 to n
        invariant pos == start + i <= |data|
        invariant acc == BigEndian(data[start..pos]) % TWO_64
      {
        var next := ReadByte();
        if next.Err? {
          assert start + n > |data|;
          return Err(next.error);
        }
        BigEndianSnoc(data, start, pos - 1);
        acc := BitOr((acc * 0x100) % TWO_64, next.value);
      }
      assert data[start..pos] == data[start..start + n];
      AsInt64Low(BigEndian(data[start..pos]));
      r := Ok(AsInt64(acc));
    }

    /** `BinaryReader.ReadBytes`: refuses a negative count and returns fewer bytes than
        asked for when the stream is short. */
    method ReadBytes(count: int) returns (r: Result<seq<byte>>)
      requires Valid()
      modifies this
      ensures Valid()
      ensures Moved(r, pos, BytesAt(data, old(pos), count), old(pos))
    {
      if count < 0 {
        return Err(NegativeCount);
      }
      var end := if pos + count <= |data| then pos + count else |data|;
      r := Ok(data[pos..end]);
      pos := end;
    }
  }

  // ---------------------------------------------------------------------------
  // Properties

  /** Bytes written into a stream read back as themselves, and the read stops right after
      them. */
  lemma BytesRoundTrip(pre: seq<byte>, bytes: seq<byte>, post: seq<byte>)
    ensures BytesAt(pre + bytes + post, |pre|, |bytes|) == Ok(Cursor(bytes, |pre| + |bytes|))
  {
    assert (pre + bytes + post)[|pre|..|pre| + |bytes|] == bytes;
  }

  /** A read that asks for more bytes than remain returns the rest of the stream and
      stops at its end, without failing. */
  lemma BytesShortRead(data: seq<byte>, pos: nat, count: int)
    requires pos <= |data| && count >= 0 && pos + count > |data|
    ensures BytesAt(data, pos, count) == Ok(Cursor(data[pos..], |data|))
  {
    assert data[pos..|data|] == data[pos..];
  }

  /** Two byte strings laid out one after the other in the stream. */
  lemma SliceSplit(data: seq<byte>, pos: nat, a: seq<byte>, b: seq<byte>)
    requires pos + |a + b| <= |data| && data[pos..pos + |a + b|] == a + b
    ensures data[pos..pos + |a|] == a && data[pos + |a|..pos + |a| + |b|] == b
  {
    assert data[pos..pos + |a|] == (a + b)[..|a|];
    assert data[pos + |a|..pos + |a| + |b|] == (a + b)[|a|..];
  }

  /** Where a varint read stops, its specification gives the accumulated bytes, or a
      truncation when the stream ran out first. */
  lemma VarIntAtStops(data: seq<byte>, start: nat, p: nat)
    requires start <= p <= |data| && VarIntEnd(data, p) == VarIntEnd(data, start)
    ensures p == |data| ==> VarIntAt(data, start) == Err(Truncated)
    ensures p < |data| && data[p] < 0x80 ==>
      VarIntAt(data, start) == Ok(Cursor(AsInt64(Accumulate(data[start..p + 1])), p + 1))
  {
  }

  /** One more byte of a varint: its low seven bits OR-ed in at the shift the read has
      reached, masked to six bits and truncated to 64 bits. */
  lemma AccumulateSnoc(data: seq<byte>, start: nat, end: nat, shift: nat)
    requires start <= end < |data| && shift == 7 * (end - start)
    ensures Accumulate(data[start..end + 1]) ==
      BitOr(Accumulate(data[start..end]), ((data[end] % 0x80) * Pow2(shift % 64)) % TWO_64)
  {
    assert data[start..end + 1][..end - start] == data[start..end];
  }

  /** One more byte of a fixed-width read: the 64-bit accumulator shifted left by eight
      with the byte OR-ed in. */
  lemma BigEndianSnoc(data: seq<byte>, start: nat, end: nat)
    requires start <= end < |data|
    ensures BitOr(((BigEndian(data[start..end]) % TWO_64) * 0x100) % TWO_64, data[end]) ==
      BigEndian(data[start..end + 1]) % TWO_64
  {
    var prev := data[start..end];
    assert data[start..end + 1][..end - start] == prev;
    ShiftInByte(BigEndian(prev), data[end]);
  }

  lemma ShiftInByte(prefix: nat, b: byte)
    ensures BitOr(((prefix % TWO_64) * 0x100) % TWO_64, b) == (prefix * 0x100 + b) % TWO_64
  {
    var low := prefix % 0x100_0000_0000_0000;
    var shifted := ((prefix % TWO_64) * 0x100) % TWO_64;
    assert prefix % TWO_64 == low + ((prefix / 0x100_0000_0000_0000) % 0x100) * 0x100_0000_0000_0000;
    assert shifted == low * 0x100 by {
      ModMultiple(low * 0x100, (prefix / 0x100_0000_0000_0000) % 0x100, TWO_64);
    }
    Pow2Bytes();
    BitOrCommutes(shifted, b);
    BitOrDisjoint(b, low, 8);
    assert prefix * 0x100 + b == low * 0x100 + b + (prefix / 0x100_0000_0000_0000) * TWO_64;
    ModMultiple(low * 0x100 + b, prefix / 0x100_0000_0000_0000, TWO_64);
  }

  /** A varint occupies exactly the bytes up to and including the first one whose 0x80
      bit is clear. */
  lemma {:induction false} VarIntEndExact(data: seq<byte>, pos: nat, end: nat)
    ensures VarIntEnd(data, pos) == Some(end) <==>
      pos < end <= |data| && data[end - 1] < 0x80 &&
      forall k :: pos <= k < end - 1 ==> data[k] >= 0x80
    decreases |data| - pos
  {
    if pos < |data| && data[pos] >= 0x80 {
      VarIntEndExact(data, pos + 1, end);
    }
  }

  /** A varint read fails only by running out of bytes, and it does so exactly when every
      remaining byte has its continuation bit set. */
  lemma {:induction false} VarIntTruncation(data: seq<byte>, pos: nat)
    requires pos <= |data|
    ensures VarIntAt(data, pos).Err? ==> VarIntAt(data, pos).error == Truncated
    ensures VarIntAt(data, pos).Err? <==> forall k :: pos <= k < |data| ==> data[k] >= 0x80
    decreases |data| - pos
  {
    if pos < |data| && data[pos] >= 0x80 {
      VarIntTruncation(data, pos + 1);
    }
  }

  /** A varint read consumes the bytes up to the first one with the 0x80 bit clear. */
  lemma VarIntConsumes(data: seq<byte>, pos: nat)
    requires VarIntAt(data, pos).Ok?
    ensures var end := VarIntAt(data, pos).value.next;
      pos < end <= |data| && data[end - 1] < 0x80 &&
      (forall k :: pos <= k < end - 1 ==> data[k] >= 0x80)
  {
    VarIntEndExact(data, pos, VarIntAt(data, pos).value.next);
  }

  /** A lone byte below 0x80 decodes to itself. */
  lemma VarIntSingleByte(data: seq<byte>, pos: nat)
    requires pos < |data| && data[pos] < 0x80
    ensures VarIntAt(data, pos) == Ok(Cursor(data[pos] as int, pos + 1))
  {
    var bs := data[pos..pos + 1];
    assert bs[..0] == [];
    assert Group(data[pos], 0) == data[pos];
    assert Accumulate(bs) == BitOr(0, data[pos]);
  }

  lemma {:induction false} GroupSumAppend(bs: seq<byte>, x: byte)
    ensures GroupSum(bs + [x]) == GroupSum(bs) + (x % 0x80) * Pow2(7 * |bs|)
    decreases |bs|
  {
    if bs == [] {
      assert GroupSum([x]) == x % 0x80 + 0x80 * GroupSum([]);
    } else {
      var tail := bs[1..];
      assert (bs + [x])[1..] == tail + [x];
      GroupSumAppend(tail, x);
      var p := Pow2(7 * |tail|);
      Pow2Add(7, 7 * |tail|);
      Pow2Bytes();
      assert Pow2(7 * |bs|) == 0x80 * p;
      var c := (x % 0x80) * p;
      assert (x % 0x80) * Pow2(7 * |bs|) == 0x80 * c;
      assert GroupSum(bs + [x]) == bs[0] % 0x80 + 0x80 * (GroupSum(tail) + c);
    }
  }

  lemma {:induction false} GroupSumBound(bs: seq<byte>)
    ensures GroupSum(bs) < Pow2(7 * |bs|)
    decreases |bs|
  {
    if bs != [] {
      GroupSumBound(bs[1..]);
      Pow2Add(7, 7 * (|bs| - 1));
      Pow2Bytes();
    }
  }

  /** Appending a group below bit 63 ORs in exactly its weighted value. */
  lemma AccumulateLowGroup(g: nat, x: byte, n: nat)
    requires n < 9 && g < Pow2(7 * n)
    ensures BitOr(g, Group(x, n)) == g + (x % 0x80) * Pow2(7 * n)
    ensures (g + (x % 0x80) * Pow2(7 * n)) % TWO_64 == g + (x % 0x80) * Pow2(7 * n)
  {
    var p := Pow2(7 * n);
    var c := (x % 0x80) * p;
    assert (7 * n) % 64 == 7 * n;
    Pow2Add(7 * n, 7);
    Pow2Bytes();
    Pow2Longs();
    Pow2Monotone(7 * n + 7, 64);
    MulStrict(x % 0x80, 0x80, p);
    assert g + c < TWO_64;
    ModMultiple(c, 0, TWO_64);
    ModMultiple(g + c, 0, TWO_64);
    BitOrDisjoint(g, x % 0x80, 7 * n);
  }

  /** The tenth group lands at bit 63: only its lowest bit survives the cut to 64 bits. */
  lemma AccumulateTopGroup(g: nat, x: byte)
    requires g < TWO_63
    ensures BitOr(g, Group(x, 9)) == (g + (x % 0x80) * TWO_63) % TWO_64
  {
    Pow2Longs();
    var h, q := x % 0x80, (x % 0x80) / 2;
    assert (7 * 9) % 64 == 63;
    assert h * TWO_63 == (x % 2) * TWO_63 + q * TWO_64 by {
      assert h == x % 2 + 2 * q;
      assert TWO_64 == 2 * TWO_63;
    }
    ModMultiple((x % 2) * TWO_63, q, TWO_64);
    assert Group(x, 9) == (x % 2) * TWO_63;
    BitOrDisjoint(g, x % 2, 63);
    ModMultiple(g + (x % 2) * TWO_63, q, TWO_64);
  }

  /** For at most ten bytes the accumulator is the base-128 sum of the groups, cut to
      64 bits: Σ (bᵢ & 0x7f)·2^(7i) mod 2^64. */
  lemma {:induction false} AccumulateIsSum(bs: seq<byte>)
    requires |bs| <= 10
    ensures Accumulate(bs) == GroupSum(bs) % TWO_64
    decreases |bs|
  {
    if |bs| > 0 {
      var n := |bs| - 1;
      assert bs == bs[..n] + [bs[n]];
      AccumulateIsSum(bs[..n]);
      AccumulateSnocSum(bs[..n], bs[n]);
    }
  }

  /** One more group keeps the accumulator equal to the sum of the groups modulo 2^64. */
  lemma AccumulateSnocSum(init: seq<byte>, x: byte)
    requires |init| <= 9 && Accumulate(init) == GroupSum(init) % TWO_64
    ensures Accumulate(init + [x]) == GroupSum(init + [x]) % TWO_64
  {
    var bs := init + [x];
    var g, n := GroupSum(init), |init|;
    assert bs[..n] == init && bs[n] == x;
    assert Accumulate(bs) == BitOr(Accumulate(init), Group(x, n));
    GroupSumBound(init);
    GroupSumAppend(init, x);
    GroupStep(g, x, n);
    assert BitOr(g % TWO_64, Group(x, n)) == GroupSum(bs) % TWO_64;
  }

  /** OR-ing group `n` into the low 64 bits of a sum of `n` groups gives the low 64 bits
      of the sum of `n + 1` groups. */
  lemma GroupStep(g: nat, x: byte, n: nat)
    requires n <= 9 && g < Pow2(7 * n)
    ensures BitOr(g % TWO_64, Group(x, n)) == (g + (x % 0x80) * Pow2(7 * n)) % TWO_64
  {
    Pow2Longs();
    Pow2Monotone(7 * n, 63);
    ModMultiple(g, 0, TWO_64);
    if n < 9 {
      AccumulateLowGroup(g, x, n);
    } else {
      assert 7 * n == 63;
      AccumulateTopGroup(g, x);
    }
  }

  /** The encoding's shape: the 0x80 bit on every byte but the last, and the groups
      summing back to `u`. */
  lemma {:induction false} EncodeVarIntShape(u: nat)
    ensures var e := EncodeVarInt(u);
      |e| >= 1 && e[|e| - 1] < 0x80 && (forall i :: 0 <= i < |e| - 1 ==> e[i] >= 0x80) &&
      GroupSum(e) == u
    decreases u
  {
    if u >= 0x80 {
      EncodeVarIntShape(u / 0x80);
      var e := EncodeVarInt(u);
      assert e[1..] == EncodeVarInt(u / 0x80);
      assert e[0] % 0x80 == u % 0x80;
    }
  }

  /** A pattern below 2^(7k) takes at most `k` bytes, so a 64-bit one at most ten. */
  lemma {:induction false} EncodeVarIntLength(u: nat, k: nat)
    requires 1 <= k && u < Pow2(7 * k)
    ensures |EncodeVarInt(u)| <= k
    decreases u
  {
    if u >= 0x80 {
      Pow2Add(7, 7 * (k - 1));
      Pow2Bytes();
      if k == 1 {
        assert false;
      }
      var p := Pow2(7 * (k - 1));
      assert u < 0x80 * p;
      assert u / 0x80 < p;
      EncodeVarIntLength(u / 0x80, k - 1);
    }
  }

  /** The value of a canonical encoding: the pattern itself. */
  lemma AccumulateEncoding(u: nat)
    requires u < TWO_64
    ensures Accumulate(EncodeVarInt(u)) == u
  {
    Pow2Longs();
    Pow2Monotone(64, 70);
    EncodeVarIntShape(u);
    EncodeVarIntLength(u, 10);
    AccumulateIsSum(EncodeVarInt(u));
    ModMultiple(u, 0, TWO_64);
  }

  /** Decoding the canonical encoding of any 64-bit pattern, wherever it sits in the
      stream, returns that pattern as a signed 64-bit value and stops right after it. */
  lemma VarIntRoundTrip(pre: seq<byte>, u: nat, post: seq<byte>)
    requires u < TWO_64
    ensures VarIntAt(pre + EncodeVarInt(u) + post, |pre|)
      == Ok(Cursor(AsInt64(u), |pre| + |EncodeVarInt(u)|))
  {
    var e := EncodeVarInt(u);
    var data := pre + e + post;
    var end := |pre| + |e|;
    VarIntEndOfEncoding(pre, e, post, u);
    assert data[|pre|..end] == e;
    AccumulateEncoding(u);
  }

  /** The round trip for an encoding found anywhere in a stream. */
  lemma VarIntInside(data: seq<byte>, pos: nat, u: nat)
    requires u < TWO_64
    requires pos + |EncodeVarInt(u)| <= |data| && data[pos..pos + |EncodeVarInt(u)|] == EncodeVarInt(u)
    ensures VarIntAt(data, pos) == Ok(Cursor(AsInt64(u), pos + |EncodeVarInt(u)|))
  {
    var end := pos + |EncodeVarInt(u)|;
    assert data == data[..pos] + EncodeVarInt(u) + data[end..];
    VarIntRoundTrip(data[..pos], u, data[end..]);
  }

  lemma VarIntEndOfEncoding(pre: seq<byte>, e: seq<byte>, post: seq<byte>, u: nat)
    requires e == EncodeVarInt(u)
    ensures VarIntEnd(pre + e + post, |pre|) == Some(|pre| + |e|)
  {
    var data := pre + e + post;
    var end := |pre| + |e|;
    EncodeVarIntShape(u);
    assert data[end - 1] == e[|e| - 1];
    forall k | |pre| <= k < end - 1
      ensures data[k] >= 0x80
    {
      assert data[k] == e[k - |pre|];
    }
    VarIntEndExact(data, |pre|, end);
  }

  /** A fixed-width read consumes exactly `n` bytes, fails exactly when fewer remain, and
      for at most eight bytes returns their big-endian value Σ bᵢ·256^(n-1-i), read as a
      signed 64-bit value; reading zero bytes returns 0. */
  lemma FixedIntValue(data: seq<byte>, pos: nat, n: nat)
    ensures FixedIntAt(data, pos, n).Ok? <==> pos + n <= |data|
    ensures FixedIntAt(data, pos, n).Err? ==> FixedIntAt(data, pos, n).error == Truncated
    ensures FixedIntAt(data, pos, n).Ok? ==> FixedIntAt(data, pos, n).value.next == pos + n
    ensures FixedIntAt(data, pos, n).Ok? && n <= 8 ==>
      var v := BigEndian(data[pos..pos + n]);
      v < TWO_64 && FixedIntAt(data, pos, n).value.value == (if v < TWO_63 then v else v - TWO_64)
    ensures FixedIntAt(data, pos, n).Ok? && n == 0 ==> FixedIntAt(data, pos, n).value.value == 0
  {
    if pos + n <= |data| && n <= 8 {
      var bs := data[pos..pos + n];
      Pow2Longs();
      Pow2Monotone(8 * n, 64);
      ModMultiple(BigEndian(bs), 0, TWO_64);
    }
  }
}
