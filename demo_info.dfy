/** A whole match-info file: the fixed header of tagged fields, then round records
    until the end of the stream. `HeaderAt`, `RoundsFrom` and `DecodeFile` state the
    decode as functions of the bytes; the `DemoInfo` class reads the file in place, with
    a reader and one `RoundData` per round, and is proved to agree with them. */
module MatchInfo {
  import opened Words
  import opened Results
  import opened Primitives
  import opened Rounds
  import SteamIds

  // ---------------------------------------------------------------------------
  // The header

  /** Seconds since the Unix epoch that `DateTime.AddSeconds` accepts: the result must
      lie between the years 1 and 9999. */
  const MIN_DATE_SECONDS: int := -62135596800
  const MAX_DATE_SECONDS: int := 253402300799

  predicate IsDateSeconds(v: int)
  {
    MIN_DATE_SECONDS <= v <= MAX_DATE_SECONDS
  }

  /** One header item: a required tag byte followed by a varint (`Field`), by a varint
      that must be a valid date in seconds (`Date`), or by one raw byte (`Skip`). */
  datatype Item = Field(tag: byte) | Date(tag: byte) | Skip(tag: byte)

  /** The header in file order: start time, second start time, the offset byte of the
      first round, server id, match id, the first unknown and the hash. */
  const HEADER: seq<Item> :=
    [Field(0x08), Date(0x10), Skip(0x1a), Field(0x08), Field(0x10), Field(0x18), Field(0x38)]

  /** The header's values as read: raw varints, the start time still counted in
      2^-31 seconds. */
  datatype Header = Header(startTime: int, startTime2: int, serverId: int, matchId: int, unknown0: int, hash: int)

  /** One header item read at `pos`; a tag byte other than the required one fails with
      both bytes and the offset. */
  function ItemAt(data: seq<byte>, pos: nat, item: Item): (r: Result<Cursor<int>>)
    ensures r.Ok? ==> pos + 2 <= r.value.next <= |data|
    ensures r.Ok? ==> data[pos] == item.tag
    ensures pos < |data| && data[pos] != item.tag ==> r == Err(UnexpectedTag(item.tag, data[pos], pos))
    ensures r.Ok? && item.Date? ==> IsDateSeconds(r.value.value)
    ensures r.Ok? && item.Skip? ==> r.value == Cursor(data[pos + 1] as int, pos + 2)
  {
    var t :- ByteAt(data, pos);
    if t.value != item.tag then Err(UnexpectedTag(item.tag, t.value, pos))
    else
      match item
      case Field(_) => VarIntAt(data, t.next)
      case Date(_) =>
        var c :- VarIntAt(data, t.next);
        if IsDateSeconds(c.value) then Ok(c) else Err(TimeOutOfRange)
      case Skip(_) =>
        var b :- ByteAt(data, t.next);
        Ok(Cursor(b.value as int, b.next))
  }

  /** The values of `items` read one after another from `pos`, appended to `done`. */
  function ItemsAt(data: seq<byte>, pos: nat, items: seq<Item>, done: seq<int>): (r: Result<Cursor<seq<int>>>)
    requires pos <= |data|
    ensures r.Ok? ==> |r.value.value| == |done| + |items| && pos + 2 * |items| <= r.value.next <= |data|
    decreases |data| - pos
  {
    if items == [] then Ok(Cursor(done, pos))
    else
      var c :- ItemAt(data, pos, items[0]);
      ItemsAt(data, c.next, items[1..], done + [c.value])
  }

  /** The header read from the start of the stream, item by item in `HEADER` order; the
      offset byte is read and dropped. */
  function HeaderAt(data: seq<byte>): (r: Result<Cursor<Header>>)
    ensures r.Ok? ==> 14 <= r.value.next <= |data|
  {
    var c :- ItemsAt(data, 0, HEADER, []);
    var v := c.value;
    Ok(Cursor(Header(v[0], v[1], v[3], v[4], v[5], v[6]), c.next))
  }

  // ---------------------------------------------------------------------------
  // Writing a header

  /** The values an item can carry: a signed 64-bit value, a date the reader accepts,
      or a byte. */
  predicate Fits(item: Item, v: int)
  {
    match item
    case Field(_) => -0x8000_0000_0000_0000 <= v < 0x8000_0000_0000_0000
    case Date(_) => IsDateSeconds(v)
    case Skip(_) => 0 <= v < 0x100
  }

  /** An item as a writer lays it out: the tag byte, then the value's 64-bit pattern as a
      canonical varint, or the raw byte. */
  function EncodeItem(item: Item, v: int): (e: seq<byte>)
    requires Fits(item, v)
    ensures 2 <= |e| && e[0] == item.tag
  {
    match item
    case Skip(tag) => [tag, v]
    case _ => [item.tag] + EncodeVarInt(v % TWO_64)
  }

  /** Each header value fits its item. */
  predicate HeaderFits(h: Header, offset: byte)
  {
    && Fits(HEADER[0], h.startTime) && Fits(HEADER[1], h.startTime2) && Fits(HEADER[2], offset)
    && Fits(HEADER[3], h.serverId) && Fits(HEADER[4], h.matchId) && Fits(HEADER[5], h.unknown0)
    && Fits(HEADER[6], h.hash)
  }

  /** A header as a writer lays it out, with `offset` as the first round's offset byte. */
  function EncodeHeader(h: Header, offset: byte): seq<byte>
    requires HeaderFits(h, offset)
  {
    EncodeItem(HEADER[0], h.startTime) + EncodeItem(HEADER[1], h.startTime2) + EncodeItem(HEADER[2], offset)
    + EncodeItem(HEADER[3], h.serverId) + EncodeItem(HEADER[4], h.matchId) + EncodeItem(HEADER[5], h.unknown0)
    + EncodeItem(HEADER[6], h.hash)
  }

  /** An item reads back as the value it was written with, wherever it sits. */
  lemma ItemInside(data: seq<byte>, pos: nat, item: Item, v: int)
    requires Fits(item, v)
    requires pos + |EncodeItem(item, v)| <= |data| && data[pos..pos + |EncodeItem(item, v)|] == EncodeItem(item, v)
    ensures ItemAt(data, pos, item) == Ok(Cursor(v, pos + |EncodeItem(item, v)|))
  {
    var e := EncodeItem(item, v);
    assert data[pos] == e[0];
    if item.Skip? {
      assert data[pos + 1] == e[1];
    } else {
      var u := v % TWO_64;
      assert data[pos + 1..pos + |e|] == e[1..] == EncodeVarInt(u);
      VarIntInside(data, pos + 1, u);
      SignedPattern(v);
      assert VarIntAt(data, pos + 1) == Ok(Cursor(v, pos + |e|));
    }
  }

  /** Reading items whose first item reads as `v` is reading the rest after it. */
  lemma ItemsAtCons(data: seq<byte>, pos: nat, items: seq<Item>, done: seq<int>, v: int, next: nat)
    requires pos <= |data| && items != [] && ItemAt(data, pos, items[0]) == Ok(Cursor(v, next))
    ensures ItemsAt(data, pos, items, done) == ItemsAt(data, next, items[1..], done + [v])
  {
  }

  /** Reading `a + b` is reading `a`, then `b` where `a` stopped. */
  lemma {:induction false} ItemsAtAppend(data: seq<byte>, pos: nat, a: seq<Item>, b: seq<Item>, done: seq<int>)
    requires pos <= |data|
    ensures ItemsAt(data, pos, a + b, done) ==
      match ItemsAt(data, pos, a, done)
      case Err(e) => Err(e)
      case Ok(c) => ItemsAt(data, c.next, b, c.value)
    decreases |a|
  {
    if a != [] {
      assert (a + b)[0] == a[0] && (a + b)[1..] == a[1..] + b;
      match ItemAt(data, pos, a[0])
      case Err(_) =>
      case Ok(c) => ItemsAtAppend(data, c.next, a[1..], b, done + [c.value]);
    } else {
      assert a + b == b;
    }
  }

  /** Once the first `k` of `items` have been read, the read fails at item `k` when the
      stream ends there, and when the byte there is not item `k`'s tag. */
  lemma ItemsFailAt(data: seq<byte>, items: seq<Item>, k: nat, vs: seq<int>, q: nat)
    requires k < |items| && ItemsAt(data, 0, items[..k], []) == Ok(Cursor(vs, q))
    ensures q == |data| ==> ItemsAt(data, 0, items, []) == Err(Truncated)
    ensures q < |data| && data[q] != items[k].tag ==>
      ItemsAt(data, 0, items, []) == Err(UnexpectedTag(items[k].tag, data[q], q))
  {
    var rest := items[k..];
    assert items == items[..k] + rest;
    ItemsAtAppend(data, 0, items[..k], rest, []);
    assert rest[0] == items[k];
  }

  /** Once the first `k` header items have been read, the header (and so the file) fails
      at item `k` when the stream ends there, and when the byte there is not item `k`'s
      tag, naming the required tag, the byte found and its offset. */
  lemma HeaderFailsAtItem(data: seq<byte>, k: nat, vs: seq<int>, q: nat)
    requires k < |HEADER| && ItemsAt(data, 0, HEADER[..k], []) == Ok(Cursor(vs, q))
    ensures q == |data| ==> HeaderAt(data) == Err(Truncated)
    ensures q < |data| && data[q] != HEADER[k].tag ==> HeaderAt(data) == Err(UnexpectedTag(HEADER[k].tag, data[q], q))
  {
    ItemsFailAt(data, HEADER, k, vs, q);
  }

  /** The header from seven items read one after another. */
  lemma HeaderOfReads(data: seq<byte>, a: int, b: int, c: int, d: int, e: int, f: int, g: int,
                      p1: nat, p2: nat, p3: nat, p4: nat, p5: nat, p6: nat, p7: nat)
    requires ItemAt(data, 0, HEADER[0]) == Ok(Cursor(a, p1))
    requires ItemAt(data, p1, HEADER[1]) == Ok(Cursor(b, p2))
    requires ItemAt(data, p2, HEADER[2]) == Ok(Cursor(c, p3))
    requires ItemAt(data, p3, HEADER[3]) == Ok(Cursor(d, p4))
    requires ItemAt(data, p4, HEADER[4]) == Ok(Cursor(e, p5))
    requires ItemAt(data, p5, HEADER[5]) == Ok(Cursor(f, p6))
    requires ItemAt(data, p6, HEADER[6]) == Ok(Cursor(g, p7))
    ensures HeaderAt(data) == Ok(Cursor(Header(a, b, d, e, f, g), p7))
  {
    var rest := HEADER;
    ItemsAtCons(data, 0, rest, [], a, p1);
    rest := rest[1..];
    ItemsAtCons(data, p1, rest, [] + [a], b, p2);
    rest := rest[1..];
    ItemsAtCons(data, p2, rest, [] + [a] + [b], c, p3);
    rest := rest[1..];
    ItemsAtCons(data, p3, rest, [] + [a] + [b] + [c], d, p4);
    rest := rest[1..];
    ItemsAtCons(data, p4, rest, [] + [a] + [b] + [c] + [d], e, p5);
    rest := rest[1..];
    ItemsAtCons(data, p5, rest, [] + [a] + [b] + [c] + [d] + [e], f, p6);
    rest := rest[1..];
    ItemsAtCons(data, p6, rest, [] + [a] + [b] + [c] + [d] + [e] + [f], g, p7);
    HeaderOfItems(data, a, b, c, d, e, f, g, p7);
  }

  /** Seven byte strings written one after another at the start of a stream, each found
      at its own offset. */
  lemma SevenPieces(data: seq<byte>, e: seq<byte>, e0: seq<byte>, e1: seq<byte>, e2: seq<byte>, e3: seq<byte>,
                    e4: seq<byte>, e5: seq<byte>, e6: seq<byte>)
      returns (p1: nat, p2: nat, p3: nat, p4: nat, p5: nat, p6: nat, p7: nat)
    requires e == e0 + e1 + e2 + e3 + e4 + e5 + e6 && |e| <= |data| && data[..|e|] == e
    ensures p1 == |e0| && p2 == p1 + |e1| && p3 == p2 + |e2| && p4 == p3 + |e3|
    ensures p5 == p4 + |e4| && p6 == p5 + |e5| && p7 == p6 + |e6| == |e|
    ensures p7 <= |data| && data[0..p1] == e0 && data[p1..p2] == e1 && data[p2..p3] == e2
    ensures data[p3..p4] == e3 && data[p4..p5] == e4 && data[p5..p6] == e5 && data[p6..p7] == e6
  {
    assert data[0..|e0 + e1 + e2 + e3 + e4 + e5 + e6|] == e0 + e1 + e2 + e3 + e4 + e5 + e6;
    SliceSplit(data, 0, e0 + e1 + e2 + e3 + e4 + e5, e6);
    SliceSplit(data, 0, e0 + e1 + e2 + e3 + e4, e5);
    SliceSplit(data, 0, e0 + e1 + e2 + e3, e4);
    SliceSplit(data, 0, e0 + e1 + e2, e3);
    SliceSplit(data, 0, e0 + e1, e2);
    SliceSplit(data, 0, e0, e1);
    p1, p2, p3, p4 := |e0|, |e0| + |e1|, |e0| + |e1| + |e2|, |e0| + |e1| + |e2| + |e3|;
    p5, p6, p7 := p4 + |e4|, p4 + |e4| + |e5|, p4 + |e4| + |e5| + |e6|;
  }

  /** The two start times, each written at its offset, read back. */
  lemma FirstItemsInside(data: seq<byte>, h: Header, p1: nat, p2: nat)
    requires Fits(HEADER[0], h.startTime) && Fits(HEADER[1], h.startTime2) && p1 <= p2 <= |data|
    requires p1 == |EncodeItem(HEADER[0], h.startTime)| && data[0..p1] == EncodeItem(HEADER[0], h.startTime)
    requires p2 == p1 + |EncodeItem(HEADER[1], h.startTime2)| && data[p1..p2] == EncodeItem(HEADER[1], h.startTime2)
    ensures ItemAt(data, 0, HEADER[0]) == Ok(Cursor(h.startTime, p1))
    ensures ItemAt(data, p1, HEADER[1]) == Ok(Cursor(h.startTime2, p2))
  {
    ItemInside(data, 0, HEADER[0], h.startTime);
    ItemInside(data, p1, HEADER[1], h.startTime2);
  }

  /** The offset byte and the server id, each written at its offset, read back. */
  lemma MiddleItemsInside(data: seq<byte>, h: Header, offset: byte, p2: nat, p3: nat, p4: nat)
    requires Fits(HEADER[2], offset) && Fits(HEADER[3], h.serverId) && p2 <= p3 <= p4 <= |data|
    requires p3 == p2 + |EncodeItem(HEADER[2], offset)| && data[p2..p3] == EncodeItem(HEADER[2], offset)
    requires p4 == p3 + |EncodeItem(HEADER[3], h.serverId)| && data[p3..p4] == EncodeItem(HEADER[3], h.serverId)
    ensures ItemAt(data, p2, HEADER[2]) == Ok(Cursor(offset as int, p3))
    ensures ItemAt(data, p3, HEADER[3]) == Ok(Cursor(h.serverId, p4))
  {
    ItemInside(data, p2, HEADER[2], offset);
    ItemInside(data, p3, HEADER[3], h.serverId);
  }

  /** The last three header items, each written at its offset, read back. */
  lemma LastItemsInside(data: seq<byte>, h: Header, p4: nat, p5: nat, p6: nat, p7: nat)
    requires Fits(HEADER[4], h.matchId) && Fits(HEADER[5], h.unknown0) && Fits(HEADER[6], h.hash)
    requires p4 <= p5 <= p6 <= p7 <= |data|
    requires p5 == p4 + |EncodeItem(HEADER[4], h.matchId)| && data[p4..p5] == EncodeItem(HEADER[4], h.matchId)
    requires p6 == p5 + |EncodeItem(HEADER[5], h.unknown0)| && data[p5..p6] == EncodeItem(HEADER[5], h.unknown0)
    requires p7 == p6 + |EncodeItem(HEADER[6], h.hash)| && data[p6..p7] == EncodeItem(HEADER[6], h.hash)
    ensures ItemAt(data, p4, HEADER[4]) == Ok(Cursor(h.matchId, p5))
    ensures ItemAt(data, p5, HEADER[5]) == Ok(Cursor(h.unknown0, p6))
    ensures ItemAt(data, p6, HEADER[6]) == Ok(Cursor(h.hash, p7))
  {
    ItemInside(data, p4, HEADER[4], h.matchId);
    ItemInside(data, p5, HEADER[5], h.unknown0);
    ItemInside(data, p6, HEADER[6], h.hash);
  }

  /** A header whose items are written at consecutive offsets reads back. */
  lemma HeaderOfPieces(data: seq<byte>, h: Header, offset: byte, p1: nat, p2: nat, p3: nat, p4: nat, p5: nat, p6: nat, p7: nat)
    requires HeaderFits(h, offset) && p1 <= p2 <= p3 <= p4 <= p5 <= p6 <= p7 <= |data|
    requires p1 == |EncodeItem(HEADER[0], h.startTime)| && data[0..p1] == EncodeItem(HEADER[0], h.startTime)
    requires p2 == p1 + |EncodeItem(HEADER[1], h.startTime2)| && data[p1..p2] == EncodeItem(HEADER[1], h.startTime2)
    requires p3 == p2 + |EncodeItem(HEADER[2], offset)| && data[p2..p3] == EncodeItem(HEADER[2], offset)
    requires p4 == p3 + |EncodeItem(HEADER[3], h.serverId)| && data[p3..p4] == EncodeItem(HEADER[3], h.serverId)
    requires p5 == p4 + |EncodeItem(HEADER[4], h.matchId)| && data[p4..p5] == EncodeItem(HEADER[4], h.matchId)
    requires p6 == p5 + |EncodeItem(HEADER[5], h.unknown0)| && data[p5..p6] == EncodeItem(HEADER[5], h.unknown0)
    requires p7 == p6 + |EncodeItem(HEADER[6], h.hash)| && data[p6..p7] == EncodeItem(HEADER[6], h.hash)
    ensures HeaderAt(data) == Ok(Cursor(h, p7))
  {
    FirstItemsInside(data, h, p1, p2);
    MiddleItemsInside(data, h, offset, p2, p3, p4);
    LastItemsInside(data, h, p4, p5, p6, p7);
    HeaderOfReads(data, h.startTime, h.startTime2, offset, h.serverId, h.matchId, h.unknown0, h.hash,
                  p1, p2, p3, p4, p5, p6, p7);
  }

  /** A written header at the start of a stream reads back as the header it was written
      from, and the rounds start just after it. */
  lemma HeaderInside(data: seq<byte>, h: Header, offset: byte)
    requires HeaderFits(h, offset)
    requires |EncodeHeader(h, offset)| <= |data| && data[..|EncodeHeader(h, offset)|] == EncodeHeader(h, offset)
    ensures HeaderAt(data) == Ok(Cursor(h, |EncodeHeader(h, offset)|))
  {
    var e0, e1, e2 := EncodeItem(HEADER[0], h.startTime), EncodeItem(HEADER[1], h.startTime2), EncodeItem(HEADER[2], offset);
    var e3, e4, e5 := EncodeItem(HEADER[3], h.serverId), EncodeItem(HEADER[4], h.matchId), EncodeItem(HEADER[5], h.unknown0);
    var e6 := EncodeItem(HEADER[6], h.hash);
    var p1, p2, p3, p4, p5, p6, p7 := SevenPieces(data, EncodeHeader(h, offset), e0, e1, e2, e3, e4, e5, e6);
    assert p7 == |EncodeHeader(h, offset)|;
    HeaderOfPieces(data, h, offset, p1, p2, p3, p4, p5, p6, p7);
  }

  /** A written header, followed by anything, reads back. */
  lemma HeaderRoundTrip(h: Header, offset: byte, post: seq<byte>)
    requires HeaderFits(h, offset)
    ensures HeaderAt(EncodeHeader(h, offset) + post) == Ok(Cursor(h, |EncodeHeader(h, offset)|))
  {
    var e := EncodeHeader(h, offset);
    assert (e + post)[..|e|] == e;
    HeaderInside(e + post, h, offset);
  }

  // ---------------------------------------------------------------------------
  // The file

  /** A decoded file: its header, the match fields the rounds left behind, and the
      rounds in file order. */
  datatype Info = Info(header: Header, fields: MatchFields, rounds: seq<RoundRecord>)

  /** Before any round: no end time, zero, no URL, not a tie. */
  const NO_FIELDS := MatchFields(None, 0, None, false)

  /** Rounds read from `pos` until the end of the stream, appended to `done`; the match
      fields pass from each round to the next. The rounds before keep their place, every
      round consumes at least one byte, and every round read is well formed. */
  function RoundsFrom(data: seq<byte>, pos: nat, fields: MatchFields, done: seq<RoundRecord>): (r: Result<(MatchFields, seq<RoundRecord>)>)
    requires pos <= |data|
    decreases |data| - pos
    ensures r.Ok? ==> |done| <= |r.value.1| <= |done| + (|data| - pos) && r.value.1[..|done|] == done
    ensures r.Ok? && (forall x | x in done :: WellFormed(x)) ==> forall x | x in r.value.1 :: WellFormed(x)
  {
    if pos == |data| then Ok((fields, done))
    else
      var c :- RoundAt(data, pos, fields);
      var more := done + [c.value.round];
      var rest := RoundsFrom(data, c.next, c.value.fields, more);
      assert rest.Ok? ==> rest.value.1[..|done|] == more[..|done|];
      rest
  }

  /** The whole file: the header, then its rounds; any failure fails the file. A decoded
      file carries the header read from its start and no more rounds than bytes after
      that header, each well formed. */
  function DecodeFile(data: seq<byte>): (r: Result<Info>)
    ensures r.Ok? ==>
      && HeaderAt(data).Ok? && r.value.header == HeaderAt(data).value.value
      && |r.value.rounds| <= |data| - HeaderAt(data).value.next
      && forall x | x in r.value.rounds :: WellFormed(x)
    ensures HeaderAt(data).Err? ==> r == Err(HeaderAt(data).error)
  {
    var h :- HeaderAt(data);
    var rs :- RoundsFrom(data, h.next, NO_FIELDS, []);
    Ok(Info(h.value, rs.0, rs.1))
  }

  /** No round read from `pos` on reads a winner tag (or the rounds fail before one). */
  predicate NoWinnerInRounds(data: seq<byte>, pos: nat, fields: MatchFields)
    requires pos <= |data|
    decreases |data| - pos
  {
    if pos == |data| then true
    else
      var st := RoundState(StartRouter(|data|), EMPTY_ROUND, fields);
      match RoundAt(data, pos, fields)
      case Err(_) => true
      case Ok(c) => NoWinnerFrom(data, pos, st) && NoWinnerInRounds(data, c.next, c.value.fields)
  }

  /** Rounds that read no winner tag hand on the tie flag they were given: `WasTie` is
      set by winner tags only, and it carries over from one round to the next. */
  lemma {:induction false} RoundsTieKept(data: seq<byte>, pos: nat, fields: MatchFields, done: seq<RoundRecord>)
    requires pos <= |data| && NoWinnerInRounds(data, pos, fields)
    ensures RoundsFrom(data, pos, fields, done).Ok? ==> RoundsFrom(data, pos, fields, done).value.0.wasTie == fields.wasTie
    decreases |data| - pos
  {
    if pos < |data| && RoundAt(data, pos, fields).Ok? {
      var c := RoundAt(data, pos, fields).value;
      TieKept(data, pos, RoundState(StartRouter(|data|), EMPTY_ROUND, fields));
      RoundsTieKept(data, c.next, c.value.fields, done + [c.value.round]);
    }
  }

  /** A file that is a written header and nothing else decodes to that header, no
      rounds and the match fields' starting values. */
  lemma HeaderOnlyFile(h: Header, offset: byte)
    requires HeaderFits(h, offset)
    ensures DecodeFile(EncodeHeader(h, offset)) == Ok(Info(h, NO_FIELDS, []))
  {
    var e := EncodeHeader(h, offset);
    assert e + [] == e;
    HeaderRoundTrip(h, offset, []);
  }

  /** A stream shorter than the header fails; an empty one for want of bytes, and one
      whose first byte is not the start time's tag names that byte. */
  lemma ShortOrForeignFile(data: seq<byte>)
    ensures |data| < 14 ==> DecodeFile(data).Err?
    ensures data == [] ==> DecodeFile(data) == Err(Truncated)
    ensures data != [] && data[0] != 0x08 ==> DecodeFile(data) == Err(UnexpectedTag(0x08, data[0], 0))
  {
  }

  // ---------------------------------------------------------------------------
  // The decoder in place

  /** What a read did, given the result its specification function prescribes: on
      success the value and the new position, on failure the error. Unlike
      `Primitives.Moved` it names no failure position: a header read that fails stops
      wherever the failing item's own read stopped, and `HeaderAt` does not record it. */
  ghost predicate Agrees<T>(r: Result<T>, pos: nat, spec: Result<Cursor<T>>)
  {
    match spec
    case Ok(c) => r == Ok(c.value) && pos == c.next
    case Err(e) => r == Err(e)
  }

  /** Reads one header item, the first of `items`, after the values `done`: the tag byte
      is checked before its value is read. */
  method ReadItem(reader: Reader, item: Item, ghost items: seq<Item>, ghost done: seq<int>) returns (r: Result<int>)
    requires reader.Valid() && items != [] && items[0] == item
    modifies reader
    ensures reader.Valid()
    ensures r.Ok? ==> ItemsAt(reader.data, old(reader.pos), items, done) == ItemsAt(reader.data, reader.pos, items[1..], done + [r.value])
    ensures r.Err? ==> ItemsAt(reader.data, old(reader.pos), items, done) == Err(r.error)
  {
    var at := reader.pos;
    var t :- reader.ReadByte();
    if t != item.tag {
      return Err(UnexpectedTag(item.tag, t, at));
    }
    match item
    case Field(_) =>
      r := reader.ReadVarInt();
    case Date(_) =>
      var v :- reader.ReadVarInt();
      if !IsDateSeconds(v) {
        return Err(TimeOutOfRange);
      }
      r := Ok(v);
    case Skip(_) =>
      var b :- reader.ReadByte();
      r := Ok(b);
  }

  /** The header built from the seven items as they were read. */
  lemma HeaderOfItems(data: seq<byte>, a: int, b: int, c: int, d: int, e: int, f: int, g: int, next: nat)
    requires ItemsAt(data, 0, HEADER, []) == Ok(Cursor([] + [a] + [b] + [c] + [d] + [e] + [f] + [g], next))
    ensures HeaderAt(data) == Ok(Cursor(Header(a, b, d, e, f, g), next))
  {
  }

  /** Reads the header items in order; the offset byte is read and dropped. */
  method ReadHeader(reader: Reader) returns (r: Result<Header>)
    requires reader.Valid() && reader.pos == 0
    modifies reader
    ensures reader.Valid()
    ensures Agrees(r, reader.pos, HeaderAt(reader.data))
  {
    ghost var spec, rest, done := ItemsAt(reader.data, 0, HEADER, []), HEADER, [];
    var startTime :- ReadItem(reader, HEADER[0], rest, done);
    rest, done := rest[1..], done + [startTime];
    var startTime2 :- ReadItem(reader, HEADER[1], rest, done);
    rest, done := rest[1..], done + [startTime2];
    var offset :- ReadItem(reader, HEADER[2], rest, done);
    rest, done := rest[1..], done + [offset];
    var serverId :- ReadItem(reader, HEADER[3], rest, done);
    rest, done := rest[1..], done + [serverId];
    var matchId :- ReadItem(reader, HEADER[4], rest, done);
    rest, done := rest[1..], done + [matchId];
    var unknown0 :- ReadItem(reader, HEADER[5], rest, done);
    rest, done := rest[1..], done + [unknown0];
    var hash :- ReadItem(reader, HEADER[6], rest, done);
    rest, done := rest[1..], done + [hash];
    HeaderOfItems(reader.data, startTime, startTime2, offset, serverId, matchId, unknown0, hash, reader.pos);
    r := Ok(Header(startTime, startTime2, serverId, matchId, unknown0, hash));
  }

  class DemoInfo {
    var startTime: int
    var startTime2: int
    var serverId: int
    var unknown0: int
    var unknown1: int
    var matchId: int
    var hash: int
    var endTime: Option<int>
    var demoUrl: Option<string>
    var wasTie: bool
    var rounds: seq<RoundRecord>

    function HeaderFields(): Header
      reads this
    {
      Header(startTime, startTime2, serverId, matchId, unknown0, hash)
    }

    function Fields(): MatchFields
      reads this
    {
      MatchFields(endTime, unknown1, demoUrl, wasTie)
    }

    function Snapshot(): Info
      reads this
    {
      Info(HeaderFields(), Fields(), rounds)
    }

    constructor ()
      ensures HeaderFields() == Header(0, 0, 0, 0, 0, 0) && Fields() == NO_FIELDS && rounds == []
    {
      startTime, startTime2, serverId, unknown0, matchId, hash := 0, 0, 0, 0, 0, 0;
      endTime, unknown1, demoUrl, wasTie := None, 0, None, false;
      rounds := [];
    }

    /** Reads a header and then rounds until the end of the stream. */
    static method FromFile(bytes: seq<byte>) returns (r: Result<DemoInfo>)
      ensures DecodeFile(bytes).Ok? ==> r.Ok? && fresh(r.value) && r.value.Snapshot() == DecodeFile(bytes).value
      ensures DecodeFile(bytes).Err? ==> r == Err(DecodeFile(bytes).error)
    {
      var reader := new Reader(bytes);
      var info := new DemoInfo();
      var header :- ReadHeader(reader);
      info.startTime, info.startTime2, info.serverId := header.startTime, header.startTime2, header.serverId;
      info.matchId, info.unknown0, info.hash := header.matchId, header.unknown0, header.hash;
      ghost var roundsStart := reader.pos;
      while reader.pos < |reader.data|
        invariant reader.Valid() && reader.data == bytes
        invariant info.HeaderFields() == header
        invariant RoundsFrom(bytes, roundsStart, NO_FIELDS, []) == RoundsFrom(bytes, reader.pos, info.Fields(), info.rounds)
        decreases |bytes| - reader.pos
      {
        var o := info.ReadRound(reader);
        if o.Fail? {
          return Err(o.error);
        }
      }
      r := Ok(info);
    }

    /** Reads one round into a fresh `RoundData` and appends it. */
    method ReadRound(reader: Reader) returns (r: Outcome)
      requires reader.Valid()
      modifies this, reader
      ensures reader.Valid()
      ensures HeaderFields() == old(HeaderFields())
      ensures RoundAt(reader.data, old(reader.pos), old(Fields())).Ok? ==>
        var c := RoundAt(reader.data, old(reader.pos), old(Fields())).value;
        r == Pass && reader.pos == c.next && Fields() == c.value.fields && rounds == old(rounds) + [c.value.round]
      ensures RoundAt(reader.data, old(reader.pos), old(Fields())).Err? ==>
        r == Fail(RoundAt(reader.data, old(reader.pos), old(Fields())).error)
    {
      ghost var data, start := reader.data, reader.pos;
      ghost var spec := RoundAt(data, start, Fields());
      var round := new RoundData();
      var router := StartRouter(|reader.data|);
      while reader.pos < router.dataEnd
        invariant reader.Valid() && reader.data == data && start <= reader.pos
        invariant round.Valid() && fresh(round.teams) && fresh(round.players)
        invariant HeaderFields() == old(HeaderFields()) && rounds == old(rounds)
        invariant spec == Loop(data, reader.pos, RoundState(router, round.Record(), Fields()))
        decreases |data| - reader.pos
      {
        LoopAfterStep(data, reader.pos, RoundState(router, round.Record(), Fields()));
        var next := ReadTag(reader, round, router);
        if next.Err? {
          return Fail(next.error);
        }
        router := next.value;
      }
      rounds := rounds + [round.Record()];
      r := Pass;
    }

    /** One pass of the round loop: the tag byte, the router moved on to it (a new tag
        starts again at slot 0), then the tag's payload. */
    method ReadTag(reader: Reader, round: RoundData, router: Router) returns (r: Result<Router>)
      requires reader.Valid() && round.Valid()
      modifies this, reader, round, round.teams, round.players
      ensures reader.Valid() && round.Valid()
      ensures HeaderFields() == old(HeaderFields()) && rounds == old(rounds)
      ensures var spec := Step(reader.data, old(reader.pos), RoundState(router, old(round.Record()), old(Fields())));
        spec.Ok? ==> r == Ok(spec.value.value.router) && reader.pos == spec.value.next &&
                     round.Record() == spec.value.value.round && Fields() == spec.value.value.fields
      ensures var spec := Step(reader.data, old(reader.pos), RoundState(router, old(round.Record()), old(Fields())));
        spec.Err? ==> r == Err(spec.error)
    {
      var t := reader.ReadByte();
      if t.Err? {
        return Err(t.error);
      }
      var tag := t.value;
      var moved := router;
      if moved.lastTag != tag {
        moved := moved.(lastTag := tag, index := 0);
      }
      if IsVarStat(tag) || IsWideStat(tag) {
        r := ApplyStatTag(reader, round, tag, moved);
      } else if tag == STEAM_ID_OR_TIMESTAMP || tag == TEAM_SCORE {
        r := ApplySlotTag(reader, round, tag, moved);
      } else if tag == ROUND_DATA_LENGTH || tag == ROUND_HEADER_LENGTH {
        r := ApplyRouterTag(reader, round, tag, moved);
      } else {
        r := ApplyFieldTag(reader, round, tag, moved);
      }
    }

    /** The player statistics: a varint, or a width byte and a big-endian integer of
        that width, stored as 32 bits in the router's player slot. */
    method ApplyStatTag(reader: Reader, round: RoundData, tag: byte, router: Router) returns (r: Result<Router>)
      requires IsVarStat(tag) || IsWideStat(tag)
      requires reader.Valid() && round.Valid()
      modifies this, reader, round, round.teams, round.players
      ensures reader.Valid() && round.Valid()
      ensures HeaderFields() == old(HeaderFields()) && rounds == old(rounds)
      ensures var spec := Dispatch(reader.data, old(reader.pos), tag, RoundState(router, old(round.Record()), old(Fields())));
        spec.Ok? ==> r == Ok(spec.value.value.router) && reader.pos == spec.value.next &&
                     round.Record() == spec.value.value.round && Fields() == spec.value.value.fields
      ensures var spec := Dispatch(reader.data, old(reader.pos), tag, RoundState(router, old(round.Record()), old(Fields())));
        spec.Err? ==> r == Err(spec.error)
    {
      var count := 0;
      if IsWideStat(tag) {
        count :- reader.ReadByte();
      }
      var i := router.index;
      if i >= round.players.Length {
        return Err(SlotOverflow);
      }
      var v;
      if IsWideStat(tag) {
        v :- reader.ReadInt(count);
      } else {
        v :- reader.ReadVarInt();
      }
      round.players[i] := SetStat(round.players[i], tag, AsInt32(v));
      r := Ok(router.(index := i + 1));
    }

    /** The team score, the player's SteamId and the end time that shares its tag with
        the SteamId. */
    method ApplySlotTag(reader: Reader, round: RoundData, tag: byte, router: Router) returns (r: Result<Router>)
      requires tag == STEAM_ID_OR_TIMESTAMP || tag == TEAM_SCORE
      requires reader.Valid() && round.Valid()
      modifies this, reader, round, round.teams, round.players
      ensures reader.Valid() && round.Valid()
      ensures HeaderFields() == old(HeaderFields()) && rounds == old(rounds)
      ensures var spec := Dispatch(reader.data, old(reader.pos), tag, RoundState(router, old(round.Record()), old(Fields())));
        spec.Ok? ==> r == Ok(spec.value.value.router) && reader.pos == spec.value.next &&
                     round.Record() == spec.value.value.round && Fields() == spec.value.value.fields
      ensures var spec := Dispatch(reader.data, old(reader.pos), tag, RoundState(router, old(round.Record()), old(Fields())));
        spec.Err? ==> r == Err(spec.error)
    {
      if tag == STEAM_ID_OR_TIMESTAMP {
        if router.headerEnd == 0 {
          var time :- reader.ReadVarInt();
          endTime := Some(time);
          r := Ok(router);
        } else {
          var i := router.index;
          if i >= round.players.Length {
            return Err(SlotOverflow);
          }
          var id :- reader.ReadVarInt();
          round.players[i] := round.players[i].(player := Some(SteamIds.Pack(AsUInt32(id), 1, 1, 1)));
          r := Ok(router.(index := i + 1));
        }
      } else {
        var i := router.index;
        if i >= round.teams.Length {
          return Err(SlotOverflow);
        }
        var v :- reader.ReadVarInt();
        round.teams[i] := TeamStat(Some(AsInt32(v)));
        r := Ok(router.(index := i + 1));
      }
    }

    /** The tags that move the round's bounds: the data length and the header length, each
        counted from the position after its varint. */
    method ApplyRouterTag(reader: Reader, round: RoundData, tag: byte, router: Router) returns (r: Result<Router>)
      requires tag == ROUND_DATA_LENGTH || tag == ROUND_HEADER_LENGTH
      requires reader.Valid() && round.Valid()
      modifies this, reader, round, round.teams, round.players
      ensures reader.Valid() && round.Valid()
      ensures HeaderFields() == old(HeaderFields()) && rounds == old(rounds)
      ensures var spec := Dispatch(reader.data, old(reader.pos), tag, RoundState(router, old(round.Record()), old(Fields())));
        spec.Ok? ==> r == Ok(spec.value.value.router) && reader.pos == spec.value.next &&
                     round.Record() == spec.value.value.round && Fields() == spec.value.value.fields
      ensures var spec := Dispatch(reader.data, old(reader.pos), tag, RoundState(router, old(round.Record()), old(Fields())));
        spec.Err? ==> r == Err(spec.error)
    {
      var length :- reader.ReadVarInt();
      if tag == ROUND_DATA_LENGTH {
        r := Ok(router.(dataEnd := AsInt64(reader.pos + length)));
      } else {
        r := Ok(router.(headerEnd := AsInt64(reader.pos + length)));
      }
    }

    /** The tags that set a match field or the game time, and the tags nobody knows. */
    method ApplyFieldTag(reader: Reader, round: RoundData, tag: byte, router: Router) returns (r: Result<Router>)
      requires !IsSlotTag(tag) && tag != ROUND_DATA_LENGTH && tag != ROUND_HEADER_LENGTH
      requires reader.Valid() && round.Valid()
      modifies this, reader, round, round.teams, round.players
      ensures reader.Valid() && round.Valid()
      ensures HeaderFields() == old(HeaderFields()) && rounds == old(rounds)
      ensures var spec := Dispatch(reader.data, old(reader.pos), tag, RoundState(router, old(round.Record()), old(Fields())));
        spec.Ok? ==> r == Ok(spec.value.value.router) && reader.pos == spec.value.next &&
                     round.Record() == spec.value.value.round && Fields() == spec.value.value.fields
      ensures var spec := Dispatch(reader.data, old(reader.pos), tag, RoundState(router, old(round.Record()), old(Fields())));
        spec.Err? ==> r == Err(spec.error)
    {
      if tag == UNKNOWN_10 {
        var v :- reader.ReadVarInt();
        unknown1 := v;
        r := Ok(router);
      } else if tag == DEMO_URL {
        var length :- reader.ReadVarInt();
        var bytes :- reader.ReadBytes(AsInt32(length));
        demoUrl := Some(Ascii(bytes));
        r := Ok(router);
      } else if tag == WINNER {
        var b :- reader.ReadByte();
        wasTie := b == 0;
        r := Ok(router);
      } else if tag == GAME_TIME {
        var seconds :- reader.ReadVarInt();
        if !IsSpanSeconds(seconds) {
          return Err(TimeOutOfRange);
        }
        round.gameTime := Some(seconds);
        r := Ok(router);
      } else {
        r := Err(UnknownTag(tag));
      }
    }
  }
}
