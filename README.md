# Match ".info" decoder, modelled in Dafny

This project models the decoder of a game client's match ".info" file (DemoInfoParser,
`DemoInfoTest/Program.cs`). The file has three layers:

- A fixed header. It is a strictly positional run of tag bytes (0x08, 0x10, 0x1a, 0x08,
  0x10, 0x18, 0x38). Each tag is followed by a varint, except 0x1a, which is followed by
  one raw "first round offset" byte.
- Round records until the end of the stream. Each round is a loop over `(tag, payload)`
  pairs driven by a small router:
  - the last tag seen, and a slot index that repeated tags advance;
  - the end of the round's data, which tag 0x2a moves;
  - a header-end value, set by tag 0x12, that switches tag 0x08 from the match end time
    to a player's SteamId.
- The primitive reads underneath: bytes, base-128 varints read as signed 64-bit values,
  big-endian integers of a given width, and byte strings decoded as ASCII.

The packed 64-bit `SteamId` is modelled alongside: packing, unpacking by masks, the
`STEAM_u:b:i` and `U:u:i` renderings, and the parser of both.

Each read is first stated as a function of the bytes and a start position:

- `Primitives.VarIntAt`, `FixedIntAt` and `BytesAt`;
- `Rounds.Step`, `Loop` and `RoundAt`;
- `MatchInfo.HeaderAt`, `RoundsFrom` and `DecodeFile`.

The imperative code is then modelled in the source's own form. The `Reader` class holds a
byte sequence and a position. `RoundData` holds two arrays filled slot by slot.
`DemoInfo` is a class whose fields the round loop overwrites. Every method is proved to
agree with the function that specifies it. The properties the decoder promises are proved
about those functions: round trips, consumption, slot runs, overflow and the error
conditions.

Modules:

- `Words`: the C# integer casts and the bitwise OR.
- `Results`: `Option`, `Result` and the error kinds.
- `Primitives`: the primitive reads and the `Reader` class.
- `SteamIds`: the SteamId codec.
- `Rounds`: the round router and `RoundData`.
- `MatchInfo`: the header, the file, and the `DemoInfo` class.

Every failure the source raises as an exception is an explicit error value:

- `Truncated`: end of stream.
- `UnexpectedTag(expected, actual, offset)`: a header tag that does not match.
- `UnknownTag(byte)`: the `NotImplementedException` of the round switch.
- `SlotOverflow`: an array index past `Players[10]` or `Teams[2]`.
- `NumericOverflow`: `uint.Parse` or `byte.Parse` overflow.
- `NegativeCount`: `ReadBytes` with a negative count.
- `TimeOutOfRange`: `DateTime.AddSeconds` or `TimeSpan.FromSeconds` out of range.
- `InvalidSteamIdFormat`.

Facts of the format as the code reads it:

- A round runs until its data end or an error (DemoInfoTest/Program.cs:241). Its data end
  starts at the stream length and moves only when a 0x2a tag is read
  (DemoInfoTest/Program.cs:238, 253-256).
- The header item behind tag 0x1a is one raw byte. It is read and dropped
  (DemoInfoTest/Program.cs:167-168).
- The two start times are two separate varints, behind tags 0x08 and 0x10
  (DemoInfoTest/Program.cs:163-166).
- `WasTie` belongs to the match, not to the round. It is false until a 0x58 tag is read,
  and the last such tag in a round decides it (DemoInfoTest/Program.cs:196, 293-295).

## Model

| member | source | states |
|---|---|---|
| Words.AsInt64 | DemoInfoTest/Program.cs:211 | `(long)` of a 64-bit pattern: a signed 64-bit value congruent to the pattern modulo 2^64 |
| Words.AsInt32 | DemoInfoTest/Program.cs:279 | `(int)` of a long: a signed 32-bit value congruent to it modulo 2^32 |
| Words.AsUInt32 | DemoInfoTest/Program.cs:264 | `(uint)` of a long: an unsigned 32-bit value congruent to it modulo 2^32 |
| Words.SignedPattern | DemoInfoTest/Program.cs:211 | a signed 64-bit value survives the trip to its 64-bit pattern and back through `(long)` |
| Words.LowWordOfInt64 | DemoInfoTest/Program.cs:264 | `(uint)` and `(int)` of the signed reading of a varint keep the pattern's low 32 bits |
| Words.BitOr | DemoInfoTest/Program.cs:207 | `\|` on naturals: the result is at least each operand and at most their sum |
| Words.BitOrKeepsLow | DemoInfoTest/Program.cs:99 | OR-ing in a multiple of 2^k leaves the low k bits of the other operand unchanged |
| Primitives.ByteAt | DemoInfoTest/Program.cs:206 | `ReadByte`: the byte at the position and the position after it, or `Truncated` at the end of the stream |
| Primitives.Reader.ReadByte | DemoInfoTest/Program.cs:206 | returns the byte under the position and advances by one; at the end it fails with `Truncated` and does not move |
| Primitives.VarIntEnd | DemoInfoTest/Program.cs:204-209 | the varint ends one past the first byte with its 0x80 bit clear, never past the stream |
| Primitives.Group | DemoInfoTest/Program.cs:207 | the group of byte `i`, `(b & 0x7f) << (7i)` cut to 64 bits, stays below 2^64, and for the first nine bytes is the group's exact value times 2^(7i) |
| Primitives.Accumulate | DemoInfoTest/Program.cs:207 | the accumulator OR-ed from the groups (shift masked to six bits, cut to 64 bits) stays below 2^64 |
| Primitives.VarIntAt | DemoInfoTest/Program.cs:199-212 | a varint read consumes at least one byte and never runs past the stream |
| Primitives.Reader.ReadVarInt | DemoInfoTest/Program.cs:199-212 | the accumulating loop returns exactly `VarIntAt`'s value and stops where it says; on a truncated varint it fails with the stream consumed |
| Primitives.VarIntEndExact | DemoInfoTest/Program.cs:204-209 | the varint ends at `end` if and only if `data[end-1]` has its 0x80 bit clear and every byte before it from `pos` has it set |
| Primitives.VarIntConsumes | DemoInfoTest/Program.cs:204-209 | a successful varint read consumes exactly the bytes up to and including the first one with the 0x80 bit clear |
| Primitives.VarIntTruncation | DemoInfoTest/Program.cs:204-209 | a varint read fails if and only if every remaining byte has its continuation bit set, and then with `Truncated` |
| Primitives.VarIntSingleByte | DemoInfoTest/Program.cs:199-212 | a lone byte below 0x80 decodes to itself and consumes one byte |
| Primitives.AccumulateIsSum | DemoInfoTest/Program.cs:207 | for up to ten bytes the OR-accumulator equals Σ (bᵢ & 0x7f)·2^(7i) mod 2^64 |
| Primitives.VarIntRoundTrip | DemoInfoTest/Program.cs:199-212 | the canonical encoding of any 64-bit pattern, anywhere in a stream, reads back as that pattern's signed value and stops right after it |
| Primitives.VarIntInside | DemoInfoTest/Program.cs:199-212 | the same round trip for an encoding found at any offset of a stream |
| Primitives.EncodeVarIntShape | DemoInfoTest/Program.cs:204-209 | the encoding sets the continuation bit on every byte but the last, and its groups sum back to the value |
| Primitives.FixedIntAt | DemoInfoTest/Program.cs:214-223 | an `n`-byte read never runs past the stream |
| Primitives.Reader.ReadInt | DemoInfoTest/Program.cs:214-223 | the shift-and-OR loop returns exactly `FixedIntAt`'s value (big-endian, cut to 64 bits, read as signed) and consumes `n` bytes; a short stream fails with `Truncated` |
| Primitives.FixedIntValue | DemoInfoTest/Program.cs:214-223 | `ReadInt(n)` succeeds if and only if `n` bytes remain, consumes exactly `n`, and for `n` ≤ 8 returns the big-endian value read as signed 64-bit; `n` = 0 gives 0 |
| Primitives.BigEndian | DemoInfoTest/Program.cs:214-223 | `n` bytes read big-endian stay below 2^(8n) |
| Primitives.BytesAt | DemoInfoTest/Program.cs:276 | `ReadBytes(count)` fails if and only if the count is negative, and then with `NegativeCount`; otherwise it returns the bytes from the position on, `count` of them or all that remain when fewer do |
| Primitives.BytesRoundTrip | DemoInfoTest/Program.cs:276 | bytes written anywhere in a stream read back as themselves and the read stops right after them |
| Primitives.BytesShortRead | DemoInfoTest/Program.cs:276 | a read asking for more bytes than remain returns the rest of the stream and stops at its end, without failing |
| Primitives.Reader.ReadBytes | DemoInfoTest/Program.cs:276 | the in-place read agrees with `BytesAt` and does not move on failure |
| Primitives.Ascii | DemoInfoTest/Program.cs:276 | ASCII decoding gives one character per byte, all of them ASCII: a byte below 0x80 comes through unchanged, and a character is '?' exactly where the byte is above 0x7f or is '?' itself |
| SteamIds.PackValue | DemoInfoTest/Program.cs:97-100 | with the instance below 2^20 and the type below 16, the OR of the shifted fields is their weighted sum |
| SteamIds.PackFields | DemoInfoTest/Program.cs:97-112 | unpacking by the masks of `ToString` returns the id, instance, type and universe given to the constructor |
| SteamIds.UnpackPack | DemoInfoTest/Program.cs:97-112 | every 64-bit identifier is the packing of its own unpacked fields |
| SteamIds.Pack | DemoInfoTest/Program.cs:97-100 | whatever the instance, type and universe, the packed value keeps the 32-bit account id in its low word |
| SteamIds.LowWordKept | DemoInfoTest/Program.cs:99 | the instance, type and universe shifted to bit 32 and above do not touch the low 32 bits |
| SteamIds.AccountId | DemoInfoTest/Program.cs:109 | `Value & 0xffffffff` is below 2^32 |
| SteamIds.Instance | DemoInfoTest/Program.cs:110 | `(Value >> 32) & 0xfffff` is below 2^20 |
| SteamIds.AccountType | DemoInfoTest/Program.cs:111 | `(Value >> 52) & 0xf` is below 16 |
| SteamIds.Universe | DemoInfoTest/Program.cs:112 | `(Value >> 56) & 0xff` is below 256 |
| SteamIds.ToString | DemoInfoTest/Program.cs:107-122 | the `V1` rendering starts with `STEAM_`, the `V3` rendering with `U:`, and neither ends in a line feed |
| SteamIds.Decimal | DemoInfoTest/Program.cs:117-119 | the `{…}` rendering of a number is a non-empty digit string, one digit exactly for numbers below ten, and never starts with 0 unless the number is 0 |
| SteamIds.DecimalValue | DemoInfoTest/Program.cs:68-78 | the value `uint.Parse`/`byte.Parse` give a digit string: its last digit is the value's last decimal digit, and it is 0 exactly when every digit is 0 |
| SteamIds.DecimalRoundTrip | DemoInfoTest/Program.cs:117-119 | the decimal rendering of a number is a non-empty digit string whose value is the number |
| SteamIds.Subject | DemoInfoTest/Program.cs:50-51 | the text the anchored patterns see: the input itself, or the input less one final line feed, which `$` lets through |
| SteamIds.LegacyShape | DemoInfoTest/Program.cs:50 | a text matching `^STEAM_(?<universe>[0-5]):(?<bit>[0-1]):(?<id>[0-9]+)$` is `STEAM_`, the universe, `:`, the bit, `:` and the id, and holds no line feed |
| SteamIds.ModernShape | DemoInfoTest/Program.cs:51 | a text matching `^(?<type>[U]):(?<universe>[0-5]):(?<id>[0-9]+)$` is `U:`, the universe, `:` and the id, holds no line feed, and never matches the legacy pattern |
| SteamIds.ParseWith | DemoInfoTest/Program.cs:58-86 | the text fails with `InvalidSteamIdFormat` if and only if it matches neither pattern; a parsed identifier has instance 1, type 1 and universe at most 5 |
| SteamIds.Parse | DemoInfoTest/Program.cs:58-86 | the parser as written has the same two guarantees |
| SteamIds.ParseIntended | DemoInfoTest/Program.cs:73-79 | the corrected parser has the same two guarantees |
| SteamIds.LegacyText | DemoInfoTest/Program.cs:50 | the legacy rendering matches the legacy pattern, with its groups at the rendered fields |
| SteamIds.ModernText | DemoInfoTest/Program.cs:51 | the modern rendering matches the modern pattern and not the legacy one |
| SteamIds.ParseLegacyRoundTrip | DemoInfoTest/Program.cs:66-72 | parsing the `STEAM_u:b:i` rendering of an identifier with instance 1, type 1 and universe ≤ 5 returns the same identifier |
| SteamIds.Rejoin | DemoInfoTest/Program.cs:68 | `(id >> 1) << 1 \| (id & 1)` restores a 32-bit id |
| SteamIds.ParseModernWith | DemoInfoTest/Program.cs:73-79 | the `U:u:i` rendering parses back exactly when the account id is below the modern id's limit, and overflows otherwise |
| SteamIds.ParseModernRoundTrip | DemoInfoTest/Program.cs:75 | as written, the `U:u:i` rendering parses back to the identifier if and only if the account id is at most 255; otherwise it fails with `NumericOverflow` |
| SteamIds.ParseIntendedRoundTrip | DemoInfoTest/Program.cs:58-86 | with the modern id parsed as 32 bits, both renderings parse back to the identifier |
| SteamIds.ModernByteOverflow | DemoInfoTest/Program.cs:75 | "U:1:256" is the rendering of a valid identifier; the parser as written refuses it and the corrected one returns it |
| Rounds.IsKnownTag | DemoInfoTest/Program.cs:131-148 | a tag byte is known if and only if it is one of the fifteen values of `enum DataType` |
| Rounds.StartRouter | DemoInfoTest/Program.cs:235-239 | a round starts with its data end at the stream's length and its header end 0; its starting tag is no known tag, so the first known tag of a round writes from slot 0 |
| Rounds.Retag | DemoInfoTest/Program.cs:244-248 | a new tag resets the slot index to 0; a repeated tag keeps it; the data end and header end are untouched |
| Rounds.Slot | DemoInfoTest/Program.cs:264 | a slot write succeeds if and only if the index is below the array's length, and otherwise fails with `SlotOverflow` |
| Rounds.SetStat | DemoInfoTest/Program.cs:278-309 | a statistic write sets exactly that statistic of the player's slot to the value and keeps the SteamId and every other statistic |
| Rounds.PayloadAt | DemoInfoTest/Program.cs:257-309 | a slot tag's payload (a varint, or a width byte then a big-endian integer for 0x80, 0x88 and 0xa8) consumes at least one byte and stays within the stream |
| Rounds.Dispatch | DemoInfoTest/Program.cs:250-313 | a payload never runs past the stream, leaves the router's tag alone and keeps the arrays' sizes |
| Rounds.Step | DemoInfoTest/Program.cs:241-313 | one loop iteration consumes at least one byte, records its tag byte as the last tag and keeps the arrays' sizes |
| Rounds.Loop | DemoInfoTest/Program.cs:241-314 | the round loop stops at or past the data end, consumes at least one byte when it runs at all, and keeps the round well formed |
| Rounds.RoundAt | DemoInfoTest/Program.cs:230-315 | a round read from a non-empty remainder consumes at least one byte, and the round has two team and ten player slots |
| Rounds.RoundData.Record | DemoInfoTest/Program.cs:16-40 | the round as a value (its game time and both arrays' slots), with two team and ten player slots whenever the arrays have their sizes |
| Rounds.RoundData.constructor | DemoInfoTest/Program.cs:38-39 | a new round has fresh arrays of 2 teams and 10 players, every statistic absent |
| Rounds.FilledSlots | DemoInfoTest/Program.cs:257-309 | a run written from slot `s` stores its payloads in slots `s` to `s+k-1` of the array its tag writes to (a statistic as the low 32 bits, 0x08 as a SteamId), and leaves every other slot, the other array and the game time unchanged |
| Rounds.LoopRetag | DemoInfoTest/Program.cs:244-248 | moving the router to the next tag before the step does not change the round's outcome |
| Rounds.LoopAfterStep | DemoInfoTest/Program.cs:241-314 | while the position is below the data end, the loop is one step followed by the loop, and a failing step ends it with that error |
| Rounds.SlotStep | DemoInfoTest/Program.cs:257-309 | a repeated slot tag writes the router's slot and advances the index, or fails with `SlotOverflow` when the array is full |
| Rounds.SlotLoop | DemoInfoTest/Program.cs:257-309 | the same, seen from the loop |
| Rounds.SlotLoopFull | DemoInfoTest/Program.cs:257-309 | a repeated slot tag with a full array ends the round with `SlotOverflow` |
| Rounds.RunAtBounds | DemoInfoTest/Program.cs:257-309 | a run of tagged payloads ends no earlier than it starts, and a non-empty one strictly later within the stream |
| Rounds.SlotRunFits | DemoInfoTest/Program.cs:241-309 | for any of the nine slot tags (0x08 while the header end is not 0), a run continuing the current tag, with room for all of it, fills consecutive slots from the index and hands the loop on after the run |
| Rounds.SlotRunOverflows | DemoInfoTest/Program.cs:241-309 | a run continuing the current tag that is longer than the free slots ends the round with `SlotOverflow` |
| Rounds.SlotRun | DemoInfoTest/Program.cs:241-309 | a run of k identical slot tags after a different tag, k ≤ capacity, fills slots 0..k-1 of `Players` (or `Teams` for 0x60), for the varint statistics, the wide statistics 0x80, 0x88 and 0xa8, 0x60 and player SteamIds behind 0x08 |
| Rounds.SlotRunOverflow | DemoInfoTest/Program.cs:241-309 | such a run longer than the array fails with `SlotOverflow` |
| Rounds.SlotOverflowAtCapacity | DemoInfoTest/Program.cs:264-309 | a slot tag whose index has reached the array's length fails before its payload is read |
| Rounds.SteamIdOrTimestamp | DemoInfoTest/Program.cs:257-265 | tag 0x08 sets the end time while the header end is 0. While it is not 0, it writes a player SteamId from the varint's low 32 bits with instance, type and universe 1, or overflows |
| Rounds.WinnerLastWins | DemoInfoTest/Program.cs:293-295 | of two 0x58 records only the second decides `WasTie` |
| Rounds.StepKeepsTie | DemoInfoTest/Program.cs:250-312 | every tag but 0x58 leaves `WasTie` unchanged |
| Rounds.TieKept | DemoInfoTest/Program.cs:241-312 | a round loop that reads no 0x58 tag ends with `WasTie` as it started |
| Rounds.LastWinnerDecides | DemoInfoTest/Program.cs:293-295 | the last 0x58 tag of a round decides `WasTie`: the round ends with it true exactly when that tag's byte is 0, whatever winner tags came before |
| Rounds.DataLengthStep | DemoInfoTest/Program.cs:253-256 | tag 0x2a sets the data end to the position after its varint plus the length, as a 64-bit sum |
| Rounds.DataLengthSetsEnd | DemoInfoTest/Program.cs:238-256 | after tag 0x2a the loop runs on to the new data end |
| Rounds.GameTimeRange | DemoInfoTest/Program.cs:296-298 | a game time is kept when it fits a `TimeSpan` and fails with `TimeOutOfRange` otherwise |
| Rounds.UnknownTagFails | DemoInfoTest/Program.cs:311-312 | a step fails with `UnknownTag(b)` if and only if its tag byte `b` is outside the tag set; a known tag fails only for want of bytes, room or range |
| MatchInfo.ItemAt | DemoInfoTest/Program.cs:163-176 | a header item succeeds only on its exact tag byte; any other byte fails with `UnexpectedTag(expected, actual, offset)`; a date must be in `DateTime` range; the 0x1a item is one raw byte |
| MatchInfo.ItemsAt | DemoInfoTest/Program.cs:163-176 | header items read in order yield one value each and consume at least two bytes each |
| MatchInfo.ItemsAtAppend | DemoInfoTest/Program.cs:163-176 | reading two runs of header items one after the other is reading them as one run |
| MatchInfo.ItemsFailAt | DemoInfoTest/Program.cs:163-176 | after the first k items have been read, the item read fails at item k with `Truncated` at the end of the stream, or with `UnexpectedTag` on any other tag byte |
| MatchInfo.HeaderFailsAtItem | DemoInfoTest/Program.cs:163-176 | for every item k of the header, once items 0..k-1 have been read, a missing byte or a wrong tag byte at item k fails the header with `Truncated` or `UnexpectedTag(expected, actual, offset)` |
| MatchInfo.HeaderAt | DemoInfoTest/Program.cs:163-176 | a header read from the start consumes at least 14 bytes and never runs past the stream |
| MatchInfo.EncodeItem | DemoInfoTest/Program.cs:163-176 | a written header item is at least two bytes and starts with its tag |
| MatchInfo.ItemInside | DemoInfoTest/Program.cs:163-176 | a written header item reads back as its value, wherever it sits, and the read stops just after it |
| MatchInfo.HeaderInside | DemoInfoTest/Program.cs:163-176 | a written header at the start of a stream reads back as the header it was written from, and the rounds start right after it |
| MatchInfo.HeaderRoundTrip | DemoInfoTest/Program.cs:163-176 | a written header followed by anything reads back as that header |
| MatchInfo.RoundsFrom | DemoInfoTest/Program.cs:178-181 | the round loop keeps the rounds already read in front, in file order, adds no more rounds than bytes remain, and every round it appends has 2 team and 10 player slots |
| MatchInfo.RoundsTieKept | DemoInfoTest/Program.cs:178-181 | rounds that read no 0x58 tag leave `WasTie` as it was before them: the flag carries from round to round and only a winner tag changes it |
| MatchInfo.DecodeFile | DemoInfoTest/Program.cs:157-185 | a decoded file carries the header read from its start, and its rounds are well formed and no more than the bytes after the header; a failing header fails the file with the same error |
| MatchInfo.HeaderOnlyFile | DemoInfoTest/Program.cs:157-185 | a file that is a header alone decodes to that header, no rounds and the starting match fields |
| MatchInfo.ShortOrForeignFile | DemoInfoTest/Program.cs:163 | a stream shorter than the header fails: an empty one with `Truncated`, one with a wrong first byte with `UnexpectedTag(0x08, b, 0)` |
| MatchInfo.ReadItem | DemoInfoTest/Program.cs:163-176 | one inline tag check and read of the header agrees with `ItemsAt`: on success the rest of the header continues after it, on failure the header fails with the same error |
| MatchInfo.ReadHeader | DemoInfoTest/Program.cs:163-176 | the header reads in place return exactly `HeaderAt`'s header and stop where it says, or fail with its error |
| MatchInfo.DemoInfo.constructor | DemoInfoTest/Program.cs:187-197 | a new `DemoInfo` has zeroed header fields, no end time or URL, `WasTie` false and no rounds |
| MatchInfo.DemoInfo.FromFile | DemoInfoTest/Program.cs:157-185 | the object's fields and rounds are exactly `DecodeFile` of the bytes; any failure of the header or of any round fails the whole file with that error |
| MatchInfo.DemoInfo.ReadRound | DemoInfoTest/Program.cs:230-315 | the in-place round loop appends exactly `RoundAt`'s round, leaves the match fields as it does, stops where it says and keeps the header; on failure it reports `RoundAt`'s error |
| MatchInfo.DemoInfo.ReadTag | DemoInfoTest/Program.cs:241-313 | one pass of the round loop (tag byte, router update, payload) agrees with `Step`: the same router, round, match fields and position, or the same error; the header fields and the round list are untouched |
| MatchInfo.DemoInfo.ApplyStatTag | DemoInfoTest/Program.cs:278-309 | the same for the player statistics: the varint ones, and the wide ones, whose width byte is read before the slot is checked |
| MatchInfo.DemoInfo.ApplySlotTag | DemoInfoTest/Program.cs:257-292 | the same for 0x08 (end time or SteamId) and the team score 0x60 |
| MatchInfo.DemoInfo.ApplyRouterTag | DemoInfoTest/Program.cs:253-273 | the same for the data length 0x2a and the header length 0x12, each set to the position after its varint plus the length |
| MatchInfo.DemoInfo.ApplyFieldTag | DemoInfoTest/Program.cs:266-312 | the same for the other tags (0x10, 0x1a, 0x58, 0x78), an unknown tag included |

## Left out

- `Main`, `ToBin` and `ByteArrayToString` (DemoInfoTest/Program.cs:152-155, 320-358) are left out. They are directory enumeration, JSON output, console formatting and key waits.
- `File.Open` and `BinaryReader` are left out. The file is a byte sequence given to `FromFile`, and the reader is a position over it.
- Floating point is left out.
  - `ReadTimeStamp` divides the varint by 2^31 as a `double` (DemoInfoTest/Program.cs:225-228). The start time and end time keep the raw varint instead. Such a quotient always falls within `DateTime`'s range, so this read cannot fail.
  - `StartTime2` and `GameTime` keep the raw whole seconds. They keep the range checks of `DateTime.AddSeconds` and `TimeSpan.FromSeconds`, which fail with `TimeOutOfRange`.
- .NET `Regex` is left out. The two patterns are written as hand-made matchers, with `$` also matching before one final line feed. The JSON attributes, the `ulong` conversion, the `V1`/`V3` properties and the `ToString()` override (the V1 rendering) are not modelled separately.
- The exception types and messages are left out. The model returns the error values listed above. `UnexpectedTag` carries the expected byte, the actual byte and the offset, which the source's plain `Exception` does not.
- `ReadRound` in the source appends its `RoundData` before reading it and keeps references. The model appends a value snapshot of the round when the loop ends. Any failure aborts `FromFile` and discards the object, so the two are indistinguishable.
- `SteamIds.ToString`: the `default` branch throwing `ArgumentException` (DemoInfoTest/Program.cs:120-121) is not modelled. `Format` holds only `V1` and `V3`, so an enum value outside them cannot be expressed.
- `Primitives.BytesAt` and `Primitives.Reader.ReadBytes`: allocation failure is not modelled. `BinaryReader.ReadBytes` allocates the whole count up front, so a count above the runtime's array limit (a URL length of 0x7fffffff, say) throws `OutOfMemoryException`; the model returns the short read instead.
- `MatchInfo.ReadHeader` and `MatchInfo.ReadItem` are helper methods. They factor out the seven inline tag checks and reads of `FromFile`, in the same order and with the same reads.
- `MatchInfo.DemoInfo.ReadTag`, `ApplyStatTag`, `ApplySlotTag`, `ApplyRouterTag` and `ApplyFieldTag` are helper methods as well. They split the body of `ReadRound`'s loop (DemoInfoTest/Program.cs:243-313) into the tag read with the router update and four parts of the switch: the player statistics, the other slot tags, the two lengths, and the remaining tags.
- `MatchInfo.EncodeItem` and `MatchInfo.EncodeHeader` are a writer for the header. The source has none; they exist to state the header's round trip. The header round trip is proved for the canonical (shortest) varint encoding only.
- A whole round is not given a byte-level writer. Its properties are stated over the reads: slot runs, overflow, the tag cases and the end of the data.

## Findings

| source | as written | input that shows it | evidently intended | confidence | as-written member | corrected member |
|---|---|---|---|---|---|---|
| DemoInfoTest/Program.cs:75 | the id of the `U:u:i` form is parsed with `byte.Parse`, so an account id above 255 throws an overflow | "U:1:256", the `U:u:i` rendering (DemoInfoTest/Program.cs:119) of the identifier with account id 256 and instance, type and universe 1 | the id is parsed as the 32-bit account id that the rendering prints, so every rendering parses back | high (not executed) | SteamIds.ModernByteOverflow | SteamIds.ParseIntendedRoundTrip |
