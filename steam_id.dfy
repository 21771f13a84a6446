/** The 64-bit SteamId: packing of its four fields, unpacking by masks, the two textual
    renderings and the parser that accepts them. Everything here is a pure value. */
module SteamIds {
  import opened Words
  import opened Results

  /** A packed player identifier: account id in bits 0-31, instance in bits 32-51,
      account type in bits 52-55, universe in bits 56-63. */
  datatype SteamId = SteamId(value: uint64)

  /** The two renderings: `STEAM_u:b:i` (V1) and `U:u:i` (V3). */
  datatype Format = V1 | V3

  const TYPE_WEIGHT: nat := 0x10_0000_0000_0000       // 2^52
  const UNIVERSE_WEIGHT: nat := 0x100_0000_0000_0000  // 2^56

  /** `id | (ulong) instance << 32 | (ulong) type << 52 | (ulong) universe << 56`: the
      instance is widened as a signed value, and every shift keeps only 64 bits. Whatever
      the other fields, the account id comes back out of the low 32 bits. */
  function Pack(id: uint32, instance: int32, accountType: byte, universe: byte): (r: SteamId)
    ensures AccountId(r) == id
  {
    LowWordKept(id, instance % TWO_64, accountType, universe);
    var inst := ((instance % TWO_64) * TWO_32) % TWO_64;
    var typeBits := accountType * TYPE_WEIGHT;
    var universeBits := universe * UNIVERSE_WEIGHT;
    Pow2Words();
    Pow2Longs();
    Pow2Monotone(32, 64);
    BitOrBound(id, inst, 64);
    var v1 := BitOr(id, inst);
    BitOrBound(v1, typeBits, 64);
    var v2 := BitOr(v1, typeBits);
    BitOrBound(v2, universeBits, 64);
    SteamId(BitOr(v2, universeBits))
  }

  /** The OR-ed shifts of the other fields are multiples of 2^32, so the account id
      stays in the low 32 bits. */
  lemma LowWordKept(id: uint32, x: nat, accountType: byte, universe: byte)
    ensures var inst := (x * TWO_32) % TWO_64;
      BitOr(BitOr(BitOr(id, inst), accountType * TYPE_WEIGHT), universe * UNIVERSE_WEIGHT) % TWO_32 == id
  {
    Pow2Words();
    var low := x % TWO_32;
    MulStrict(low, TWO_32, TWO_32);
    assert x * TWO_32 == low * TWO_32 + (x / TWO_32) * TWO_64;
    ModMultiple(low * TWO_32, x / TWO_32, TWO_64);
    var inst := (x * TWO_32) % TWO_64;
    assert inst == low * Pow2(32);
    BitOrKeepsLow(id, low, 32);
    var v1 := BitOr(id, inst);
    assert v1 == BitOr(id, low * Pow2(32));
    ModMultiple(id, 0, TWO_32);
    assert v1 % TWO_32 == id;
    var t := accountType * TYPE_WEIGHT;
    assert t == (accountType * 0x10_0000) * Pow2(32);
    BitOrKeepsLow(v1, accountType * 0x10_0000, 32);
    var v2 := BitOr(v1, t);
    assert v2 % TWO_32 == id;
    var u := universe * UNIVERSE_WEIGHT;
    assert u == (universe * 0x100_0000) * Pow2(32);
    BitOrKeepsLow(v2, universe * 0x100_0000, 32);
    assert BitOr(v2, u) % TWO_32 == id;
  }

  /** `Value & 0xffffffff` */
  function AccountId(s: SteamId): (r: nat)
    ensures r < TWO_32
  {
    s.value % TWO_32
  }

  /** `(Value >> 32) & 0xfffff` */
  function Instance(s: SteamId): (r: nat)
    ensures r < 0x10_0000
  {
    (s.value / TWO_32) % 0x10_0000
  }

  /** `(Value >> 52) & 0xf` */
  function AccountType(s: SteamId): (r: nat)
    ensures r < 0x10
  {
    (s.value / TYPE_WEIGHT) % 0x10
  }

  /** `(Value >> 56) & 0xff` */
  function Universe(s: SteamId): (r: nat)
    ensures r < 0x100
  {
    (s.value / UNIVERSE_WEIGHT) % 0x100
  }

  // ---------------------------------------------------------------------------
  // Decimal text

  predicate IsDigit(c: char)
  {
    '0' <= c <= '9'
  }

  predicate AllDigits(s: string)
  {
    forall i :: 0 <= i < |s| ==> IsDigit(s[i])
  }

  function Digit(d: nat): char
    requires d < 10
  {
    ('0' as int + d) as char
  }

  function DigitValue(c: char): nat
    requires IsDigit(c)
  {
    c as int - '0' as int
  }

  /** The decimal rendering of `n`, without leading zeros: a non-empty run of digits,
      a single one exactly for the numbers below ten. */
  function Decimal(n: nat): (r: string)
    decreases n
    ensures |r| >= 1 && AllDigits(r)
    ensures |r| == 1 <==> n < 10
    ensures r[0] == '0' ==> n == 0
  {
    if n < 10 then [Digit(n)] else Decimal(n / 10) + [Digit(n % 10)]
  }

  /** The value of a run of decimal digits, leading zeros allowed: its last digit is the
      value's last decimal digit, and it is zero exactly when every digit is. */
  function DecimalValue(s: string): (r: nat)
    requires AllDigits(s)
    ensures |s| > 0 ==> r % 10 == DigitValue(s[|s| - 1])
    ensures r == 0 <==> forall i | 0 <= i < |s| :: s[i] == '0'
  {
    if s == [] then 0 else DecimalValue(s[..|s| - 1]) * 10 + DigitValue(s[|s| - 1])
  }

  // ---------------------------------------------------------------------------
  // Rendering and parsing

  /** The two renderings. Neither ends in a line feed, and each starts with the prefix
      its pattern requires; the universe digit and the numbers are checked by the
      round-trip lemmas below. */
  function ToString(s: SteamId, format: Format): (r: string)
    ensures Subject(r) == r
    ensures format == V1 ==> |r| >= 11 && r[..6] == "STEAM_"
    ensures format == V3 ==> |r| >= 5 && r[..2] == "U:"
  {
    var id := AccountId(s);
    var universe := Universe(s);
    match format
    case V1 => "STEAM_" + Decimal(universe) + ":" + Decimal(id % 2) + ":" + Decimal(id / 2)
    case V3 => "U:" + Decimal(universe) + ":" + Decimal(id)
  }

  /** The text both anchored patterns are matched against: their closing `$` also
      matches just before one final line feed. */
  function Subject(text: string): (t: string)
    ensures text == t || text == t + "\n"
    ensures |text| > 0 && text[|text| - 1] == '\n' ==> |t| == |text| - 1
  {
    if |text| > 0 && text[|text| - 1] == '\n' then text[..|text| - 1] else text
  }

  /** `^STEAM_(?<universe>[0-5]):(?<bit>[0-1]):(?<id>[0-9]+)$` */
  predicate LegacyShape(t: string): (r: bool)
    ensures r ==> |t| >= 11 && t == "STEAM_" + [t[6]] + ":" + [t[8]] + ":" + t[10..]
    ensures r ==> '\n' !in t
  {
    |t| >= 11 && t[..6] == "STEAM_" && '0' <= t[6] <= '5' && t[7] == ':' &&
    '0' <= t[8] <= '1' && t[9] == ':' && AllDigits(t[10..])
  }

  /** `^(?<type>[U]):(?<universe>[0-5]):(?<id>[0-9]+)$` */
  predicate ModernShape(t: string): (r: bool)
    ensures r ==> |t| >= 5 && t == "U:" + [t[2]] + ":" + t[4..]
    ensures r ==> '\n' !in t
    ensures r ==> !LegacyShape(t)
  {
    |t| >= 5 && t[0] == 'U' && t[1] == ':' && '0' <= t[2] <= '5' && t[3] == ':' &&
    AllDigits(t[4..])
  }

  /** Tries the legacy pattern, then the modern one. The legacy id is parsed as a 32-bit
      unsigned number and shifted left by one within 32 bits before the bit is OR-ed in;
      the modern id must stay below `modernLimit`. Either way the instance and type are 1. */
  function ParseWith(text: string, modernLimit: nat): (r: Result<SteamId>)
    requires modernLimit <= TWO_32
    ensures r == Err(InvalidSteamIdFormat) <==>
      !LegacyShape(Subject(text)) && !ModernShape(Subject(text))
    ensures r.Ok? ==> Instance(r.value) == 1 && AccountType(r.value) == 1 && Universe(r.value) <= 5
  {
    var t := Subject(text);
    if LegacyShape(t) then
      var id := DecimalValue(t[10..]);
      if id >= TWO_32 then Err(NumericOverflow)
      else
        var bit := DigitValue(t[8]);
        Pow2Words();
        BitOrBound((id * 2) % TWO_32, bit, 32);
        var account := BitOr((id * 2) % TWO_32, bit);
        PackFields(account, 1, 1, DigitValue(t[6]));
        Ok(Pack(account, 1, 1, DigitValue(t[6])))
    else if ModernShape(t) then
      var id := DecimalValue(t[4..]);
      if id >= modernLimit then Err(NumericOverflow)
      else
        PackFields(id, 1, 1, DigitValue(t[2]));
        Ok(Pack(id, 1, 1, DigitValue(t[2])))
    else Err(InvalidSteamIdFormat)
  }

  /** `SteamId.Parse` as written: the modern id goes through `byte.Parse`. */
  function Parse(text: string): (r: Result<SteamId>)
    ensures r == Err(InvalidSteamIdFormat) <==>
      !LegacyShape(Subject(text)) && !ModernShape(Subject(text))
    ensures r.Ok? ==> Instance(r.value) == 1 && AccountType(r.value) == 1 && Universe(r.value) <= 5
  {
    ParseWith(text, 0x100)
  }

  /** The parse with the modern id read as the 32-bit account id it renders. */
  function ParseIntended(text: string): (r: Result<SteamId>)
    ensures r == Err(InvalidSteamIdFormat) <==>
      !LegacyShape(Subject(text)) && !ModernShape(Subject(text))
    ensures r.Ok? ==> Instance(r.value) == 1 && AccountType(r.value) == 1 && Universe(r.value) <= 5
  {
    ParseWith(text, TWO_32)
  }

  // ---------------------------------------------------------------------------
  // Properties

  /** With each field inside its bit range the four parts do not overlap, so the packed
      value is their weighted sum. */
  lemma PackValue(id: uint32, instance: int32, accountType: byte, universe: byte)
    requires 0 <= instance < 0x10_0000 && accountType < 0x10
    ensures Pack(id, instance, accountType, universe).value
      == id + instance * TWO_32 + accountType * TYPE_WEIGHT + universe * UNIVERSE_WEIGHT
  {
    Pow2Words();
    Pow2Longs();
    var inst := instance * TWO_32;
    MulStrict(instance, 0x10_0000, TWO_32);
    ModMultiple(instance, 0, TWO_64);
    ModMultiple(inst, 0, TWO_64);
    assert ((instance % TWO_64) * TWO_32) % TWO_64 == inst;
    BitOrDisjoint(id, instance, 32);
    var v1 := id + inst;
    assert BitOr(id, inst) == v1;
    assert v1 < TYPE_WEIGHT;
    BitOrDisjoint(v1, accountType, 52);
    var v2 := v1 + accountType * TYPE_WEIGHT;
    assert BitOr(v1, accountType * TYPE_WEIGHT) == v2;
    MulStrict(accountType, 0x10, TYPE_WEIGHT);
    assert v2 < UNIVERSE_WEIGHT;
    BitOrDisjoint(v2, universe, 56);
    assert BitOr(v2, universe * UNIVERSE_WEIGHT) == v2 + universe * UNIVERSE_WEIGHT;
  }

  /** Unpacking returns the packed fields when each fits its bit range. */
  lemma PackFields(id: uint32, instance: int32, accountType: byte, universe: byte)
    requires 0 <= instance < 0x10_0000 && accountType < 0x10
    ensures var s := Pack(id, instance, accountType, universe);
      AccountId(s) == id && Instance(s) == instance as int &&
      AccountType(s) == accountType as int && Universe(s) == universe as int
  {
    PackValue(id, instance, accountType, universe);
    var v := Pack(id, instance, accountType, universe).value;
    var hi := instance + accountType * 0x10_0000 + universe * 0x100_0000;
    assert v == id + hi * TWO_32;
    ModMultiple(id, hi, TWO_32);
    ModMultiple(instance, accountType + universe * 0x10, 0x10_0000);
    var v1 := id + instance * TWO_32;
    assert v == v1 + (accountType + universe * 0x10) * TYPE_WEIGHT;
    ModMultiple(v1, accountType + universe * 0x10, TYPE_WEIGHT);
    ModMultiple(accountType, universe, 0x10);
    var v2 := v1 + accountType * TYPE_WEIGHT;
    ModMultiple(v2, universe, UNIVERSE_WEIGHT);
    ModMultiple(universe, 0, 0x100);
  }

  /** Cutting a 64-bit value at bits 32, 52 and 56 and weighting the pieces back
      restores it. */
  lemma SplitValue(v: nat)
    requires v < TWO_64
    ensures var q1 := v / TWO_32; var q2 := q1 / 0x10_0000;
      q2 / 0x10 < 0x100 &&
      v == v % TWO_32 + (q1 % 0x10_0000) * TWO_32 + (q2 % 0x10) * TYPE_WEIGHT + (q2 / 0x10) * UNIVERSE_WEIGHT
  {
    var q1 := v / TWO_32;
    var q2 := q1 / 0x10_0000;
    assert v == v % TWO_32 + q1 * TWO_32;
    assert q1 < TWO_32;
    assert q1 == q1 % 0x10_0000 + q2 * 0x10_0000;
    assert q2 < 0x1000;
    assert q2 == q2 % 0x10 + (q2 / 0x10) * 0x10;
  }

  /** Every identifier is the packing of its own unpacked fields. */
  lemma UnpackPack(s: SteamId)
    ensures Instance(s) < 0x10_0000 && AccountType(s) < 0x10 && Universe(s) < 0x100
    ensures Pack(AccountId(s), Instance(s), AccountType(s), Universe(s)) == s
  {
    var v := s.value;
    SplitValue(v);
    var q1 := v / TWO_32;
    var q2 := q1 / 0x10_0000;
    var a, i, t, u := v % TWO_32, q1 % 0x10_0000, q2 % 0x10, q2 / 0x10;
    PackValue(a, i, t, u);
    PackFields(a, i, t, u);
    assert Pack(a, i, t, u) == s;
  }

  lemma {:induction false} DecimalRoundTrip(n: nat)
    ensures |Decimal(n)| >= 1 && AllDigits(Decimal(n)) && DecimalValue(Decimal(n)) == n
    decreases n
  {
    if n >= 10 {
      DecimalRoundTrip(n / 10);
      var d := Decimal(n);
      assert d[..|d| - 1] == Decimal(n / 10);
    }
  }

  /** The legacy rendering's text: the subject is the whole text, it has the legacy
      shape, and its fields sit where the pattern's groups capture them. */
  lemma LegacyText(u: nat, b: nat, digits: string)
    requires u <= 5 && b <= 1 && |digits| >= 1 && AllDigits(digits)
    ensures var text := "STEAM_" + Decimal(u) + ":" + Decimal(b) + ":" + digits;
      Subject(text) == text && LegacyShape(text) && text[10..] == digits &&
      DigitValue(text[6]) == u && DigitValue(text[8]) == b
  {
    var text := "STEAM_" + Decimal(u) + ":" + Decimal(b) + ":" + digits;
    assert text == "STEAM_" + [Digit(u)] + ":" + [Digit(b)] + ":" + digits;
    assert text[|text| - 1] == digits[|digits| - 1];
    assert text[10..] == digits;
    assert text[..6] == "STEAM_";
  }

  /** The modern rendering's text: the subject is the whole text, it has the modern
      shape and not the legacy one, and its fields sit where the groups capture them. */
  lemma ModernText(u: nat, digits: string)
    requires u <= 5 && |digits| >= 1 && AllDigits(digits)
    ensures var text := "U:" + Decimal(u) + ":" + digits;
      Subject(text) == text && !LegacyShape(text) && ModernShape(text) && text[4..] == digits &&
      DigitValue(text[2]) == u
  {
    var text := "U:" + Decimal(u) + ":" + digits;
    assert text == "U:" + [Digit(u)] + ":" + digits;
    assert text[|text| - 1] == digits[|digits| - 1];
    assert text[4..] == digits;
    assert text[0] == 'U';
    assert !LegacyShape(text) by {
      if |text| >= 11 {
        assert text[..6][0] == 'U';
      }
    }
  }

  /** The legacy rendering of an identifier with instance 1, type 1 and a universe of at
      most 5 parses back to the same identifier. */
  lemma ParseLegacyRoundTrip(s: SteamId)
    requires Instance(s) == 1 && AccountType(s) == 1 && Universe(s) <= 5
    ensures Parse(ToString(s, V1)) == Ok(s)
  {
    var a, u := AccountId(s), Universe(s);
    DecimalRoundTrip(a / 2);
    LegacyText(u, a % 2, Decimal(a / 2));
    Rejoin(a);
    UnpackPack(s);
  }

  /** The legacy id and bit, shifted and OR-ed back together, give the account id. */
  lemma Rejoin(a: uint32)
    ensures BitOr(((a / 2) * 2) % TWO_32, a % 2) == a
  {
    assert ((a / 2) * 2) % TWO_32 == (a / 2) * 2;
    BitOrCommutes((a / 2) * 2, a % 2);
    BitOrDisjoint(a % 2, a / 2, 1);
  }

  /** The modern rendering parses back to the same identifier exactly when the account
      id is below the limit on the modern id; a larger id overflows. */
  lemma ParseModernWith(s: SteamId, modernLimit: nat)
    requires modernLimit <= TWO_32
    requires Instance(s) == 1 && AccountType(s) == 1 && Universe(s) <= 5
    ensures ParseWith(ToString(s, V3), modernLimit) ==
      if AccountId(s) < modernLimit then Ok(s) else Err(NumericOverflow)
  {
    var a, u := AccountId(s), Universe(s);
    DecimalRoundTrip(a);
    ModernText(u, Decimal(a));
    UnpackPack(s);
  }

  /** As written, the modern rendering parses back to the same identifier exactly when
      the account id fits a byte: "U:1:256" overflows the byte parse. */
  lemma ParseModernRoundTrip(s: SteamId)
    requires Instance(s) == 1 && AccountType(s) == 1 && Universe(s) <= 5
    ensures Parse(ToString(s, V3)) == if AccountId(s) <= 0xff then Ok(s) else Err(NumericOverflow)
  {
    ParseModernWith(s, 0x100);
  }

  /** With the modern id read as 32 bits, both renderings parse back to the identifier. */
  lemma ParseIntendedRoundTrip(s: SteamId, format: Format)
    requires Instance(s) == 1 && AccountType(s) == 1 && Universe(s) <= 5
    ensures ParseIntended(ToString(s, format)) == Ok(s)
  {
    if format == V1 {
      ParseLegacyRoundTrip(s);
    } else {
      ParseModernWith(s, TWO_32);
    }
  }

  lemma ThreeDigits()
    ensures Decimal(1) == "1" && Decimal(256) == "256"
  {
    assert Decimal(2) == "2" && Decimal(25) == "25";
  }

  /** The text "U:1:256" is the modern rendering of any identifier with account id 256,
      instance, type and universe 1; the parse as written refuses it and the intended
      parse returns the identifier. */
  lemma ModernByteOverflow(s: SteamId)
    requires AccountId(s) == 256 && Instance(s) == 1 && AccountType(s) == 1 && Universe(s) == 1
    ensures ToString(s, V3) == "U:1:256"
    ensures Parse("U:1:256") == Err(NumericOverflow) && ParseIntended("U:1:256") == Ok(s)
  {
    ParseModernRoundTrip(s);
    ParseIntendedRoundTrip(s, V3);
    assert ToString(s, V3) == "U:" + Decimal(1) + ":" + Decimal(256);
    ThreeDigits();
  }
}
