/** Byte and hex helpers of `src/utils/format.rs`: the hex codec with a `0x` prefix, the
    method-selector extraction, the U256-to-u64 narrowing and the 32-byte little-endian
    codec used to store U256 values. */
module Format {
  import opened Wrappers

  type Byte = x: nat | x < 256

  /** 256^n, the number of values n little-endian bytes can hold. */
  function Pow256(n: nat): (r: nat)
    ensures r > 0
  {
    if n == 0 then 1 else 256 * Pow256(n - 1)
  }

  const TWO_64: nat := 0x1_0000_0000_0000_0000

  type U64 = x: nat | x < TWO_64
  type U128 = x: nat | x < 0x1_0000_0000_0000_0000_0000_0000_0000_0000
  /** alloy's U256: 256^32 == 2^256 values. */
  type U256 = x: nat | x < Pow256(32)

  // ---------------------------------------------------------------------------------------
  // Hex digits, as the `hex` crate reads and writes them

  /** A digit `hex::decode` accepts: either case. */
  predicate IsHexDigit(c: char)
  {
    '0' <= c <= '9' || 'a' <= c <= 'f' || 'A' <= c <= 'F'
  }

  /** A digit `hex::encode` writes: lowercase only. */
  predicate IsLowerHexDigit(c: char)
  {
    '0' <= c <= '9' || 'a' <= c <= 'f'
  }

  predicate AllHexDigits(s: string)
  {
    forall i | 0 <= i < |s| :: IsHexDigit(s[i])
  }

  predicate IsLowerHex(s: string)
  {
    forall i | 0 <= i < |s| :: IsLowerHexDigit(s[i])
  }

  /** The lowercase digit `hex::encode` writes for a nibble. */
  function HexDigit(n: nat): (c: char)
    requires n < 16
    ensures IsLowerHexDigit(c)
  {
    if n < 10 then ('0' as int + n) as char else ('a' as int + n - 10) as char
  }

  /** The value of one hex digit. */
  function HexValue(c: char): (r: Option<nat>)
    ensures r.Some? <==> IsHexDigit(c)
    ensures r.Some? ==> r.value < 16
  {
    if '0' <= c <= '9' then Some(c as int - '0' as int)
    else if 'a' <= c <= 'f' then Some(c as int - 'a' as int + 10)
    else if 'A' <= c <= 'F' then Some(c as int - 'A' as int + 10)
    else None
  }

  lemma HexValueOfDigit(n: nat)
    requires n < 16
    ensures HexValue(HexDigit(n)) == Some(n)
  {
  }

  lemma HexDigitOfValue(c: char)
    requires IsLowerHexDigit(c)
    ensures HexValue(c).Some? && HexDigit(HexValue(c).value) == c
  {
  }

  /** `hex::encode`: two lowercase digits per byte, high nibble first. */
  function HexEncode(b: seq<Byte>): (s: string)
    ensures |s| == 2 * |b|
    ensures IsLowerHex(s)
  {
    if b == [] then ""
    else
      var rest := HexEncode(b[1..]);
      var s := [HexDigit(b[0] / 16), HexDigit(b[0] % 16)] + rest;
      assert forall i | 2 <= i < |s| :: s[i] == rest[i - 2];
      s
  }

  /** `hex::decode`: fails on an odd number of digits or on any character that is not a hex digit. */
  function HexDecode(s: string): (r: Option<seq<Byte>>)
    ensures r.Some? <==> |s| % 2 == 0 && AllHexDigits(s)
    ensures r.Some? ==> |s| == 2 * |r.value|
    decreases |s|
  {
    if |s| % 2 == 1 then None
    else if s == [] then Some([])
    else
      var hi, lo, rest := HexValue(s[0]), HexValue(s[1]), HexDecode(s[2..]);
      assert AllHexDigits(s) <==> IsHexDigit(s[0]) && IsHexDigit(s[1]) && AllHexDigits(s[2..]) by {
        assert forall i | 2 <= i < |s| :: s[i] == s[2..][i - 2];
      }
      if hi.Some? && lo.Some? && rest.Some? then Some([16 * hi.value + lo.value] + rest.value) else None
  }

  /** Decoding what was encoded gives back the bytes. */
  lemma {:induction false} HexRoundTrip(b: seq<Byte>)
    ensures HexDecode(HexEncode(b)) == Some(b)
  {
    if b != [] {
      HexRoundTrip(b[1..]);
      HexValueOfDigit(b[0] / 16);
      HexValueOfDigit(b[0] % 16);
      var s := HexEncode(b);
      assert s[2..] == HexEncode(b[1..]);
      assert b == [b[0]] + b[1..];
    }
  }

  /** Encoding what was decoded gives back the text, when the text was lowercase. */
  lemma {:induction false} HexEncodeOfDecoded(s: string)
    requires IsLowerHex(s) && HexDecode(s).Some?
    ensures HexEncode(HexDecode(s).value) == s
    decreases |s|
  {
    if s != [] {
      var b := HexDecode(s).value;
      assert IsLowerHex(s[2..]) by {
        assert forall i | 0 <= i < |s[2..]| :: s[2..][i] == s[i + 2];
      }
      HexEncodeOfDecoded(s[2..]);
      HexDigitOfValue(s[0]);
      HexDigitOfValue(s[1]);
      assert b[1..] == HexDecode(s[2..]).value;
      assert s == [s[0], s[1]] + s[2..];
    }
  }

  // ---------------------------------------------------------------------------------------
  // format_bytes_slice and decode_bytes (format.rs:10-17)

  /** `format_bytes_slice`: "0x" followed by the lowercase hex encoding. */
  function FormatBytesSlice(b: seq<Byte>): (s: string)
    ensures |s| == 2 + 2 * |b| && s[..2] == "0x" && IsLowerHex(s[2..])
  {
    "0x" + HexEncode(b)
  }

  /** The number of bytes a character takes in UTF-8, the encoding Rust strings use. */
  function Utf8Width(c: char): (w: nat)
    ensures 1 <= w <= 4
  {
    if c as int < 0x80 then 1
    else if c as int < 0x800 then 2
    else if c as int < 0x10000 then 3
    else 4
  }

  /** `&s[2..]`: drops the first two BYTES, and panics when the string holds fewer than two
      bytes or byte offset 2 falls inside a character. */
  function DropTwoBytes(s: string): (r: Option<string>)
    ensures r.Some? ==> (|s| >= 1 && r.value == s[1..]) || (|s| >= 2 && r.value == s[2..])
    ensures |s| >= 2 && s[0] as int < 0x80 && s[1] as int < 0x80 ==> r == Some(s[2..])
    ensures |s| < 2 && (s == [] || s[0] as int < 0x80) ==> r.None?
  {
    if |s| >= 1 && Utf8Width(s[0]) == 2 then Some(s[1..])
    else if |s| >= 2 && Utf8Width(s[0]) == 1 && Utf8Width(s[1]) == 1 then Some(s[2..])
    else None
  }

  /** `decode_bytes`: drops two bytes (WITHOUT checking that they are "0x") and hex-decodes the
      rest; either step can panic. */
  function DecodeBytes(s: string): (r: Option<seq<Byte>>)
    ensures |s| >= 2 && s[0] as int < 0x80 && s[1] as int < 0x80 ==> r == HexDecode(s[2..])
    ensures |s| < 2 && (s == [] || s[0] as int < 0x80) ==> r.None?
  {
    match DropTwoBytes(s)
    case None => None
    case Some(rest) => HexDecode(rest)
  }

  /** The codec round trip: `decode_bytes(format_bytes_slice(b)) == b`. */
  lemma FormatThenDecode(b: seq<Byte>)
    ensures DecodeBytes(FormatBytesSlice(b)) == Some(b)
  {
    var s := FormatBytesSlice(b);
    assert s[2..] == HexEncode(b);
    HexRoundTrip(b);
  }

  /** The other direction: a `0x`-prefixed lowercase text that decodes is the formatting of its bytes. */
  lemma DecodeThenFormat(s: string)
    requires |s| >= 2 && s[..2] == "0x" && IsLowerHex(s[2..])
    requires DecodeBytes(s).Some?
    ensures FormatBytesSlice(DecodeBytes(s).value) == s
  {
    assert s[0] == '0' && s[1] == 'x';
    assert DecodeBytes(s) == HexDecode(s[2..]);
    HexEncodeOfDecoded(s[2..]);
    assert s == "0x" + s[2..];
  }

  /** `decode_bytes` does not look at what it drops: "ab12" decodes like "0x12", and so does
      "\U{e9}12", whose first character alone takes the two bytes. */
  lemma DecodeBytesIgnoresPrefix()
    ensures DecodeBytes("0x12") == Some([0x12])
    ensures DecodeBytes("ab12") == Some([0x12])
    ensures DecodeBytes("\U{e9}12") == Some([0x12])
  {
    var digits := "12";
    assert digits[2..] == "";
    assert HexValue(digits[0]) == Some(1) && HexValue(digits[1]) == Some(2);
    assert |digits| == 2 && digits != [];
    assert HexDecode(digits[2..]) == Some([]);
    assert [16 * 1 + 2] + [] == [0x12];
    assert HexDecode(digits) == Some([0x12]);
    assert "0x12"[2..] == digits;
    assert "ab12"[2..] == digits;
    assert "\U{e9}12"[1..] == digits;
  }

  // ---------------------------------------------------------------------------------------
  // byte4_from_input (format.rs:19-36)

  const ZERO_SELECTOR: seq<Byte> := [0, 0, 0, 0]

  function StripPrefix(s: string, prefix: string): (r: Option<string>)
    ensures r.Some? <==> |prefix| <= |s| && s[..|prefix|] == prefix
    ensures r.Some? ==> s == prefix + r.value
  {
    if |prefix| <= |s| && s[..|prefix|] == prefix then
      assert s == s[..|prefix|] + s[|prefix|..];
      Some(s[|prefix|..])
    else None
  }

  /** `byte4_from_input`: the method selector of a transaction input. `None` stands for the two
      `unwrap` panics: no "0x" prefix (format.rs:20) and text after it that is not valid hex
      (format.rs:26). */
  function Byte4FromInput(input: string): (r: Option<seq<Byte>>)
    ensures r.Some? ==> |r.value| == 4
    ensures r.None? <==> (|input| < 2 || input[..2] != "0x" || (|input| > 2 && HexDecode(input[2..]).None?))
  {
    match StripPrefix(input, "0x")
    case None => None
    case Some(sanitized) =>
      if sanitized == "" then Some(ZERO_SELECTOR)
      else
        match HexDecode(sanitized)
        case None => None
        case Some(inputBytes) =>
          if |inputBytes| < 4 then Some(ZERO_SELECTOR)
          else Some([inputBytes[0], inputBytes[1], inputBytes[2], inputBytes[3]])
  }

  /** The selector of a valid input is its first four bytes, or zeros when fewer than four are given. */
  lemma SelectorOfValidInput(input: string, b: seq<Byte>)
    requires |input| >= 2 && input[..2] == "0x" && HexDecode(input[2..]) == Some(b)
    ensures Byte4FromInput(input) == Some(if |b| < 4 then ZERO_SELECTOR else b[..4])
  {
    assert StripPrefix(input, "0x") == Some(input[2..]);
    if |b| >= 4 {
      assert [b[0], b[1], b[2], b[3]] == b[..4];
    }
  }

  /** A formatted byte string always yields a selector: the first four bytes, or zeros. */
  lemma SelectorOfFormatted(b: seq<Byte>)
    ensures Byte4FromInput(FormatBytesSlice(b)) == Some(if |b| < 4 then ZERO_SELECTOR else b[..4])
  {
    var s := FormatBytesSlice(b);
    assert s[2..] == HexEncode(b);
    HexRoundTrip(b);
    SelectorOfValidInput(s, b);
  }

  // ---------------------------------------------------------------------------------------
  // format_u256 (format.rs:6-8): `u.to_string().parse::<u64>().unwrap()`

  function DigitChar(d: nat): (c: char)
    requires d < 10
    ensures '0' <= c <= '9' && c as int - '0' as int == d
  {
    ('0' as int + d) as char
  }

  predicate IsDecimal(s: string)
  {
    forall i | 0 <= i < |s| :: '0' <= s[i] <= '9'
  }

  /** The decimal text `to_string` gives a number: no sign, no leading zeros. */
  function ToDecimal(n: nat): (s: string)
    ensures |s| > 0 && IsDecimal(s)
  {
    if n < 10 then [DigitChar(n)] else ToDecimal(n / 10) + [DigitChar(n % 10)]
  }

  /** The number a string of decimal digits denotes. */
  function DecimalValue(s: string): nat
    requires IsDecimal(s)
  {
    if s == [] then 0 else 10 * DecimalValue(s[..|s| - 1]) + (s[|s| - 1] as int - '0' as int)
  }

  lemma {:induction false} DecimalRoundTrip(n: nat)
    ensures DecimalValue(ToDecimal(n)) == n
  {
    if n >= 10 {
      DecimalRoundTrip(n / 10);
      var s := ToDecimal(n);
      assert s[..|s| - 1] == ToDecimal(n / 10);
    }
  }

  /** `str::parse::<u64>`: an optional '+', then one or more decimal digits whose value fits in 64 bits. */
  function ParseU64(s: string): (r: Option<U64>)
  {
    var digits := if |s| > 0 && s[0] == '+' then s[1..] else s;
    if |digits| == 0 || !IsDecimal(digits) then None
    else
      var v := DecimalValue(digits);
      if v < TWO_64 then Some(v) else None
  }

  /** `format_u256`: prints the value in decimal and parses it back as a u64. */
  function FormatU256(u: U256): (r: Option<U64>)
    ensures r.Some? <==> u < TWO_64
    ensures r.Some? ==> r.value == u
  {
    var s := ToDecimal(u);
    DecimalRoundTrip(u);
    assert s[0] != '+';
    ParseU64(s)
  }

  // ---------------------------------------------------------------------------------------
  // SerU256 (format.rs:38-58): 32 little-endian bytes

  /** `to_le_bytes` into n bytes: the least significant byte first. */
  function ToLeBytes(x: nat, n: nat): (bs: seq<Byte>)
    ensures |bs| == n
  {
    if n == 0 then [] else [x % 256] + ToLeBytes(x / 256, n - 1)
  }

  /** `from_le_slice`: the value of little-endian bytes. */
  function FromLeBytes(bs: seq<Byte>): (x: nat)
    ensures x < Pow256(|bs|)
  {
    if bs == [] then 0 else bs[0] + 256 * FromLeBytes(bs[1..])
  }

  lemma {:induction false} FromLeOfToLe(x: nat, n: nat)
    requires x < Pow256(n)
    ensures FromLeBytes(ToLeBytes(x, n)) == x
  {
    if n > 0 {
      assert x / 256 < Pow256(n - 1);
      FromLeOfToLe(x / 256, n - 1);
      assert ToLeBytes(x, n)[1..] == ToLeBytes(x / 256, n - 1);
    }
  }

  lemma {:induction false} ToLeOfFromLe(bs: seq<Byte>)
    ensures ToLeBytes(FromLeBytes(bs), |bs|) == bs
  {
    if bs != [] {
      var x := FromLeBytes(bs);
      var y := FromLeBytes(bs[1..]);
      assert x % 256 == bs[0] && x / 256 == y;
      ToLeOfFromLe(bs[1..]);
      assert bs == [bs[0]] + bs[1..];
    }
  }

  /** `SerU256::serialize_as`: the 32-byte little-endian form. */
  function SerializeU256(x: U256): (bs: seq<Byte>)
    ensures |bs| == 32
    ensures bs[0] == x % 256
  {
    ToLeBytes(x, 32)
  }

  /** `SerU256::deserialize_as`: reading anything but exactly 32 bytes is an error (the `?`). */
  function DeserializeU256(bs: seq<Byte>): (r: Option<U256>)
    ensures r.Some? <==> |bs| == 32
  {
    if |bs| != 32 then None else Some(FromLeBytes(bs))
  }

  /** Deserialising the serialised form gives back the value. */
  lemma SerU256RoundTrip(x: U256)
    ensures DeserializeU256(SerializeU256(x)) == Some(x)
  {
    FromLeOfToLe(x, 32);
  }

  /** Every 32-byte form is the serialisation of the value it deserialises to. */
  lemma SerU256Onto(bs: seq<Byte>)
    requires |bs| == 32
    ensures SerializeU256(DeserializeU256(bs).value) == bs
  {
    ToLeOfFromLe(bs);
  }
}
