/** SDO values as text and as bytes: what a download writes and what an upload shows, for every type name, and what comes
    back after one and the other. */
module SdoCodec {
  import opened Words
  import opened Text

  const MAX_SDO_DATA_SIZE: nat := 4096

  /** The types by name; everything else is a raw byte string shown in hexadecimal. */
  datatype Kind = Unsigned(size: nat) | Signed(size: nat) | Chars | Raw

  function KindOf(name: string): (k: Kind)
    ensures k.Unsigned? || k.Signed? ==> k.size == 1 || k.size == 2 || k.size == 4
  {
    var t := Lower(Trim(name));
    if t == "uint8" || t == "u8" then Unsigned(1)
    else if t == "uint16" || t == "u16" then Unsigned(2)
    else if t == "uint32" || t == "u32" then Unsigned(4)
    else if t == "int8" || t == "s8" then Signed(1)
    else if t == "int16" || t == "s16" then Signed(2)
    else if t == "int32" || t == "s32" then Signed(4)
    else if t == "string" || t == "visible_string" then Chars
    else Raw
  }

  predicate Supported(k: Kind) {
    k.Unsigned? || k.Signed? ==> k.size == 1 || k.size == 2 || k.size == 4
  }

  // ---- Text to numbers ----

  /** An unsigned 32-bit number: white space around it and a plus sign are accepted. */
  function ParseUInt(s: string): (r: Option<nat>)
    ensures r.Some? ==> r.value < TWO_32
  {
    var t := Trim(s);
    var d := if t != "" && t[0] == '+' then t[1..] else t;
    if d != "" && AllDigits(d) && Value(d) < TWO_32 then Some(Value(d)) else None
  }

  /** A signed 32-bit number, likewise, or with a minus sign. */
  function ParseInt(s: string): (r: Option<int>)
    ensures r.Some? ==> -0x8000_0000 <= r.value < 0x8000_0000
  {
    var t := Trim(s);
    var negative := t != "" && t[0] == '-';
    var d := if negative || (t != "" && t[0] == '+') then t[1..] else t;
    if d == "" || !AllDigits(d) then None
    else
      var v: int := Value(d);
      var n: int := if negative then -v else v;
      if -0x8000_0000 <= n < 0x8000_0000 then Some(n) else None
  }

  // ---- Bytes of text ----

  /** toLatin1: a character outside the first 256 becomes a question mark. */
  function ToLatin1(s: string): (b: seq<Byte>)
    ensures |b| == |s|
  {
    seq(|s|, i requires 0 <= i < |s| => if s[i] as int < 256 then s[i] as int else 63)
  }

  function FromLatin1(b: seq<Byte>): (s: string)
    ensures |s| == |b|
  {
    seq(|b|, i requires 0 <= i < |b| => b[i] as char)
  }

  function HexDump(b: seq<Byte>): string {
    if b == [] then "" else HexDump(b[..|b| - 1]) + Hex(b[|b| - 1], 2)
  }

  predicate IsHexDigit(c: char) {
    '0' <= c <= '9' || 'a' <= c <= 'f' || 'A' <= c <= 'F'
  }

  function HexDigitsOf(s: string): (d: string)
    ensures forall i :: 0 <= i < |d| ==> IsHexDigit(d[i])
  {
    if s == "" then "" else (if IsHexDigit(s[0]) then [s[0]] else []) + HexDigitsOf(s[1..])
  }

  /** Digits in pairs from the right; a digit left over in front stands alone. */
  function Pairs(d: string): (b: seq<Byte>)
    decreases |d|
  {
    if d == "" then []
    else if |d| == 1 then [HexDigitValue(d[0])]
    else Pairs(d[..|d| - 2]) + [16 * HexDigitValue(d[|d| - 2]) + HexDigitValue(d[|d| - 1])]
  }

  function WithoutPrefix(s: string): string {
    if |s| >= 2 && s[0] == '0' && (s[1] == 'x' || s[1] == 'X') then s[2..] else s
  }

  /** QByteArray::fromHex after trimming and removing a "0x": other characters are skipped. */
  function FromHex(s: string): seq<Byte> {
    Pairs(HexDigitsOf(WithoutPrefix(Trim(s))))
  }

  function Limited(b: seq<Byte>): (r: seq<Byte>)
    ensures |r| <= MAX_SDO_DATA_SIZE
  {
    if |b| > MAX_SDO_DATA_SIZE then b[..MAX_SDO_DATA_SIZE] else b
  }

  // ---- The codec ----

  /** What a download writes; None when the value does not parse. */
  function Encoded(k: Kind, value: string): (r: Option<seq<Byte>>)
    ensures r.Some? && Supported(k) ==> |r.value| <= MAX_SDO_DATA_SIZE
  {
    match k
    case Unsigned(n) => (match ParseUInt(value) case None => None case Some(v) => Some(ToBytes(v, n)))
    case Signed(n) => (match ParseInt(value) case None => None case Some(v) => Some(ToBytes(v % Pow256(n), n)))
    case Chars => Some(Limited(ToLatin1(value)))
    case Raw => Some(Limited(FromHex(value)))
  }

  /** Two's complement of a word of `n` bytes. */
  function AsSigned(v: nat, n: nat): int {
    if 2 * v >= Pow256(n) then v - Pow256(n) else v
  }

  /** What an upload shows; a value shorter than its type is shown in hexadecimal. */
  function Decoded(k: Kind, b: seq<Byte>): string {
    if b == [] then ""
    else match k
      case Unsigned(n) => if |b| >= n then Decimal(FromBytes(b[..n])) else HexDump(b)
      case Signed(n) => if |b| >= n then IntText(AsSigned(FromBytes(b[..n]), n)) else HexDump(b)
      case Chars => FromLatin1(b)
      case Raw => HexDump(b)
  }

  // ---- By type name ----

  /** What `b` is shown as under each name, byte by byte: one-byte numbers. */
  lemma ShownAsByte(name: string, b: seq<Byte>)
    requires |b| >= 1
    ensures var t, text, b0: int := Lower(Trim(name)), Decoded(KindOf(name), b), b[0];
      && (t == "uint8" || t == "u8" ==> text == Decimal(b0))
      && (t == "int8" || t == "s8" ==> text == IntText(if b0 < 0x80 then b0 else b0 - 0x100))
  {
    Widths();
    FirstBytes(b);
    hide Decimal, IntText, FromBytes, Pow256, HexDump, Lower, Trim, ToLatin1;
  }

  /** Two-byte numbers. */
  lemma ShownAsWord(name: string, b: seq<Byte>)
    requires |b| >= 2
    ensures var t, text, word := Lower(Trim(name)), Decoded(KindOf(name), b), WordOf(b);
      && (t == "uint16" || t == "u16" ==> text == Decimal(word))
      && (t == "int16" || t == "s16" ==> text == IntText(if word < 0x8000 then word else word - 0x1_0000))
  {
    Widths();
    FirstBytes(b);
    hide Decimal, IntText, FromBytes, Pow256, HexDump, Lower, Trim, ToLatin1;
  }

  /** Four-byte numbers. */
  lemma ShownAsLong(name: string, b: seq<Byte>)
    requires |b| >= 4
    ensures var t, text, word := Lower(Trim(name)), Decoded(KindOf(name), b), LongOf(b);
      && (t == "uint32" || t == "u32" ==> text == Decimal(word))
      && (t == "int32" || t == "s32" ==> text == IntText(if word < 0x8000_0000 then word else word - 0x1_0000_0000))
  {
    NamesOfFour(name);
    Widths();
    FirstBytes(b);
    hide Decimal, IntText, FromBytes, Pow256, HexDump, Lower, Trim, ToLatin1, KindOf, LongOf;
  }

  lemma NamesOfFour(name: string)
    ensures Lower(Trim(name)) == "uint32" || Lower(Trim(name)) == "u32" ==> KindOf(name) == Unsigned(4)
    ensures Lower(Trim(name)) == "int32" || Lower(Trim(name)) == "s32" ==> KindOf(name) == Signed(4)
  {
    hide Lower, Trim;
  }

  /** Text. */
  lemma ShownAsText(name: string, b: seq<Byte>)
    requires b != [] && (Lower(Trim(name)) == "string" || Lower(Trim(name)) == "visible_string")
    ensures var text := Decoded(KindOf(name), b);
      |text| == |b| && forall i :: 0 <= i < |b| ==> text[i] as int == b[i]
  {
    hide Decimal, IntText, FromBytes, Pow256, HexDump, Lower, Trim, ToLatin1;
  }

  /** What every other name shows, and a value shorter than its type. */
  lemma DumpedByName(name: string, b: seq<Byte>)
    requires b != []
    requires var t := Lower(Trim(name));
      && t != "string" && t != "visible_string" && t != "uint8" && t != "u8" && t != "int8" && t != "s8"
      && (|b| >= 2 ==> t != "uint16" && t != "u16" && t != "int16" && t != "s16")
      && (|b| >= 4 ==> t != "uint32" && t != "u32" && t != "int32" && t != "s32")
    ensures var text := Decoded(KindOf(name), b);
      && |text| == 2 * |b|
      && forall i :: 0 <= i < |b| ==>
           text[2 * i] == "0123456789abcdef"[b[i] / 16] && text[2 * i + 1] == "0123456789abcdef"[b[i] % 16]
  {
    assert Decoded(KindOf(name), b) == HexDump(b) by {
      hide Lower, Trim, HexDump, Decimal, IntText, FromBytes;
    }
    DumpDigits(b);
    hide *;
  }

  /** What a download under each name writes: one-byte numbers, modulo their width. */
  lemma WrittenAsByte(name: string, value: string)
    ensures var t, r, u, i := Lower(Trim(name)), Encoded(KindOf(name), value), ParseUInt(value), ParseInt(value);
      && (t == "uint8" || t == "u8" ==>
           (u.None? ==> r.None?) && (u.Some? ==> r.Some? && |r.value| == 1 && r.value[0] == u.value % 0x100))
      && (t == "int8" || t == "s8" ==>
           (i.None? ==> r.None?) && (i.Some? ==> r.Some? && |r.value| == 1 && r.value[0] == i.value % 0x100))
  {
    Widths();
    var u, i := ParseUInt(value), ParseInt(value);
    BytesOfWord(if u.None? then 0 else u.value, 1);
    BytesOfWord(if i.None? then 0 else i.value, 1);
    hide Pow256, Lower, Trim, ParseUInt, ParseInt, ToLatin1, FromHex, Limited, ToBytes, LongOf, WordOf;
  }

  /** Two-byte numbers. */
  lemma WrittenAsWord(name: string, value: string)
    ensures var t, r, u, i := Lower(Trim(name)), Encoded(KindOf(name), value), ParseUInt(value), ParseInt(value);
      && (t == "uint16" || t == "u16" ==>
           (u.None? ==> r.None?) && (u.Some? ==> r.Some? && |r.value| == 2 && WordOf(r.value) == u.value % 0x1_0000))
      && (t == "int16" || t == "s16" ==>
           (i.None? ==> r.None?) && (i.Some? ==> r.Some? && |r.value| == 2 && WordOf(r.value) == i.value % 0x1_0000))
  {
    Widths();
    var u, i := ParseUInt(value), ParseInt(value);
    BytesOfWord(if u.None? then 0 else u.value, 2);
    BytesOfWord(if i.None? then 0 else i.value, 2);
    hide Pow256, Lower, Trim, ParseUInt, ParseInt, ToLatin1, FromHex, Limited, ToBytes, LongOf, WordOf;
  }

  /** Four-byte numbers. */
  lemma WrittenAsLong(name: string, value: string)
    ensures var t, r, u, i := Lower(Trim(name)), Encoded(KindOf(name), value), ParseUInt(value), ParseInt(value);
      && (t == "uint32" || t == "u32" ==>
           (u.None? ==> r.None?) && (u.Some? ==> r.Some? && |r.value| == 4 && LongOf(r.value) == u.value % 0x1_0000_0000))
      && (t == "int32" || t == "s32" ==>
           (i.None? ==> r.None?) && (i.Some? ==> r.Some? && |r.value| == 4 && LongOf(r.value) == i.value % 0x1_0000_0000))
  {
    NamesOfFour(name);
    Widths();
    var u, i := ParseUInt(value), ParseInt(value);
    BytesOfWord(if u.None? then 0 else u.value, 4);
    BytesOfWord(if i.None? then 0 else i.value, 4);
    hide Pow256, Lower, Trim, ParseUInt, ParseInt, ToLatin1, FromHex, Limited, ToBytes, LongOf, WordOf, KindOf;
  }

  lemma BytesOfWord(v: int, n: nat)
    requires n == 1 || n == 2 || n == 4
    ensures var b := ToBytes(v % Pow256(n), n);
      && (n == 1 ==> b[0] == v % 0x100) && (n == 2 ==> WordOf(b) == v % 0x1_0000)
      && (n == 4 ==> LongOf(b) == v % 0x1_0000_0000)
    ensures v >= 0 ==> ToBytes(v, n) == ToBytes(v % Pow256(n), n)
  {
    Widths();
    var w := v % Pow256(n);
    SmallMod(w, Pow256(n));
    ToBytesThenFromBytes(w, n);
    FirstBytes(ToBytes(w, n));
    WholeBytes(w, n);
    if v >= 0 {
      ToBytesThenFromBytes(v, n);
      FromBytesThenToBytes(ToBytes(v, n));
      FromBytesThenToBytes(ToBytes(w, n));
    }
    hide ToBytes, FromBytes, Pow256, LongOf, WordOf;
  }

  /** Text, one byte a character; what is not Latin-1 becomes a question mark, and at most 4096 bytes are written. */
  lemma WrittenAsText(name: string, value: string)
    requires Lower(Trim(name)) == "string" || Lower(Trim(name)) == "visible_string"
    ensures var r := Encoded(KindOf(name), value);
      && r.Some? && |r.value| == (if |value| > 4096 then 4096 else |value|)
      && forall i :: 0 <= i < |r.value| ==> r.value[i] == if value[i] as int < 256 then value[i] as int else '?' as int
  {
    hide Lower, Trim, ParseUInt, ParseInt, FromHex;
  }

  /** Which texts are unsigned numbers, and which number each one is. */
  lemma ParsedUnsigned(a: string, sign: string, d: string, b: string)
    requires Blank(a) && Blank(b) && d != "" && AllDigits(d) && (sign == "" || sign == "+" || sign == "-")
    ensures ParseUInt(a + (sign + d) + b) == if sign != "-" && Value(d) < 0x1_0000_0000 then Some(Value(d)) else None
  {
    SignedNumeral(a, sign, d, b);
    hide Trim, Value, Blank;
  }

  /** And which are signed ones. */
  lemma ParsedSigned(a: string, sign: string, d: string, b: string)
    requires Blank(a) && Blank(b) && d != "" && AllDigits(d) && (sign == "" || sign == "+" || sign == "-")
    ensures var v: int := if sign == "-" then 0 - Value(d) else Value(d);
      ParseInt(a + (sign + d) + b) == if -0x8000_0000 <= v <= 0x7FFF_FFFF then Some(v) else None
  {
    SignedNumeral(a, sign, d, b);
    IntegerOf(a + (sign + d) + b, sign, d);
    hide *;
  }

  lemma IntegerOf(s: string, sign: string, d: string)
    requires d != "" && AllDigits(d) && (sign == "" || sign == "+" || sign == "-") && Trim(s) == sign + d
    ensures var v: int := if sign == "-" then 0 - Value(d) else Value(d);
      ParseInt(s) == if -0x8000_0000 <= v <= 0x7FFF_FFFF then Some(v) else None
  {
    var t := Trim(s);
    if sign == "" {
      assert t == d && IsDigit(t[0]);
    } else {
      assert t[0] == sign[0] && t[1..] == d;
    }
    hide Trim, Value, AllDigits;
  }

  lemma SignedNumeral(a: string, sign: string, d: string, b: string)
    requires Blank(a) && Blank(b) && d != "" && AllDigits(d) && (sign == "" || sign == "+" || sign == "-")
    ensures Trim(a + (sign + d) + b) == sign + d
    ensures if sign == "" then sign + d == d && IsDigit(d[0]) else (sign + d)[0] == sign[0] && (sign + d)[1..] == d
  {
    var w := sign + d;
    assert sign == "" ==> w == d;
    assert IsDigit(d[|d| - 1]) && IsDigit(d[0]) && w[|w| - 1] == d[|d| - 1];
    assert [w[0]][0] == w[0] && [w[|w| - 1]][0] == w[|w| - 1];
    TrimAround(a, w, b);
  }

  /** No other text is taken for a number. */
  lemma OnlyNumeralsParse(s: string) returns (a: string, sign: string, d: string, b: string)
    requires ParseUInt(s).Some? || ParseInt(s).Some?
    ensures s == a + (sign + d) + b && Blank(a) && Blank(b) && d != "" && AllDigits(d)
    ensures sign == "" || sign == "+" || sign == "-"
  {
    a, b := TrimSplits(s);
    var t := Trim(s);
    sign := if t[0] == '+' || t[0] == '-' then [t[0]] else "";
    d := t[|sign|..];
    assert t == sign + d;
    hide Trim, Value, Blank;
  }

  /** Under a name of `n` bytes exactly the numbers that fit come back unchanged; the others come back as another. */
  lemma UnsignedRange(name: string, v: nat)
    requires v < 0x1_0000_0000
    ensures var t, k := Lower(Trim(name)), KindOf(name);
      && (t == "uint8" || t == "u8" ==>
           Encoded(k, Decimal(v)).Some? && (Decoded(k, Encoded(k, Decimal(v)).value) == Decimal(v) <==> v < 0x100))
      && (t == "uint16" || t == "u16" ==>
           Encoded(k, Decimal(v)).Some? && (Decoded(k, Encoded(k, Decimal(v)).value) == Decimal(v) <==> v < 0x1_0000))
      && (t == "uint32" || t == "u32" ==>
           Encoded(k, Decimal(v)).Some? && Decoded(k, Encoded(k, Decimal(v)).value) == Decimal(v))
  {
    UnsignedBack(1, v);
    UnsignedBack(2, v);
    UnsignedBack(4, v);
    Widths();
    hide Lower, Trim, Encoded, Decoded, Decimal, Pow256;
  }

  lemma UnsignedBack(n: nat, v: nat)
    requires (n == 1 || n == 2 || n == 4) && v < 0x1_0000_0000
    ensures Encoded(Unsigned(n), Decimal(v)).Some?
    ensures Decoded(Unsigned(n), Encoded(Unsigned(n), Decimal(v)).value) == Decimal(v) <==> v < Pow256(n)
  {
    ParseDecimal(v);
    UnsignedModuloWidth(n, Decimal(v));
    DecimalInjective(v % Pow256(n), v);
    hide Decimal, ParseUInt, Decoded, ToBytes, Pow256;
    if v < Pow256(n) {
      SmallMod(v, Pow256(n));
    }
  }

  lemma SignedRange(name: string, v: int)
    requires -0x8000_0000 <= v < 0x8000_0000
    ensures var t, k := Lower(Trim(name)), KindOf(name);
      && (t == "int8" || t == "s8" ==>
           Encoded(k, IntText(v)).Some? && (Decoded(k, Encoded(k, IntText(v)).value) == IntText(v) <==> -0x80 <= v < 0x80))
      && (t == "int16" || t == "s16" ==>
           && Encoded(k, IntText(v)).Some?
           && (Decoded(k, Encoded(k, IntText(v)).value) == IntText(v) <==> -0x8000 <= v < 0x8000))
      && (t == "int32" || t == "s32" ==>
           Encoded(k, IntText(v)).Some? && Decoded(k, Encoded(k, IntText(v)).value) == IntText(v))
  {
    hide Lower, Trim, Encoded, Decoded, IntText, Pow256;
    SignedBackIff(1, v);
    SignedBackIff(2, v);
    SignedBackIff(4, v);
  }

  lemma SignedBackIff(n: nat, v: int)
    requires (n == 1 || n == 2 || n == 4) && -0x8000_0000 <= v < 0x8000_0000
    ensures Encoded(Signed(n), IntText(v)).Some?
    ensures Decoded(Signed(n), Encoded(Signed(n), IntText(v)).value) == IntText(v)
      <==> if n == 1 then -0x80 <= v < 0x80 else if n == 2 then -0x8000 <= v < 0x8000 else true
  {
    Widths();
    ParseIntText(v);
    SignedModuloWidth(n, IntText(v));
    var w := AsSigned(v % Pow256(n), n);
    IntValueOfText(v);
    IntValueOfText(w);
    assert 0 <= 2 * w + Pow256(n) < 2 * Pow256(n);
    hide IntText, ParseInt, Decoded, ToBytes, AsSigned, IntValue, Pow256;
    if 0 <= 2 * v + Pow256(n) < 2 * Pow256(n) {
      SignedWord(v, n);
    }
  }

  /** What a download under any other name writes for blanks, an optional prefix, hexadecimal digits and blanks: the
      digits two by two from the right, the first alone if their number is odd, and the first 4096 bytes of that. */
  lemma WrittenAsHex(name: string, a: string, prefix: string, d: string, b: string, k: nat)
    requires var t := Lower(Trim(name));
      && t != "uint8" && t != "u8" && t != "uint16" && t != "u16" && t != "uint32" && t != "u32" && t != "string"
      && t != "int8" && t != "s8" && t != "int16" && t != "s16" && t != "int32" && t != "s32" && t != "visible_string"
    requires Blank(a) && Blank(b) && AllHex(d) && d != "" && 2 * k < |d|
    requires prefix == "" || prefix == "0x" || prefix == "0X"
    ensures var r, n, at := Encoded(KindOf(name), a + (prefix + d) + b), (|d| + 1) / 2, |d| - 2 * k;
      && r.Some? && |r.value| == (if n <= 4096 then n else 4096)
      && (n - 1 - k < 4096 ==> r.value[n - 1 - k] == HexValue(if at >= 2 then d[at - 2..at] else d[..1]))
  {
    OtherNames(name);
    RawWritten(a, prefix, d, b, k);
    hide *;
  }

  lemma RawWritten(a: string, prefix: string, d: string, b: string, k: nat)
    requires Blank(a) && Blank(b) && AllHex(d) && d != "" && 2 * k < |d|
    requires prefix == "" || prefix == "0x" || prefix == "0X"
    ensures var r, n, at := Encoded(Raw, a + (prefix + d) + b), (|d| + 1) / 2, |d| - 2 * k;
      && r.Some? && |r.value| == (if n <= 4096 then n else 4096)
      && (n - 1 - k < 4096 ==> r.value[n - 1 - k] == HexValue(if at >= 2 then d[at - 2..at] else d[..1]))
  {
    PrefixOff(a, prefix, d, b);
    HexDigitsOfAll(d);
    PairsWritten(a + (prefix + d) + b, d, k);
    assert PairAt(d, k) == if |d| - 2 * k >= 2 then d[|d| - 2 * k - 2..|d| - 2 * k] else d[..1] by {
      hide Blank, AllHex, Trim, WithoutPrefix, HexDigitsOf, Encoded, HexValue;
    }
    hide *;
  }

  lemma PairsWritten(value: string, d: string, k: nat)
    requires HexDigitsOf(WithoutPrefix(Trim(value))) == d && 2 * k < |d|
    ensures var r, n := Encoded(Raw, value), (|d| + 1) / 2;
      && r.Some? && |r.value| == (if n <= 4096 then n else 4096)
      && (n - 1 - k < 4096 ==> r.value[n - 1 - k] == HexValue(PairAt(d, k)))
  {
    assert Encoded(Raw, value) == Some(Limited(Pairs(d))) by {
      hide Pairs, HexDigitsOf, WithoutPrefix, Trim, HexValue, PairAt, Limited;
    }
    PairsFromRight(d, k);
    PairsLength(d);
    FirstPart(Pairs(d));
    hide *;
  }

  lemma FirstPart(b: seq<Byte>)
    ensures |Limited(b)| == (if |b| <= 4096 then |b| else 4096)
    ensures forall i :: 0 <= i < |Limited(b)| ==> Limited(b)[i] == b[i]
  {
  }

  lemma OtherNames(name: string)
    requires var t := Lower(Trim(name));
      && t != "uint8" && t != "u8" && t != "uint16" && t != "u16" && t != "uint32" && t != "u32" && t != "string"
      && t != "int8" && t != "s8" && t != "int16" && t != "s16" && t != "int32" && t != "s32" && t != "visible_string"
    ensures KindOf(name) == Raw
  {
    hide Lower, Trim;
  }

  lemma PrefixOff(a: string, prefix: string, d: string, b: string)
    requires Blank(a) && Blank(b) && AllHex(d) && d != "" && (prefix == "" || prefix == "0x" || prefix == "0X")
    ensures WithoutPrefix(Trim(a + (prefix + d) + b)) == d
  {
    var w := prefix + d;
    assert prefix == "" ==> w == d;
    assert IsHexDigit(d[0]) && IsHexDigit(d[|d| - 1]) && w[|w| - 1] == d[|d| - 1];
    assert |d| > 1 ==> IsHexDigit(d[1]);
    assert [w[0]][0] == w[0] && [w[|w| - 1]][0] == w[|w| - 1];
    TrimAround(a, w, b);
    hide Trim, AllHex, IsHexDigit;
    assert prefix != "" ==> w[2..] == d;
  }

  /** Pair `k` of the digits, counted from the right. */
  function PairAt(d: string, k: nat): string
    requires 2 * k < |d|
  {
    var at := |d| - 2 * k;
    if at >= 2 then d[at - 2..at] else d[..1]
  }

  lemma PairInFront(front: string, h: char, l: char, k: nat)
    requires 2 * k < |front|
    ensures PairAt(front + [h, l], k + 1) == PairAt(front, k)
  {
  }

  lemma LastPairAt(front: string, h: char, l: char)
    ensures PairAt(front + [h, l], 0) == [h, l]
  {
  }

  lemma PairsOneMore(front: string, h: char, l: char)
    ensures var p, more := Pairs(front), Pairs(front + [h, l]);
      && |more| == |p| + 1 && more[|p|] == HexValue([h, l])
      && forall i :: 0 <= i < |p| ==> more[i] == p[i]
  {
    PairsSnoc(front, h, l);
    TwoDigitValue(h, l);
    hide Pairs, HexValue, HexDigitValue;
  }

  lemma {:induction false} PairsLength(d: string)
    ensures |Pairs(d)| == (|d| + 1) / 2
    decreases |d|
  {
    if |d| >= 2 {
      PairsLength(d[..|d| - 2]);
    }
  }

  lemma RightmostPair(d: string)
    requires d != ""
    ensures Pairs(d) != [] && Pairs(d)[|Pairs(d)| - 1] == HexValue(PairAt(d, 0))
  {
    if |d| == 1 {
      OneDigit(d[0]);
      assert d == [d[0]] && PairAt(d, 0) == d;
      hide Pairs, HexValue, PairAt;
    } else {
      var front, h, l := d[..|d| - 2], d[|d| - 2], d[|d| - 1];
      assert d == front + [h, l];
      PairsOneMore(front, h, l);
      LastPairAt(front, h, l);
      hide Pairs, HexValue, PairAt;
    }
  }

  lemma {:induction false} PairsFromRight(d: string, k: nat)
    requires 2 * k < |d|
    ensures k < |Pairs(d)| && Pairs(d)[|Pairs(d)| - 1 - k] == HexValue(PairAt(d, k))
    decreases |d|
  {
    if k == 0 {
      RightmostPair(d);
    } else {
      var front, h, l := d[..|d| - 2], d[|d| - 2], d[|d| - 1];
      assert d == front + [h, l];
      PairsOneMore(front, h, l);
      PairsFromRight(front, k - 1);
      PairInFront(front, h, l, k - 1);
    }
    hide Pairs, HexValue, PairAt;
  }

  lemma OneDigit(c: char)
    ensures HexValue([c]) == HexDigitValue(c) && Pairs([c]) == [HexDigitValue(c)]
  {
    assert [c][..0] == "";
  }

  lemma TwoDigitValue(h: char, l: char)
    ensures HexValue([h, l]) == 16 * HexDigitValue(h) + HexDigitValue(l)
  {
    OneDigit(h);
    assert [h, l][..1] == [h];
    hide HexDigitValue;
  }

  /** The digits are found among any other characters. */
  lemma {:induction false} DigitsAmong(p: string, c: char, q: string)
    ensures HexDigitsOf(p + [c] + q)
      == HexDigitsOf(p) + (if c in "0123456789abcdefABCDEF" then [c] else "") + HexDigitsOf(q)
  {
    if p == "" {
      assert p + [c] + q == [c] + q && ([c] + q)[1..] == q;
      HexChars(c);
    } else {
      var s := p + [c] + q;
      assert s[0] == p[0] && s[1..] == p[1..] + [c] + q;
      DigitsAmong(p[1..], c, q);
    }
  }

  lemma HexChars(c: char)
    ensures IsHexDigit(c) <==> c in "0123456789abcdefABCDEF"
  {
    var s := "0123456789abcdefABCDEF";
    if '0' <= c <= '9' {
      assert s[(c - '0') as int] == c;
    } else if 'a' <= c <= 'f' {
      assert s[10 + (c - 'a') as int] == c;
    } else if 'A' <= c <= 'F' {
      assert s[16 + (c - 'A') as int] == c;
    }
  }

  /** The first two bytes as a number, least significant first. */
  function WordOf(b: seq<Byte>): (v: int)
    requires |b| >= 2
    ensures 0 <= v < 0x1_0000 && (v >= 0x8000 <==> b[1] >= 0x80)
  {
    var b0: int, b1: int := b[0], b[1];
    b0 + 0x100 * b1
  }

  /** The first four bytes as a word, least significant first. */
  function LongOf(b: seq<Byte>): (v: int)
    requires |b| >= 4
    ensures 0 <= v < 0x1_0000_0000 && (v >= 0x8000_0000 <==> b[3] >= 0x80)
  {
    var b0: int, b1: int, b2: int, b3: int := b[0], b[1], b[2], b[3];
    b0 + 0x100 * b1 + 0x1_0000 * b2 + 0x100_0000 * b3
  }

  lemma FirstBytes(b: seq<Byte>)
    requires b != []
    ensures FromBytes(b[..1]) == b[0]
    ensures |b| >= 2 ==> FromBytes(b[..2]) == WordOf(b)
    ensures |b| >= 4 ==> FromBytes(b[..4]) == LongOf(b)
  {
    LowByte(b, 1);
    if |b| >= 2 {
      LowByte(b, 2);
      LowByte(b[1..], 1);
    }
    if |b| >= 4 {
      LowByte(b, 4);
      LowByte(b[1..], 3);
      LowByte(b[2..], 2);
      LowByte(b[3..], 1);
      assert b[1..][1..] == b[2..] && b[2..][1..] == b[3..];
    }
    hide FromBytes;
  }

  lemma LowByte(b: seq<Byte>, n: nat)
    requires 0 < n <= |b|
    ensures FromBytes(b[..n]) == b[0] + 256 * (if n == 1 then 0 else FromBytes(b[1..][..n - 1]))
  {
    assert b[..n][1..] == b[1..][..n - 1];
  }

  lemma {:induction false} DumpDigits(b: seq<Byte>)
    ensures |HexDump(b)| == 2 * |b|
    ensures forall i :: 0 <= i < |b| ==>
      HexDump(b)[2 * i] == "0123456789abcdef"[b[i] / 16] && HexDump(b)[2 * i + 1] == "0123456789abcdef"[b[i] % 16]
  {
    if b != [] {
      DumpDigits(b[..|b| - 1]);
      LastByte(b);
      DumpSnoc(b[..|b| - 1], b[|b| - 1]);
    }
  }

  /** Fills the buffer, sets the size. */
  method Fill(data: array<Byte>, kind: Kind, value: string) returns (ok: bool, size: nat)
    requires data.Length == MAX_SDO_DATA_SIZE && Supported(kind)
    modifies data
    ensures ok == Encoded(kind, value).Some?
    ensures ok ==> size <= data.Length && data[..size] == Encoded(kind, value).value
  {
    var bytes: seq<Byte> := [];
    match kind {
      case Unsigned(n) =>
        var v := ParseUInt(value);
        if v.None? {
          return false, 0;
        }
        bytes := ToBytes(v.value, n);
      case Signed(n) =>
        var v := ParseInt(value);
        if v.None? {
          return false, 0;
        }
        bytes := ToBytes(v.value % Pow256(n), n);
      case Chars => bytes := Limited(ToLatin1(value));
      case Raw => bytes := Limited(FromHex(value));
    }
    ok, size := true, |bytes|;
    forall i | 0 <= i < size {
      data[i] := bytes[i];
    }
  }

  /** The encoding part of download(). */
  method EncodeValue(data: array<Byte>, name: string, value: string) returns (ok: bool, size: nat)
    requires data.Length == MAX_SDO_DATA_SIZE
    modifies data
    ensures ok == Encoded(KindOf(name), value).Some?
    ensures ok ==> size <= data.Length && data[..size] == Encoded(KindOf(name), value).value
    ensures var t, u, i := Lower(Trim(name)), ParseUInt(value), ParseInt(value);
      && (t == "uint8" || t == "u8" ==> ok == u.Some? && (ok ==> size == 1 && data[0] == u.value % 0x100))
      && (t == "int8" || t == "s8" ==> ok == i.Some? && (ok ==> size == 1 && data[0] == i.value % 0x100))
    ensures var t, u, i := Lower(Trim(name)), ParseUInt(value), ParseInt(value);
      && (t == "uint16" || t == "u16" ==> ok == u.Some? && (ok ==> size == 2 && WordOf(data[..2]) == u.value % 0x1_0000))
      && (t == "int16" || t == "s16" ==> ok == i.Some? && (ok ==> size == 2 && WordOf(data[..2]) == i.value % 0x1_0000))
    ensures var t, u, i := Lower(Trim(name)), ParseUInt(value), ParseInt(value);
      && (t == "uint32" || t == "u32" ==>
           ok == u.Some? && (ok ==> size == 4 && LongOf(data[..4]) == u.value % 0x1_0000_0000))
      && (t == "int32" || t == "s32" ==>
           ok == i.Some? && (ok ==> size == 4 && LongOf(data[..4]) == i.value % 0x1_0000_0000))
    ensures var t := Lower(Trim(name));
      t == "string" || t == "visible_string" ==>
        ok && size == (if |value| > 4096 then 4096 else |value|)
        && forall i :: 0 <= i < size ==> data[i] == if value[i] as int < 256 then value[i] as int else '?' as int
  {
    WrittenAsByte(name, value);
    WrittenAsWord(name, value);
    WrittenAsLong(name, value);
    ghost var t := Lower(Trim(name));
    if t == "string" || t == "visible_string" {
      WrittenAsText(name, value);
    }
    hide *;
    ok, size := Fill(data, KindOf(name), value);
  }

  /** The default of upload(): a loop over the bytes, two digits each. */
  method DumpBytes(buf: array<Byte>, resultSize: nat) returns (hex: string)
    requires resultSize <= buf.Length
    ensures hex == HexDump(buf[..resultSize])
  {
    hex := "";
    for i := 0 to resultSize
      invariant hex == HexDump(buf[..i])
    {
      hex := hex + Hex(buf[i], 2);
      assert buf[..i + 1][..i] == buf[..i];
    }
  }

  method Show(buf: array<Byte>, resultSize: nat, kind: Kind) returns (text: string)
    requires resultSize <= buf.Length
    ensures text == Decoded(kind, buf[..resultSize])
  {
    if resultSize == 0 {
      return "";
    }
    ghost var b := buf[..resultSize];
    match kind {
      case Unsigned(n) =>
        if resultSize >= n {
          assert b[..n] == buf[..n];
          return Decimal(FromBytes(buf[..n]));
        }
      case Signed(n) =>
        if resultSize >= n {
          assert b[..n] == buf[..n];
          return IntText(AsSigned(FromBytes(buf[..n]), n));
        }
      case Chars => return FromLatin1(buf[..resultSize]);
      case Raw =>
    }
    text := DumpBytes(buf, resultSize);
  }

  /** What upload() shows. */
  method DecodeValue(buf: array<Byte>, resultSize: nat, name: string) returns (text: string)
    requires resultSize <= buf.Length
    ensures text == Decoded(KindOf(name), buf[..resultSize])
    ensures resultSize == 0 ==> text == ""
    ensures var t := Lower(Trim(name));
      resultSize >= 1 ==>
        var b0: int := buf[..resultSize][0];
        && (t == "uint8" || t == "u8" ==> text == Decimal(b0))
        && (t == "int8" || t == "s8" ==> text == IntText(if b0 < 0x80 then b0 else b0 - 0x100))
    ensures var t := Lower(Trim(name));
      resultSize >= 1 && (t == "string" || t == "visible_string") ==>
        var b := buf[..resultSize];
        |text| == |b| && forall i :: 0 <= i < |b| ==> text[i] as int == b[i]
    ensures var t := Lower(Trim(name));
      resultSize >= 2 ==>
        var word := WordOf(buf[..resultSize]);
        && (t == "uint16" || t == "u16" ==> text == Decimal(word))
        && (t == "int16" || t == "s16" ==> text == IntText(if word < 0x8000 then word else word - 0x1_0000))
    ensures var t := Lower(Trim(name));
      resultSize >= 4 ==>
        var word := LongOf(buf[..resultSize]);
        && (t == "uint32" || t == "u32" ==> text == Decimal(word))
        && (t == "int32" || t == "s32" ==> text == IntText(if word < 0x8000_0000 then word else word - 0x1_0000_0000))
  {
    hide *;
    text := Show(buf, resultSize, KindOf(name));
    ShownByName(name, buf[..resultSize]);
  }

  lemma ShownByName(name: string, b: seq<Byte>)
    ensures var t, text := Lower(Trim(name)), Decoded(KindOf(name), b);
      && (b == [] ==> text == "")
      && (|b| >= 1 ==>
           var b0: int := b[0];
           && (t == "uint8" || t == "u8" ==> text == Decimal(b0))
           && (t == "int8" || t == "s8" ==> text == IntText(if b0 < 0x80 then b0 else b0 - 0x100)))
      && (|b| >= 1 && (t == "string" || t == "visible_string") ==>
           |text| == |b| && forall i :: 0 <= i < |b| ==> text[i] as int == b[i])
      && (|b| >= 2 ==>
           var word := WordOf(b);
           && (t == "uint16" || t == "u16" ==> text == Decimal(word))
           && (t == "int16" || t == "s16" ==> text == IntText(if word < 0x8000 then word else word - 0x1_0000)))
      && (|b| >= 4 ==>
           var word := LongOf(b);
           && (t == "uint32" || t == "u32" ==> text == Decimal(word))
           && (t == "int32" || t == "s32" ==> text == IntText(if word < 0x8000_0000 then word else word - 0x1_0000_0000)))
  {
    var t := Lower(Trim(name));
    if |b| >= 1 {
      ShownAsByte(name, b);
      if t == "string" || t == "visible_string" {
        ShownAsText(name, b);
      }
    }
    if |b| >= 2 {
      ShownAsWord(name, b);
    }
    if |b| >= 4 {
      ShownAsLong(name, b);
    }
    hide Lower, Trim, KindOf, LongOf, WordOf, Decimal, IntText;
  }

  // ---- Round trips: integers ----

  lemma {:induction false} TrimNothing(s: string)
    requires s != "" ==> !IsSpace(s[0]) && !IsSpace(s[|s| - 1])
    ensures Trim(s) == s
  {
  }

  lemma WholeBytes(v: nat, n: nat)
    ensures ToBytes(v, n)[..n] == ToBytes(v, n)
  {
  }

  /** Whatever number the parser accepts comes back modulo the width of the type. */
  lemma UnsignedModuloWidth(n: nat, value: string)
    requires n > 0 && ParseUInt(value).Some?
    ensures Decoded(Unsigned(n), Encoded(Unsigned(n), value).value) == Decimal(ParseUInt(value).value % Pow256(n))
  {
    var v := ParseUInt(value).value;
    hide ParseUInt, Decimal;
    ToBytesThenFromBytes(v, n);
    WholeBytes(v, n);
    hide ToBytes, FromBytes;
  }

  lemma SignedModuloWidth(n: nat, value: string)
    requires n > 0 && ParseInt(value).Some?
    ensures Decoded(Signed(n), Encoded(Signed(n), value).value)
      == IntText(AsSigned(ParseInt(value).value % Pow256(n), n))
  {
    var v := ParseInt(value).value % Pow256(n);
    hide ParseInt, IntText, AsSigned;
    ToBytesThenFromBytes(v, n);
    SmallMod(v, Pow256(n));
    WholeBytes(v, n);
    hide ToBytes, FromBytes;
  }

  lemma ParseDecimal(v: nat)
    requires v < TWO_32
    ensures ParseUInt(Decimal(v)) == Some(v)
  {
    var s := Decimal(v);
    assert IsDigit(s[0]) && IsDigit(s[|s| - 1]);
    ValueOfDecimal(v);
    hide Decimal, Value;
    TrimNothing(s);
    hide Trim;
  }

  lemma ParseIntText(v: int)
    requires -0x8000_0000 <= v < 0x8000_0000
    ensures ParseInt(IntText(v)) == Some(v)
  {
    var s := IntText(v);
    var d := Decimal(if v < 0 then -v else v);
    assert IsDigit(d[0]) && IsDigit(d[|d| - 1]);
    ValueOfDecimal(if v < 0 then -v else v);
    hide Decimal, Value;
    TrimNothing(s);
    hide Trim;
    if v < 0 {
      assert s[1..] == d;
    }
  }

  lemma Widths()
    ensures Pow256(1) == 0x100 && Pow256(2) == 0x1_0000 && Pow256(4) == 0x1_0000_0000
  {
    assert Pow256(0) == 1 && Pow256(3) == 0x100_0000;
  }

  /** Every in-range number in canonical decimal comes back as it was. */
  lemma UnsignedComesBack(n: nat, v: nat)
    requires (n == 1 || n == 2 || n == 4) && v < Pow256(n)
    ensures Encoded(Unsigned(n), Decimal(v)).Some?
    ensures Decoded(Unsigned(n), Encoded(Unsigned(n), Decimal(v)).value) == Decimal(v)
  {
    Widths();
    ParseDecimal(v);
    SmallMod(v, Pow256(n));
    UnsignedModuloWidth(n, Decimal(v));
    hide Decimal, ParseUInt, Decoded, ToBytes;
  }

  lemma SignedWord(v: int, n: nat)
    requires n > 0 && 0 <= 2 * v + Pow256(n) < 2 * Pow256(n)
    ensures AsSigned(v % Pow256(n), n) == v
  {
    var m: int := Pow256(n);
    hide Pow256;
    if v >= 0 {
      SmallMod(v, m);
    } else {
      SmallMod(v + m, m);
      ModShift(v, m);
    }
  }

  lemma ModShift(v: int, m: int)
    requires m > 0 && -m <= v < 0
    ensures v % m == v + m
  {
    assert v == m * (-1) + (v + m);
  }

  lemma SignedComesBack(n: nat, v: int)
    requires (n == 1 || n == 2 || n == 4) && 0 <= 2 * v + Pow256(n) < 2 * Pow256(n)
    ensures Encoded(Signed(n), IntText(v)).Some?
    ensures Decoded(Signed(n), Encoded(Signed(n), IntText(v)).value) == IntText(v)
  {
    Widths();
    ParseIntText(v);
    SignedWord(v, n);
    SignedModuloWidth(n, IntText(v));
    hide IntText, ParseInt, Decoded, ToBytes, AsSigned;
  }

  /** The other way round: bytes of the right size, shown as a number, are written back as the same bytes. */
  lemma NumberBytesComeBack(k: Kind, b: seq<Byte>)
    requires (k.Unsigned? || k.Signed?) && Supported(k) && |b| == k.size
    ensures Encoded(k, Decoded(k, b)) == Some(b)
  {
    Widths();
    var v, n := FromBytes(b), k.size;
    FromBytesThenToBytes(b);
    assert b[..n] == b;
    if k.Unsigned? {
      ParseDecimal(v);
      hide Decimal, ParseUInt, FromBytes, ToBytes;
    } else {
      ParseIntText(AsSigned(v, n));
      SignedBack(v, n);
      hide IntText, ParseInt, FromBytes, ToBytes, AsSigned;
    }
  }

  lemma SignedBack(v: nat, n: nat)
    requires v < Pow256(n)
    ensures AsSigned(v, n) % Pow256(n) == v
  {
    var m: int := Pow256(n);
    hide Pow256;
    SmallMod(v, m);
    if 2 * v >= m {
      ModShift(v - m, m);
    }
  }

  // ---- Round trips: hexadecimal ----

  predicate AllHex(s: string) {
    forall i :: 0 <= i < |s| ==> IsHexDigit(s[i])
  }

  lemma {:induction false} HexDigitsOfAll(s: string)
    requires AllHex(s)
    ensures HexDigitsOf(s) == s
  {
    if s != "" {
      HexDigitsOfAll(s[1..]);
      assert [s[0]] + s[1..] == s;
    }
  }

  lemma HexIsHexDigit(d: nat)
    requires d < 16
    ensures IsHexDigit(HexDigit(d)) && HexDigitValue(HexDigit(d)) == d
  {
    HexDigitBack(d);
  }

  lemma HexTwo(v: Byte)
    ensures Hex(v, 2) == [HexDigit(v / 16), HexDigit(v % 16)]
  {
    assert Hex(v / 16, 1) == [HexDigit(v / 16)];
  }

  function TwoDigits(v: Byte): (d: string)
    ensures |d| == 2
  {
    [HexDigit(v / 16), HexDigit(v % 16)]
  }

  lemma DumpSnoc(b: seq<Byte>, v: Byte)
    ensures HexDump(b + [v]) == HexDump(b) + TwoDigits(v)
  {
    HexTwo(v);
    var all := b + [v];
    assert all[..|all| - 1] == b && all[|all| - 1] == v;
    hide Hex, HexDigit;
  }

  lemma TwoDigitsRead(v: Byte)
    ensures AllHex(TwoDigits(v)) && 16 * HexDigitValue(TwoDigits(v)[0]) + HexDigitValue(TwoDigits(v)[1]) == v
  {
    HexIsHexDigit(v / 16);
    HexIsHexDigit(v % 16);
    hide HexDigit, HexDigitValue, IsHexDigit;
  }

  lemma LastByte(b: seq<Byte>)
    requires b != []
    ensures b == b[..|b| - 1] + [b[|b| - 1]]
  {
  }

  lemma {:induction false} DumpIsHex(b: seq<Byte>)
    ensures AllHex(HexDump(b)) && |HexDump(b)| == 2 * |b|
  {
    if b != [] {
      DumpIsHex(b[..|b| - 1]);
      LastByte(b);
      DumpSnoc(b[..|b| - 1], b[|b| - 1]);
      TwoDigitsRead(b[|b| - 1]);
      hide HexDump, TwoDigits, IsHexDigit;
    }
  }

  lemma OneMoreByte(front: seq<Byte>, v: Byte)
    ensures Pairs(HexDump(front + [v])) == Pairs(HexDump(front)) + [v]
  {
    DumpSnoc(front, v);
    TwoDigitsRead(v);
    hide HexDump, TwoDigits, Pairs, HexDigitValue, AllHex;
    var d := TwoDigits(v);
    assert d == [d[0], d[1]];
    PairsSnoc(HexDump(front), d[0], d[1]);
  }

  lemma {:induction false} PairsOfDump(b: seq<Byte>)
    ensures Pairs(HexDump(b)) == b
  {
    if b != [] {
      PairsOfDump(b[..|b| - 1]);
      LastByte(b);
      hide Pairs, HexDump;
      OneMoreByte(b[..|b| - 1], b[|b| - 1]);
    }
  }

  lemma PairsSnoc(d: string, h: char, l: char)
    ensures Pairs(d + [h, l]) == Pairs(d) + [16 * HexDigitValue(h) + HexDigitValue(l)]
  {
    var s := d + [h, l];
    assert s[..|s| - 2] == d && s[|s| - 2] == h && s[|s| - 1] == l;
    hide HexDigitValue;
  }

  lemma HexHasNoPrefix(s: string)
    requires AllHex(s)
    ensures Trim(s) == s && WithoutPrefix(s) == s
  {
    assert s != "" ==> IsHexDigit(s[0]) && IsHexDigit(s[|s| - 1]);
    assert |s| >= 2 ==> IsHexDigit(s[1]);
    hide AllHex, Trim;
    TrimNothing(s);
  }

  lemma PlainHex(s: string)
    requires AllHex(s)
    ensures FromHex(s) == Pairs(s)
  {
    HexHasNoPrefix(s);
    HexDigitsOfAll(s);
    hide Trim, HexDigitsOf, Pairs, WithoutPrefix;
  }

  /** Every byte string up to the limit survives being dumped and written back. */
  lemma DumpComesBack(b: seq<Byte>)
    requires 0 < |b| <= MAX_SDO_DATA_SIZE
    ensures Encoded(Raw, Decoded(Raw, b)) == Some(b)
  {
    DumpIsHex(b);
    PlainHex(HexDump(b));
    PairsOfDump(b);
    hide HexDump, Pairs, FromHex;
  }

  lemma DigitComesBack(c: char)
    requires IsHexDigit(c)
    ensures HexDigit(HexDigitValue(c)) == LowerChar(c)
  {
  }

  lemma PairShown(h: char, l: char)
    requires IsHexDigit(h) && IsHexDigit(l)
    ensures var v := 16 * HexDigitValue(h) + HexDigitValue(l);
      v < 256 && TwoDigits(v) == [LowerChar(h), LowerChar(l)]
  {
    DigitComesBack(h);
    DigitComesBack(l);
    DivModUnique(16 * HexDigitValue(h) + HexDigitValue(l), 16, HexDigitValue(h), HexDigitValue(l));
    hide HexDigit, HexDigitValue, LowerChar;
  }

  lemma OneMorePair(front: string, h: char, l: char)
    requires IsHexDigit(h) && IsHexDigit(l)
    ensures HexDump(Pairs(front + [h, l])) == HexDump(Pairs(front)) + [LowerChar(h), LowerChar(l)]
    ensures |Pairs(front + [h, l])| == |Pairs(front)| + 1
  {
    hide Pairs, HexDump, TwoDigits, HexDigitValue, LowerChar, IsHexDigit;
    PairShown(h, l);
    PairsSnoc(front, h, l);
    DumpSnoc(Pairs(front), 16 * HexDigitValue(h) + HexDigitValue(l));
  }

  lemma LastPair(d: string)
    requires AllHex(d) && |d| >= 2
    ensures AllHex(d[..|d| - 2]) && IsHexDigit(d[|d| - 2]) && IsHexDigit(d[|d| - 1])
    ensures d == d[..|d| - 2] + [d[|d| - 2], d[|d| - 1]]
  {
    hide IsHexDigit;
  }

  lemma {:induction false} DumpOfPairs(d: string)
    requires AllHex(d) && |d| % 2 == 0
    ensures HexDump(Pairs(d)) == Lower(d) && 2 * |Pairs(d)| == |d|
    decreases |d|
  {
    if d != "" {
      LastPair(d);
      hide AllHex, LowerChar, IsHexDigit, Pairs, HexDump, Lower;
      var front, h, l := d[..|d| - 2], d[|d| - 2], d[|d| - 1];
      DumpOfPairs(front);
      OneMorePair(front, h, l);
      LowerSnoc(front, h, l);
    } else {
      assert Lower("") == "";
    }
  }

  lemma LowerSnoc(s: string, a: char, b: char)
    ensures Lower(s + [a, b]) == Lower(s) + [LowerChar(a), LowerChar(b)]
  {
  }

  /** Writing whole hexadecimal bytes and reading them back gives the same digits in lower case. */
  lemma HexTextComesBack(text: string)
    requires AllHex(text) && |text| % 2 == 0 && 0 < |text| <= 2 * MAX_SDO_DATA_SIZE
    ensures Encoded(Raw, text).Some? && Decoded(Raw, Encoded(Raw, text).value) == Lower(text)
  {
    PlainHex(text);
    DumpOfPairs(text);
    hide Pairs, FromHex, HexDump, Lower;
  }

  /** Latin-1 text comes back up to the size of the buffer, the empty text included. */
  lemma CharsComeBack(text: string)
    requires forall i :: 0 <= i < |text| ==> text[i] as int < 256
    ensures Encoded(Chars, text).Some?
    ensures Decoded(Chars, Encoded(Chars, text).value)
      == if |text| > MAX_SDO_DATA_SIZE then text[..MAX_SDO_DATA_SIZE] else text
  {
    var b := Limited(ToLatin1(text));
    assert forall i :: 0 <= i < |b| ==> b[i] as char == text[i];
  }

  /** A value shorter than its type is not shown as a number but dumped, so that it still comes back as raw bytes. */
  lemma ShortValueIsDumped(k: Kind, b: seq<Byte>)
    requires (k.Unsigned? || k.Signed?) && 0 < |b| < k.size <= MAX_SDO_DATA_SIZE
    ensures Decoded(k, b) == HexDump(b) && Encoded(Raw, Decoded(k, b)) == Some(b)
  {
    DumpComesBack(b);
    hide Encoded, HexDump;
  }
}
