/** Text as the programs handle it: decimal and hexadecimal numerals, letter case and white space, and the C string
    searches and number scans that read numerals back. */
module Text {
  import opened Words

  predicate IsDigit(c: char) {
    '0' <= c <= '9'
  }

  predicate AllDigits(s: string) {
    forall i :: 0 <= i < |s| ==> IsDigit(s[i])
  }

  function DigitOf(d: nat): (c: char)
    requires d < 10
    ensures IsDigit(c)
  {
    '0' + d as char
  }

  function DigitValue(c: char): (d: nat)
    requires IsDigit(c)
    ensures d < 10
  {
    (c - '0') as int
  }

  /** The decimal numeral of `n`, without leading zeros. */
  function Decimal(n: nat): (s: string)
    ensures |s| > 0 && AllDigits(s)
  {
    if n < 10 then [DigitOf(n)] else Decimal(n / 10) + [DigitOf(n % 10)]
  }

  function Value(s: string): nat
    requires AllDigits(s)
  {
    if s == "" then 0 else 10 * Value(s[..|s| - 1]) + DigitValue(s[|s| - 1])
  }

  lemma {:induction false} ValueOfDecimal(n: nat)
    ensures Value(Decimal(n)) == n
  {
    if n >= 10 {
      ValueOfDecimal(n / 10);
      assert Decimal(n)[..|Decimal(n)| - 1] == Decimal(n / 10);
    } else {
      assert Decimal(n)[..0] == "";
    }
  }

  lemma DecimalInjective(a: nat, b: nat)
    ensures Decimal(a) == Decimal(b) ==> a == b
  {
    ValueOfDecimal(a);
    ValueOfDecimal(b);
  }

  function IntText(n: int): string {
    if n < 0 then "-" + Decimal(-n) else Decimal(n)
  }

  // ---- Case and white space ----

  function LowerChar(c: char): char {
    if 'A' <= c <= 'Z' then 'a' + (c - 'A') else c
  }

  function Lower(s: string): (r: string)
    ensures |r| == |s|
  {
    seq(|s|, i requires 0 <= i < |s| => LowerChar(s[i]))
  }

  predicate IsSpace(c: char) {
    c == ' ' || '\t' <= c <= '\r'
  }

  function TrimFront(s: string): string {
    if s != "" && IsSpace(s[0]) then TrimFront(s[1..]) else s
  }

  function Trim(s: string): string {
    var t := TrimFront(s);
    TrimBack(t)
  }

  function TrimBack(s: string): string {
    if s != "" && IsSpace(s[|s| - 1]) then TrimBack(s[..|s| - 1]) else s
  }

  // ---- Hexadecimal ----

  function HexDigit(d: nat): (c: char)
    requires d < 16
    ensures IsDigit(c) || 'a' <= c <= 'f'
  {
    "0123456789abcdef"[d]
  }

  function HexDigitValue(c: char): (d: nat)
    ensures d < 16
  {
    if '0' <= c <= '9' then (c - '0') as int
    else if 'a' <= c <= 'f' then 10 + (c - 'a') as int
    else if 'A' <= c <= 'F' then 10 + (c - 'A') as int
    else 0
  }

  /** The hexadecimal numeral of `n` in lower case, with zeros in front up to `width`. */
  function Hex(n: nat, width: nat): (s: string)
    ensures |s| >= width && |s| > 0
    decreases n, width
  {
    if n < 16 && width <= 1 then [HexDigit(n)]
    else Hex(n / 16, if width == 0 then 0 else width - 1) + [HexDigit(n % 16)]
  }

  function HexValue(s: string): nat {
    if s == "" then 0 else 16 * HexValue(s[..|s| - 1]) + HexDigitValue(s[|s| - 1])
  }

  lemma HexDigitBack(d: nat)
    requires d < 16
    ensures HexDigitValue(HexDigit(d)) == d
  {
  }

  lemma {:induction false} HexValueOfHex(n: nat, width: nat)
    ensures HexValue(Hex(n, width)) == n
    decreases n, width
  {
    var s := Hex(n, width);
    HexDigitBack(n % 16);
    hide HexDigit, HexDigitValue;
    if n < 16 && width <= 1 {
      assert s[..0] == "";
    } else {
      var w := if width == 0 then 0 else width - 1;
      HexValueOfHex(n / 16, w);
      assert s[..|s| - 1] == Hex(n / 16, w);
    }
  }

  /** The number a decimal numeral with an optional minus stands for; 0 for other text. */
  function IntValue(s: string): int {
    if AllDigits(s) then Value(s)
    else if s[0] == '-' && AllDigits(s[1..]) then (var v: int := Value(s[1..]); -v)
    else 0
  }

  lemma IntValueOfText(n: int)
    ensures IntValue(IntText(n)) == n
  {
    if n < 0 {
      ValueOfDecimal(-n);
      var s := IntText(n);
      assert !IsDigit(s[0]) && s[1..] == Decimal(-n);
    } else {
      ValueOfDecimal(n);
    }
  }

  // ---- What the numerals look like ----

  /** The last digit of a decimal numeral, and what is in front of it. */
  lemma DecimalPlaces(n: nat)
    ensures Decimal(n)[|Decimal(n)| - 1] == "0123456789"[n % 10]
    ensures Decimal(n)[..|Decimal(n)| - 1] == if n < 10 then "" else Decimal(n / 10)
    ensures IntText(n) == Decimal(n) && (n > 0 ==> IntText(0 - n) == "-" + Decimal(n))
  {
    assert DigitOf(n % 10) == "0123456789"[n % 10];
  }

  /** The last digit of a hexadecimal numeral, and what is in front of it. */
  lemma HexPlaces(n: nat, width: nat)
    ensures Hex(n, width)[|Hex(n, width)| - 1] == "0123456789abcdef"[n % 16]
    ensures Hex(n, width)[..|Hex(n, width)| - 1]
      == if n < 16 && width <= 1 then "" else Hex(n / 16, if width == 0 then 0 else width - 1)
  {
  }

  /** Reading numerals: each further digit counts for itself, those in front ten or sixteen times as much. */
  lemma ReadDecimal(s: string, d: nat)
    requires d < 10 && AllDigits(s)
    ensures Value("") == 0 && Value(s + ["0123456789"[d]]) == 10 * Value(s) + d
  {
    var t := s + ["0123456789"[d]];
    assert t[..|t| - 1] == s;
  }

  lemma HexDigitsRead(d: nat)
    requires d < 16
    ensures HexDigitValue("0123456789abcdef"[d]) == d
  {
  }

  lemma HexCapitalsRead(d: nat)
    requires d < 16
    ensures HexDigitValue("0123456789ABCDEF"[d]) == d
  {
  }

  lemma ReadHex(s: string, d: nat)
    requires d < 16
    ensures HexValue("") == 0 && HexValue(s + ["0123456789abcdef"[d]]) == 16 * HexValue(s) + d
    ensures HexValue(s + ["0123456789ABCDEF"[d]]) == 16 * HexValue(s) + d
  {
    HexDigitsRead(d);
    HexCapitalsRead(d);
    hide HexDigitValue;
    var c, e := "0123456789abcdef"[d], "0123456789ABCDEF"[d];
    assert (s + [c])[..|s|] == s && (s + [e])[..|s|] == s;
  }

  /** Lower case changes the 26 capital letters and nothing else. */
  lemma LowerLetters(s: string, i: nat)
    requires i < |s|
    ensures 'A' <= s[i] <= 'Z' ==> Lower(s)[i] == "abcdefghijklmnopqrstuvwxyz"[(s[i] - 'A') as int]
    ensures !('A' <= s[i] <= 'Z') ==> Lower(s)[i] == s[i]
  {
    var k := (if 'A' <= s[i] <= 'Z' then s[i] - 'A' else 'A' - 'A') as int;
    assert "abcdefghijklmnopqrstuvwxyz"[k] as int == 'a' as int + k;
  }

  predicate Blank(s: string) {
    forall i :: 0 <= i < |s| ==> s[i] == ' ' || s[i] == '\t' || s[i] == '\n' || s[i] == '\r' || s[i] as int == 11 || s[i] as int == 12
  }

  lemma {:induction false} TrimFrontOf(a: string, w: string)
    requires Blank(a) && (w != "" ==> !Blank([w[0]]))
    ensures TrimFront(a + w) == w
  {
    if a == "" {
      assert a + w == w;
      assert w != "" ==> [w[0]][0] == w[0];
    } else {
      assert (a + w)[1..] == a[1..] + w && (a + w)[0] == a[0];
      TrimFrontOf(a[1..], w);
    }
  }

  lemma {:induction false} TrimBackOf(w: string, b: string)
    requires Blank(b) && (w != "" ==> !Blank([w[|w| - 1]]))
    ensures TrimBack(w + b) == w
    decreases |b|
  {
    if b == "" {
      assert w + b == w;
      assert w != "" ==> [w[|w| - 1]][0] == w[|w| - 1];
    } else {
      var s := w + b;
      assert s[..|s| - 1] == w + b[..|b| - 1] && s[|s| - 1] == b[|b| - 1];
      TrimBackOf(w, b[..|b| - 1]);
    }
  }

  /** Blanks around a word that neither begins nor ends with one are what trimming takes off. */
  lemma TrimAround(a: string, w: string, b: string)
    requires Blank(a) && Blank(b) && (w != "" ==> !Blank([w[0]]) && !Blank([w[|w| - 1]]))
    ensures Trim(a + w + b) == w
  {
    if w == "" {
      assert a + w + b == (a + b) + w;
      TrimFrontOf(a + b, w);
    } else {
      assert a + w + b == a + (w + b);
      TrimFrontOf(a, w + b);
      TrimBackOf(w, b);
    }
  }

  lemma {:induction false} FrontIsSpace(s: string)
    ensures |TrimFront(s)| <= |s| && TrimFront(s) == s[|s| - |TrimFront(s)|..]
    ensures forall i :: 0 <= i < |s| - |TrimFront(s)| ==> IsSpace(s[i])
    ensures TrimFront(s) != "" ==> !IsSpace(TrimFront(s)[0])
  {
    if s != "" && IsSpace(s[0]) {
      FrontIsSpace(s[1..]);
      assert forall i :: 0 < i < |s| ==> s[i] == s[1..][i - 1];
    }
  }

  lemma {:induction false} BackIsSpace(s: string)
    ensures |TrimBack(s)| <= |s| && TrimBack(s) == s[..|TrimBack(s)|]
    ensures forall i :: |TrimBack(s)| <= i < |s| ==> IsSpace(s[i])
    ensures TrimBack(s) != "" ==> !IsSpace(TrimBack(s)[|TrimBack(s)| - 1])
  {
    if s != "" && IsSpace(s[|s| - 1]) {
      BackIsSpace(s[..|s| - 1]);
    }
  }

  /** Every text is blanks, what trimming leaves, and blanks. */
  lemma TrimSplits(s: string) returns (a: string, b: string)
    ensures s == a + Trim(s) + b && Blank(a) && Blank(b)
    ensures Trim(s) != "" ==> !Blank([Trim(s)[0]]) && !Blank([Trim(s)[|Trim(s)| - 1]])
  {
    var f, t := TrimFront(s), Trim(s);
    FrontIsSpace(s);
    BackIsSpace(f);
    hide TrimFront, TrimBack;
    a, b := s[..|s| - |f|], f[|t|..];
    assert t != "" ==> [t[0]][0] == t[0] && [t[|t| - 1]][0] == t[|t| - 1];
    assert s == a + f && f == t + b;
    hide Trim;
    assert a + (t + b) == a + t + b;
  }

  lemma BlankIffTrimmed(s: string)
    ensures Trim(s) == "" <==> Blank(s)
  {
    var a, b := TrimSplits(s);
    var t := Trim(s);
    hide Trim;
    if t != "" {
      assert s[|a|] == t[0];
      assert [t[0]][0] == t[0];
    }
  }

  // ---- strstr ----

  /** strstr: the suffix of `s` that starts at the first occurrence of `needle`. */
  function StrStr(s: string, needle: string): (r: Option<string>)
    ensures r.Some? ==> |needle| <= |r.value| <= |s|
  {
    if needle <= s then Some(s) else if s == "" then None else StrStr(s[1..], needle)
  }

  predicate NoneBefore(s: string, needle: string, n: nat)
    requires n <= |s| + 1
  {
    forall i :: 0 <= i < n ==> !(needle <= s[i..])
  }

  lemma NoneBeforeStep(s: string, needle: string, n: nat)
    requires s != "" && !(needle <= s) && n <= |s| && NoneBefore(s[1..], needle, n)
    ensures NoneBefore(s, needle, n + 1)
  {
    forall i | 0 <= i < n + 1 ensures !(needle <= s[i..]) {
      assert s[0..] == s;
      assert i > 0 ==> s[i..] == s[1..][i - 1..];
    }
  }

  /** It is the first occurrence, and there is none when nothing is returned. */
  lemma {:induction false} StrStrIsFirst(s: string, needle: string)
    ensures match StrStr(s, needle)
      case Some(f) => needle <= f && f == s[|s| - |f|..] && NoneBefore(s, needle, |s| - |f|)
      case None => NoneBefore(s, needle, |s| + 1)
  {
    if needle <= s {
      assert s[0..] == s;
    } else if s != "" {
      StrStrIsFirst(s[1..], needle);
      var r := StrStr(s[1..], needle);
      NoneBeforeStep(s, needle, if r.Some? then |s| - 1 - |r.value| else |s|);
      hide NoneBefore;
    } else {
      assert s[0..] == s;
    }
  }

  /** Nothing found inside `skip` means the search goes on in `rest`. */
  lemma {:induction false} StrStrSkips(skip: string, rest: string, needle: string)
    requires forall i :: 0 <= i < |skip| ==> !(needle <= (skip + rest)[i..])
    ensures StrStr(skip + rest, needle) == StrStr(rest, needle)
  {
    if skip == "" {
      assert skip + rest == rest;
    } else {
      assert (skip + rest)[0..] == skip + rest;
      assert (skip + rest)[1..] == skip[1..] + rest;
      forall i | 0 <= i < |skip[1..]| ensures !(needle <= (skip[1..] + rest)[i..]) {
        assert (skip[1..] + rest)[i..] == (skip + rest)[i + 1..];
      }
      StrStrSkips(skip[1..], rest, needle);
    }
  }

  lemma StrStrHere(s: string, needle: string)
    requires needle <= s
    ensures StrStr(s, needle) == Some(s)
  {
  }

  predicate Lacks(s: string, c: char) {
    forall i :: 0 <= i < |s| ==> s[i] != c
  }

  lemma StrStrSkipsChar(skip: string, rest: string, needle: string)
    requires |needle| > 0 && Lacks(skip, needle[0])
    ensures StrStr(skip + rest, needle) == StrStr(rest, needle)
  {
    forall i | 0 <= i < |skip| ensures !(needle <= (skip + rest)[i..]) {
      assert (skip + rest)[i..][0] == skip[i];
    }
    StrStrSkips(skip, rest, needle);
  }

  // ---- sscanf of an unsigned number ----

  function LeadingDigits(s: string): (d: string)
    ensures AllDigits(d) && d <= s
  {
    if s != "" && IsDigit(s[0]) then [s[0]] + LeadingDigits(s[1..]) else ""
  }

  /** What "%u", "%hu" or "%hhu" stores for a field of `modulus` values: white space, an optional sign and
      digits, converted as strtoul does on a 64-bit host and cut to the field. None when nothing matches. */
  function ScanUnsigned(s: string, modulus: nat): (r: Option<nat>)
    requires modulus > 0
    ensures r.Some? ==> r.value < modulus
  {
    var t := TrimFront(s);
    var negative := t != "" && t[0] == '-';
    var d := LeadingDigits(if negative || (t != "" && t[0] == '+') then t[1..] else t);
    if d == "" then None
    else Some(Converted(Value(d), negative) % modulus)
  }

  /** strtoul into a 64-bit word: saturating, and negating modulo the word. */
  function Converted(v: nat, negative: bool): UInt64 {
    if v >= TWO_64 then TWO_64 - 1 else if negative then (TWO_64 - v) % TWO_64 else v
  }

  lemma {:induction false} LeadingDigitsOf(d: string, rest: string)
    requires AllDigits(d) && (rest == "" || !IsDigit(rest[0]))
    ensures LeadingDigits(d + rest) == d
  {
    if d == "" {
      assert d + rest == rest;
    } else {
      assert (d + rest)[1..] == d[1..] + rest;
      LeadingDigitsOf(d[1..], rest);
      assert [d[0]] + d[1..] == d;
    }
  }

  lemma NoSpaces(s: string)
    requires s != "" && (s[0] == '-' || IsDigit(s[0]))
    ensures TrimFront(s) == s
  {
  }

  lemma ScanNumeral(d: string, rest: string, modulus: nat)
    requires AllDigits(d) && d != "" && (rest == "" || !IsDigit(rest[0])) && modulus > 0
    ensures ScanUnsigned(d + rest, modulus) == Some(Converted(Value(d), false) % modulus)
  {
    LeadingDigitsOf(d, rest);
    var s := d + rest;
    assert s[0] == d[0] && IsDigit(d[0]);
    NoSpaces(s);
    hide Value, Converted, LeadingDigits, TrimFront, AllDigits;
  }

  lemma ScanNegated(d: string, rest: string, modulus: nat)
    requires AllDigits(d) && d != "" && (rest == "" || !IsDigit(rest[0])) && modulus > 0
    ensures ScanUnsigned("-" + d + rest, modulus) == Some(Converted(Value(d), true) % modulus)
  {
    LeadingDigitsOf(d, rest);
    var s := "-" + d + rest;
    assert s[0] == '-' && s[1..] == d + rest;
    NoSpaces(s);
    hide Value, Converted, LeadingDigits, TrimFront, AllDigits;
  }

  /** A numeral after blanks, with or without a sign: 2^64 - 1 from 2^64 on, else the value, negated modulo 2^64 behind a
      minus, and then cut to the field. */
  lemma ScanSigned(a: string, sign: string, d: string, rest: string, modulus: nat)
    requires Blank(a) && (sign == "" || sign == "+" || sign == "-") && AllDigits(d) && d != ""
    requires (rest == "" || !IsDigit(rest[0])) && modulus > 0
    ensures var v := if Value(d) >= 0x1_0000_0000_0000_0000 then 0xFFFF_FFFF_FFFF_FFFF
                     else if sign == "-" && Value(d) > 0 then 0x1_0000_0000_0000_0000 - Value(d) else Value(d);
      ScanUnsigned(a + (sign + (d + rest)), modulus) == Some(v % modulus)
  {
    var w := sign + (d + rest);
    assert w[0] == (if sign == "" then d[0] else sign[0]) && IsDigit(d[0]);
    assert if sign == "" then w == d + rest else w[1..] == d + rest;
    assert [w[0]][0] == w[0];
    TrimFrontOf(a, w);
    LeadingDigitsOf(d, rest);
    SignedWordIs(Value(d), sign == "-");
    hide Value, Converted, LeadingDigits, TrimFront, AllDigits, Blank;
  }

  lemma SignedWordIs(v: nat, negative: bool)
    ensures Converted(v, negative) == if v >= 0x1_0000_0000_0000_0000 then 0xFFFF_FFFF_FFFF_FFFF
      else if negative && v > 0 then 0x1_0000_0000_0000_0000 - v else v
  {
    if 0 < v < TWO_64 {
      SmallMod(TWO_64 - v, TWO_64);
    }
  }

  lemma ScanDecimal(n: nat, rest: string, modulus: nat)
    requires n < modulus <= TWO_64 && (rest == "" || !IsDigit(rest[0]))
    ensures ScanUnsigned(Decimal(n) + rest, modulus) == Some(n)
  {
    ScanNumeral(Decimal(n), rest, modulus);
    ValueOfDecimal(n);
    SmallMod(n, modulus);
    hide ScanUnsigned, Decimal, Value, AllDigits;
  }

  lemma NegatedWord(n: nat)
    requires 0 < n < TWO_32
    ensures Converted(n, true) % TWO_32 == TWO_32 - n
  {
    SmallMod(TWO_64 - n, TWO_64);
    ModPlus(TWO_32, TWO_32 - 1, TWO_32 - n);
    SmallMod(TWO_32 - n, TWO_32);
  }

  /** A negative numeral wraps: a 32-bit field gets it modulo its width. */
  lemma ScanNegative(n: nat, rest: string)
    requires 0 < n < TWO_32 && (rest == "" || !IsDigit(rest[0]))
    ensures ScanUnsigned("-" + Decimal(n) + rest, TWO_32) == Some(TWO_32 - n)
  {
    hide ScanUnsigned, Decimal, Value, Converted, TrimFront, LeadingDigits;
    ScanNegated(Decimal(n), rest, TWO_32);
    ValueOfDecimal(n);
    NegatedWord(n);
  }
}
