// The text formats under the tokens: splitting on a byte, decimal integers, hex
// (RFC 4648, section 8) and unpadded base64url (RFC 4648, section 5), as the Go
// library reads and writes them.
module Encodings {
  import opened Common

  type Bytes = seq<byte>

  const COLON: byte := 58
  const MINUS: byte := 45
  const PLUS: byte := 43

  // ---- strings.Split and strings.Join

  function Split(s: Bytes, sep: byte): (parts: seq<Bytes>)
    ensures parts != []
  {
    if s == [] then [[]]
    else
      var rest := Split(s[1..], sep);
      if s[0] == sep then [[]] + rest else [[s[0]] + rest[0]] + rest[1..]
  }

  function Join(parts: seq<Bytes>, sep: byte): Bytes
    requires parts != []
  {
    if |parts| == 1 then parts[0] else parts[0] + [sep] + Join(parts[1..], sep)
  }

  function Count(s: Bytes, b: byte): nat {
    if s == [] then 0 else (if s[0] == b then 1 else 0) + Count(s[1..], b)
  }

  lemma {:induction false} JoinSplit(s: Bytes, sep: byte)
    ensures Join(Split(s, sep), sep) == s
  {
    if s != [] {
      JoinSplit(s[1..], sep);
      var rest := Split(s[1..], sep);
      var parts := Split(s, sep);
      if s[0] == sep {
        assert parts[1..] == rest;
      } else if |rest| > 1 {
        assert parts[1..] == rest[1..];
        assert Join(parts, sep) == [s[0]] + rest[0] + [sep] + Join(rest[1..], sep);
      }
      assert s == [s[0]] + s[1..];
    }
  }

  lemma {:induction false} SplitCount(s: Bytes, sep: byte)
    ensures |Split(s, sep)| == Count(s, sep) + 1
  {
    if s != [] {
      SplitCount(s[1..], sep);
    }
  }

  lemma {:induction false} SplitAtFirst(a: Bytes, rest: Bytes, sep: byte)
    requires sep !in a
    ensures Split(a + [sep] + rest, sep) == [a] + Split(rest, sep)
  {
    var s := a + [sep] + rest;
    if a == [] {
      assert s[1..] == rest;
    } else {
      SplitAtFirst(a[1..], rest, sep);
      assert s[1..] == a[1..] + [sep] + rest;
      assert [a[0]] + a[1..] == a;
    }
  }

  lemma {:induction false} SplitWithout(a: Bytes, sep: byte)
    requires sep !in a
    ensures Split(a, sep) == [a]
  {
    if a != [] {
      SplitWithout(a[1..], sep);
      assert [a[0]] + a[1..] == a;
    }
  }

  lemma {:induction false} CountConcat(a: Bytes, b: Bytes, x: byte)
    ensures Count(a + b, x) == Count(a, x) + Count(b, x)
  {
    if a == [] {
      assert a + b == b;
    } else {
      CountConcat(a[1..], b, x);
      assert (a + b)[1..] == a[1..] + b;
    }
  }

  lemma {:induction false} CountZeroIff(a: Bytes, x: byte)
    ensures Count(a, x) == 0 <==> x !in a
  {
    if a != [] {
      CountZeroIff(a[1..], x);
    }
  }

  // ---- strconv: decimal integers of 64 bits

  function Digits(n: nat): (s: Bytes)
    ensures s != []
  {
    if n < 10 then [48 + n] else Digits(n / 10) + [48 + n % 10]
  }

  function FormatInt(n: int): Bytes {
    if n < 0 then [MINUS] + Digits(-n) else Digits(n)
  }

  function ParseDigits(s: Bytes): Option<nat> {
    if s == [] then Some(0)
    else
      var d := s[|s| - 1];
      match ParseDigits(s[..|s| - 1])
      case None => None
      case Some(n) => if 48 <= d <= 57 then Some(n * 10 + (d - 48)) else None
  }

  predicate IsInt64(n: int) {
    -0x8000_0000_0000_0000 <= n < 0x8000_0000_0000_0000
  }

  // An optional sign, at least one digit, nothing else, in range.
  function ParseInt(s: Bytes): Option<int> {
    var signed := s != [] && (s[0] == MINUS || s[0] == PLUS);
    var body := if signed then s[1..] else s;
    if body == [] then None
    else match ParseDigits(body)
      case None => None
      case Some(n) =>
        var v: int := if signed && s[0] == MINUS then -(n as int) else n;
        if IsInt64(v) then Some(v) else None
  }

  lemma {:induction false} DigitsRoundTrip(n: nat)
    ensures ParseDigits(Digits(n)) == Some(n)
    ensures forall i :: 0 <= i < |Digits(n)| ==> 48 <= Digits(n)[i] <= 57
  {
    if n >= 10 {
      DigitsRoundTrip(n / 10);
      assert Digits(n)[..|Digits(n)| - 1] == Digits(n / 10);
    } else {
      assert Digits(n)[..0] == [];
    }
  }

  lemma IntRoundTrip(n: int)
    requires IsInt64(n)
    ensures ParseInt(FormatInt(n)) == Some(n)
    ensures COLON !in FormatInt(n)
  {
    DigitsRoundTrip(if n < 0 then -n else n);
    if n < 0 {
      assert FormatInt(n)[1..] == Digits(-n);
    }
  }

  // Ordinary decimal: the least digit last, the others before it, a minus sign in
  // front and no plus.
  lemma DecimalIsOrdinary(n: nat)
    ensures n < 10 ==> FormatInt(n) == [48 + n]
    ensures n >= 10 ==> FormatInt(n) == FormatInt(n / 10) + [48 + n % 10]
    ensures n > 0 ==> FormatInt(0 - n as int) == [45] + FormatInt(n)
  {
  }

  function Zeros(z: nat): Bytes {
    seq(z, _ => 48)
  }

  lemma {:induction false} ZerosParse(z: nat)
    ensures ParseDigits(Zeros(z)) == Some(0)
  {
    if z > 0 {
      ZerosParse(z - 1);
      assert Zeros(z)[..z - 1] == Zeros(z - 1);
    }
  }

  lemma {:induction false} PaddedParses(z: nat, n: nat)
    ensures ParseDigits(Zeros(z) + Digits(n)) == Some(n)
    decreases n
  {
    var s := Zeros(z) + Digits(n);
    if n < 10 {
      ZerosParse(z);
      assert s[..|s| - 1] == Zeros(z);
    } else {
      PaddedParses(z, n / 10);
      assert s[..|s| - 1] == Zeros(z) + Digits(n / 10);
    }
  }

  // Digits that parse are the number's own after some zeros.
  lemma {:induction false} ParsedIsPadded(s: Bytes, n: nat)
    requires s != [] && ParseDigits(s) == Some(n)
    ensures |Digits(n)| <= |s| && s == Zeros(|s| - |Digits(n)|) + Digits(n)
    decreases |s|
  {
    var front, d := s[..|s| - 1], s[|s| - 1];
    var m := ParseDigits(front).value;
    assert s == front + [d];
    if front != [] {
      ParsedIsPadded(front, m);
      if m == 0 {
        assert front == Zeros(|front|);
      } else {
        assert n / 10 == m && n % 10 == d - 48;
        assert Digits(n) == Digits(m) + [d];
      }
    }
  }

  // The integer in decimal, perhaps after zeros and a sign: minus for a negative
  // one, nothing or plus for a positive one, any of them for zero.
  predicate Spells(s: Bytes, sign: Bytes, z: nat, v: int) {
    && (sign == [] || sign == [43] || sign == [45])
    && (v > 0 ==> sign != [45]) && (v < 0 ==> sign == [45])
    && s == sign + (Zeros(z) + FormatInt(if v < 0 then -v else v))
  }

  lemma SignAndDigits(s: Bytes, v: int) returns (sign: Bytes, digits: Bytes)
    requires ParseInt(s) == Some(v)
    ensures IsInt64(v) && s == sign + digits && digits != []
    ensures sign == [] || sign == [43] || sign == [45]
    ensures ParseDigits(digits) == Some(if v < 0 then -v else v)
    ensures (v > 0 ==> sign != [45]) && (v < 0 ==> sign == [45])
  {
    hide ParseDigits;
    var signed := s[0] == MINUS || s[0] == PLUS;
    sign, digits := if signed then [s[0]] else [], if signed then s[1..] else s;
  }

  lemma ParsedIsSpelled(s: Bytes, v: int)
    requires ParseInt(s) == Some(v)
    ensures IsInt64(v) && exists sign, z :: Spells(s, sign, z, v)
  {
    var sign, digits := SignAndDigits(s, v);
    hide ParseInt;
    hide ParseDigits;
    hide Digits;
    hide Zeros;
    var a: nat := if v < 0 then -v else v;
    ParsedIsPadded(digits, a);
    assert Spells(s, sign, |digits| - |Digits(a)|, v);
  }

  lemma SignedParses(sign: Bytes, body: Bytes, n: nat, v: int)
    requires (sign == [] || sign == [43] || sign == [45]) && body != [] && 48 <= body[0] <= 57
    requires ParseDigits(body) == Some(n) && v == (if sign == [45] then 0 - n else n) && IsInt64(v)
    ensures ParseInt(sign + body) == Some(v)
  {
    hide ParseDigits;
    if sign == [] {
      assert sign + body == body;
    } else {
      assert (sign + body)[0] == sign[0] && (sign + body)[1..] == body;
    }
  }

  lemma SpelledParses(s: Bytes, sign: Bytes, z: nat, v: int)
    requires Spells(s, sign, z, v) && IsInt64(v)
    ensures ParseInt(s) == Some(v)
  {
    var a: nat := if v < 0 then -v else v;
    var body := Zeros(z) + Digits(a);
    PaddedParses(z, a);
    DigitsRoundTrip(a);
    hide ParseDigits;
    hide ParseInt;
    hide Digits;
    assert 48 <= body[0] <= 57;
    SignedParses(sign, body, a, v);
  }

  // Exactly these texts parse, if the integer has 64 bits.
  lemma ParseIntIff(s: Bytes, v: int)
    ensures ParseInt(s) == Some(v) <==> IsInt64(v) && exists sign, z :: Spells(s, sign, z, v)
  {
    hide ParseInt;
    if ParseInt(s) == Some(v) {
      ParsedIsSpelled(s, v);
    }
    forall sign, z | Spells(s, sign, z, v) && IsInt64(v)
      ensures ParseInt(s) == Some(v)
    {
      SpelledParses(s, sign, z, v);
    }
  }

  // ---- hex

  function HexDigit(v: int): byte
    requires 0 <= v < 16
  {
    if v < 10 then 48 + v else 87 + v
  }

  function HexValue(c: byte): (v: Option<nat>)
    ensures v.Some? ==> v.value < 16
  {
    if 48 <= c <= 57 then Some(c - 48)
    else if 97 <= c <= 102 then Some(c - 87)
    else if 65 <= c <= 70 then Some(c - 55)
    else None
  }

  function HexEncode(s: Bytes): Bytes {
    if s == [] then [] else [HexDigit(s[0] / 16), HexDigit(s[0] % 16)] + HexEncode(s[1..])
  }

  function HexDecode(s: Bytes): Option<Bytes> {
    if s == [] then Some([])
    else if |s| == 1 then None
    else
      var hi, lo := HexValue(s[0]), HexValue(s[1]);
      if hi.None? || lo.None? then None
      else match HexDecode(s[2..])
        case None => None
        case Some(rest) => Some([hi.value * 16 + lo.value] + rest)
  }

  lemma {:induction false} HexRoundTrip(s: Bytes)
    ensures HexDecode(HexEncode(s)) == Some(s)
    ensures COLON !in HexEncode(s)
  {
    if s != [] {
      HexRoundTrip(s[1..]);
      assert HexEncode(s)[2..] == HexEncode(s[1..]);
      assert [s[0]] + s[1..] == s;
    }
  }

  const HEX_DIGITS: string := "0123456789abcdef"

  lemma DigitsInOrder(v: int)
    requires 0 <= v < 16
    ensures HexDigit(v) as int == HEX_DIGITS[v] as int
  {
  }

  lemma {:induction false} HexLength(s: Bytes)
    ensures |HexEncode(s)| == 2 * |s|
  {
    if s != [] {
      HexLength(s[1..]);
    }
  }

  // Two lower-case digits a byte, the high half first.
  lemma {:induction false} HexIsLowerCase(s: Bytes, i: nat)
    requires i < |s|
    ensures |HexEncode(s)| == 2 * |s|
    ensures HexEncode(s)[2 * i] as int == HEX_DIGITS[s[i] / 16] as int
    ensures HexEncode(s)[2 * i + 1] as int == HEX_DIGITS[s[i] % 16] as int
    decreases |s|
  {
    HexLength(s);
    DigitsInOrder(s[0] / 16);
    DigitsInOrder(s[0] % 16);
    hide HexDigit;
    if i == 0 {
      assert HexEncode(s)[..2] == [HexDigit(s[0] / 16), HexDigit(s[0] % 16)];
    } else {
      HexIsLowerCase(s[1..], i - 1);
      assert s[1..][i - 1] == s[i];
      assert HexEncode(s)[2 * i] == HexEncode(s[1..])[2 * (i - 1)];
      assert HexEncode(s)[2 * i + 1] == HexEncode(s[1..])[2 * (i - 1) + 1];
    }
  }

  // ASCII letters in lower case.
  function Lower(s: Bytes): (r: Bytes)
    ensures |r| == |s|
  {
    seq(|s|, i requires 0 <= i < |s| => if 65 <= s[i] <= 90 then s[i] + 32 else s[i])
  }

  lemma ValueOfDigit(c: byte, v: nat)
    requires v < 16
    ensures HexValue(c) == Some(v) <==> HexDigit(v) == if 65 <= c <= 90 then c + 32 else c
  {
  }

  lemma HexPair(s: Bytes, b: Bytes)
    requires |s| >= 2 && b != []
    ensures HexDecode(s) == Some(b)
      <==> HexValue(s[0]) == Some(b[0] / 16) && HexValue(s[1]) == Some(b[0] % 16)
           && HexDecode(s[2..]) == Some(b[1..])
  {
    assert b == [b[0]] + b[1..];
  }

  lemma LowerPair(s: Bytes, b: Bytes)
    requires |s| >= 2 && b != []
    ensures Lower(s) == HexEncode(b)
      <==> Lower(s)[0] == HexDigit(b[0] / 16) && Lower(s)[1] == HexDigit(b[0] % 16)
           && Lower(s[2..]) == HexEncode(b[1..])
  {
    hide HexDigit;
    assert Lower(s) == Lower(s)[..2] + Lower(s[2..]);
    assert HexEncode(b)[..2] == [HexDigit(b[0] / 16), HexDigit(b[0] % 16)];
    assert HexEncode(b)[2..] == HexEncode(b[1..]);
  }

  // Exactly what was encoded decodes, in either case.
  lemma {:induction false} HexDecodeIff(s: Bytes, b: Bytes)
    ensures HexDecode(s) == Some(b) <==> Lower(s) == HexEncode(b)
    decreases |s|
  {
    HexLength(b);
    if |s| >= 2 && b != [] {
      HexDecodeIff(s[2..], b[1..]);
      HexPair(s, b);
      LowerPair(s, b);
      ValueOfDigit(s[0], b[0] / 16);
      ValueOfDigit(s[1], b[0] % 16);
    }
  }

  // ---- base64url without padding

  function Letter(v: int): byte
    requires 0 <= v < 64
  {
    if v < 26 then 65 + v
    else if v < 52 then 71 + v
    else if v < 62 then v - 4
    else if v == 62 then 45
    else 95
  }

  // The URL-safe alphabet of section 5 of RFC 4648: capitals, small letters,
  // digits, minus, underscore.
  lemma LettersInOrder(v: int)
    requires 0 <= v < 64
    ensures v < 26 ==> Letter(v) == 'A' as int + v
    ensures 26 <= v < 52 ==> Letter(v) == 'a' as int + (v - 26)
    ensures 52 <= v < 62 ==> Letter(v) == '0' as int + (v - 52)
    ensures Letter(62) == '-' as int && Letter(63) == '_' as int
  {
  }

  function LetterValue(c: byte): (v: Option<int>)
    ensures v.Some? ==> 0 <= v.value < 64
  {
    if 65 <= c <= 90 then Some(c - 65)
    else if 97 <= c <= 122 then Some(c - 71)
    else if 48 <= c <= 57 then Some(c + 4)
    else if c == 45 then Some(62)
    else if c == 95 then Some(63)
    else None
  }

  function Encode64(s: Bytes): Bytes {
    if s == [] then []
    else if |s| == 1 then [Letter(s[0] / 4), Letter(s[0] % 4 * 16)]
    else if |s| == 2 then [Letter(s[0] / 4), Letter(s[0] % 4 * 16 + s[1] / 16), Letter(s[1] % 16 * 4)]
    else
      [Letter(s[0] / 4), Letter(s[0] % 4 * 16 + s[1] / 16), Letter(s[1] % 16 * 4 + s[2] / 64), Letter(s[2] % 64)]
      + Encode64(s[3..])
  }

  // The Go decoder skips line breaks wherever they stand.
  function StripNewlines(s: Bytes): Bytes {
    if s == [] then []
    else (if s[0] == 10 || s[0] == 13 then [] else [s[0]]) + StripNewlines(s[1..])
  }

  // Groups of four letters; a last group of one is an error, and unused low bits
  // of a shorter last group are ignored.
  function DecodeLetters(s: Bytes): Option<Bytes> {
    if s == [] then Some([])
    else if |s| == 1 then None
    else
      var a, b := LetterValue(s[0]), LetterValue(s[1]);
      if a.None? || b.None? then None
      else if |s| == 2 then Some([a.value * 4 + b.value / 16])
      else
        var c := LetterValue(s[2]);
        if c.None? then None
        else if |s| == 3 then Some([a.value * 4 + b.value / 16, b.value % 16 * 16 + c.value / 4])
        else
          var d := LetterValue(s[3]);
          if d.None? then None
          else match DecodeLetters(s[4..])
            case None => None
            case Some(rest) =>
              Some([a.value * 4 + b.value / 16, b.value % 16 * 16 + c.value / 4, c.value % 4 * 64 + d.value] + rest)
  }

  function Decode64(s: Bytes): Option<Bytes> {
    DecodeLetters(StripNewlines(s))
  }

  lemma LetterRoundTrip(v: int)
    requires 0 <= v < 64
    ensures LetterValue(Letter(v)) == Some(v) && Letter(v) != 10 && Letter(v) != 13
  {
  }

  lemma DecodeNothing()
    ensures DecodeLetters([]) == Some([])
  {
  }

  lemma {:induction false} StripNothing(s: Bytes)
    requires 10 !in s && 13 !in s
    ensures StripNewlines(s) == s
  {
    if s != [] {
      StripNothing(s[1..]);
      assert [s[0]] + s[1..] == s;
    }
  }

  lemma {:induction false} EncodedHasNoNewlines(s: Bytes)
    ensures 10 !in Encode64(s) && 13 !in Encode64(s)
  {
    if |s| >= 3 {
      EncodedHasNoNewlines(s[3..]);
    }
  }

  lemma StripFirst(c: byte, rest: Bytes)
    ensures StripNewlines([c] + rest) == (if c == 10 || c == 13 then [] else [c]) + StripNewlines(rest)
  {
    assert ([c] + rest)[1..] == rest;
  }

  lemma Associative(a: Bytes, b: Bytes, c: Bytes)
    ensures a + (b + c) == (a + b) + c
  {
  }

  lemma {:induction false} StripConcat(a: Bytes, b: Bytes)
    ensures StripNewlines(a + b) == StripNewlines(a) + StripNewlines(b)
  {
    if a == [] {
      assert a + b == b;
    } else {
      StripConcat(a[1..], b);
      hide StripNewlines;
      var h, r := if a[0] == 10 || a[0] == 13 then [] else [a[0]], a[1..];
      Associative([a[0]], r, b);
      assert [a[0]] + r == a;
      StripFirst(a[0], r);
      StripFirst(a[0], r + b);
      Associative(h, StripNewlines(r), StripNewlines(b));
    }
  }

  // A line break anywhere changes nothing.
  lemma NewlinesIgnored(a: Bytes, b: Bytes, c: byte)
    requires c == 10 || c == 13
    ensures Decode64(a + [c] + b) == Decode64(a + b)
  {
    StripConcat(a + [c], b);
    StripConcat(a, [c]);
    StripConcat(a, b);
    assert [c][1..] == [] && StripNewlines([c]) == [];
    assert StripNewlines(a) + [] == StripNewlines(a);
  }

  // The letters of the encoding, but for the low bits of the last letter that a
  // shorter last group leaves unused.
  ghost predicate SameLetters(t: Bytes, s: Bytes) {
    Alike(t, Encode64(s), |s| % 3)
  }

  // The same up to the low bits of the last letter: four of them after one byte
  // over a multiple of three, two after two.
  ghost predicate Alike(t: Bytes, e: Bytes, over: nat) {
    if over == 0 || t == [] || e == [] then t == e
    else
      && t[..|t| - 1] == e[..|e| - 1]
      && var v, unused := LetterValue(t[|t| - 1]), if over == 1 then 16 else 4;
         v.Some? && LetterValue(e[|e| - 1]) == Some(v.value / unused * unused)
  }

  lemma LetterIff(c: byte, v: int)
    requires 0 <= v < 64
    ensures LetterValue(c) == Some(v) <==> c == Letter(v)
  {
  }

  lemma AlikeInFront(t: Bytes, g: Bytes, e: Bytes, over: nat)
    requires |g| == 4 && |t| >= 4 && (over == 0 || e != [])
    ensures Alike(t, g + e, over) <==> t[..4] == g && Alike(t[4..], e, over)
  {
    hide LetterValue;
    var rest := t[4..];
    assert t == t[..4] + rest && (g + e)[..4] == g && (g + e)[4..] == e;
    if over != 0 && rest != [] {
      assert t[..|t| - 1] == t[..4] + rest[..|rest| - 1];
      assert (g + e)[..|g + e| - 1] == g + e[..|e| - 1];
      assert t[|t| - 1] == rest[|rest| - 1] && (g + e)[|g + e| - 1] == e[|e| - 1];
      ConcatIff(t[..4], rest[..|rest| - 1], g, e[..|e| - 1]);
    }
  }

  lemma ConcatIff(a: Bytes, x: Bytes, b: Bytes, y: Bytes)
    requires |a| == |b|
    ensures a + x == b + y <==> a == b && x == y
  {
    if a + x == b + y {
      assert a == (a + x)[..|a|] && b == (b + y)[..|a|] && x == (a + x)[|a|..] && y == (b + y)[|a|..];
    }
  }

  // The k-th six bits of three bytes.
  function Six(k: int, x: byte, y: byte, z: byte): (v: int)
    ensures 0 <= v < 64
  {
    if k == 0 then x / 4 else if k == 1 then x % 4 * 16 + y / 16 else if k == 2 then y % 16 * 4 + z / 64 else z % 64
  }

  function FourLetters(x: byte, y: byte, z: byte): (r: Bytes)
    ensures |r| == 4
  {
    [Letter(Six(0, x, y, z)), Letter(Six(1, x, y, z)), Letter(Six(2, x, y, z)), Letter(Six(3, x, y, z))]
  }

  lemma EncodeGroup(s: Bytes)
    requires |s| >= 3
    ensures Encode64(s) == FourLetters(s[0], s[1], s[2]) + Encode64(s[3..])
  {
    var x, y, z := s[0], s[1], s[2];
    assert Six(0, x, y, z) == x / 4 && Six(1, x, y, z) == x % 4 * 16 + y / 16;
    assert Six(2, x, y, z) == y % 16 * 4 + z / 64 && Six(3, x, y, z) == z % 64;
    hide Letter;
    hide Six;
  }

  lemma OverGroup(s: Bytes)
    requires |s| >= 3
    ensures |s| % 3 == |s[3..]| % 3 && (|s| % 3 != 0 ==> Encode64(s[3..]) != [])
  {
    hide Letter;
  }

  lemma SameGroup(t: Bytes, s: Bytes)
    requires |t| >= 4 && |s| >= 3
    ensures SameLetters(t, s) <==> t[..4] == FourLetters(s[0], s[1], s[2]) && SameLetters(t[4..], s[3..])
  {
    EncodeGroup(s);
    OverGroup(s);
    hide Encode64;
    hide FourLetters;
    hide Alike;
    AlikeInFront(t, FourLetters(s[0], s[1], s[2]), Encode64(s[3..]), |s| % 3);
  }

  // Six-bit values that regroup to three bytes are their own.
  lemma RegroupIff(a: int, b: int, c: int, d: int, x: byte, y: byte, z: byte)
    requires 0 <= a < 64 && 0 <= b < 64 && 0 <= c < 64 && 0 <= d < 64
    ensures a * 4 + b / 16 == x && b % 16 * 16 + c / 4 == y && c % 4 * 64 + d == z
      <==> a == x / 4 && b == x % 4 * 16 + y / 16 && c == y % 16 * 4 + z / 64 && d == z % 64
  {
  }

  // Four six-bit values as three bytes.
  function Grouped(a: int, b: int, c: int, d: int): (r: Bytes)
    requires 0 <= a < 64 && 0 <= b < 64 && 0 <= c < 64 && 0 <= d < 64
    ensures |r| == 3
  {
    [a * 4 + b / 16, b % 16 * 16 + c / 4, c % 4 * 64 + d]
  }

  lemma GroupedIff(a: int, b: int, c: int, d: int, x: byte, y: byte, z: byte)
    requires 0 <= a < 64 && 0 <= b < 64 && 0 <= c < 64 && 0 <= d < 64
    ensures Grouped(a, b, c, d) == [x, y, z]
      <==> a == Six(0, x, y, z) && b == Six(1, x, y, z) && c == Six(2, x, y, z) && d == Six(3, x, y, z)
  {
    RegroupIff(a, b, c, d, x, y, z);
    var g := Grouped(a, b, c, d);
    assert g == [x, y, z] <==> g[0] == x && g[1] == y && g[2] == z;
  }

  lemma FourLettersIff(t: Bytes, x: byte, y: byte, z: byte)
    requires |t| >= 4
    ensures t[..4] == FourLetters(x, y, z)
      <==> forall k :: 0 <= k < 4 ==> LetterValue(t[k]) == Some(Six(k, x, y, z))
  {
    LetterIff(t[0], Six(0, x, y, z));
    LetterIff(t[1], Six(1, x, y, z));
    LetterIff(t[2], Six(2, x, y, z));
    LetterIff(t[3], Six(3, x, y, z));
    hide Letter;
    hide LetterValue;
    hide Six;
    assert t[..4] == [t[0], t[1], t[2], t[3]];
  }

  lemma DecodeStep(t: Bytes)
    requires |t| >= 4
    ensures var a, b, c, d, rest :=
        LetterValue(t[0]), LetterValue(t[1]), LetterValue(t[2]), LetterValue(t[3]), DecodeLetters(t[4..]);
      DecodeLetters(t) == if a.None? || b.None? || c.None? || d.None? || rest.None? then None
                          else Some(Grouped(a.value, b.value, c.value, d.value) + rest.value)
  {
    hide LetterValue;
  }

  lemma DecodeGroupIff(t: Bytes, s: Bytes)
    requires |t| >= 4 && |s| >= 3
    ensures DecodeLetters(t) == Some(s)
      <==> t[..4] == FourLetters(s[0], s[1], s[2]) && DecodeLetters(t[4..]) == Some(s[3..])
  {
    hide *;
    var a, b, c, d := LetterValue(t[0]), LetterValue(t[1]), LetterValue(t[2]), LetterValue(t[3]);
    var rest := DecodeLetters(t[4..]);
    FourLettersIff(t, s[0], s[1], s[2]);
    DecodeStep(t);
    if a.Some? && b.Some? && c.Some? && d.Some? && rest.Some? {
      GroupedIff(a.value, b.value, c.value, d.value, s[0], s[1], s[2]);
      assert s == [s[0], s[1], s[2]] + s[3..];
      ConcatIff(Grouped(a.value, b.value, c.value, d.value), rest.value, [s[0], s[1], s[2]], s[3..]);
    }
  }

  lemma OneByteIff(t: Bytes, s: Bytes)
    requires |t| == 2 && |s| == 1
    ensures DecodeLetters(t) == Some(s) <==> SameLetters(t, s)
  {
    var a, b := LetterValue(t[0]), LetterValue(t[1]);
    LetterIff(t[0], s[0] / 4);
    LetterRoundTrip(s[0] % 4 * 16);
    hide Letter;
    hide LetterValue;
    assert s == [s[0]];
    assert DecodeLetters(t) == Some(s)
      <==> a == Some(s[0] / 4) && b.Some? && b.value / 16 == s[0] % 4;
    assert t[..1] == [t[0]] && Encode64(s)[..1] == [Letter(s[0] / 4)];
  }

  lemma TwoBytesIff(t: Bytes, s: Bytes)
    requires |t| == 3 && |s| == 2
    ensures DecodeLetters(t) == Some(s) <==> SameLetters(t, s)
  {
    var a, b, c := LetterValue(t[0]), LetterValue(t[1]), LetterValue(t[2]);
    LetterIff(t[0], s[0] / 4);
    LetterIff(t[1], s[0] % 4 * 16 + s[1] / 16);
    LetterRoundTrip(s[1] % 16 * 4);
    hide Letter;
    hide LetterValue;
    assert s == [s[0], s[1]];
    if a.Some? && b.Some? && c.Some? {
      RegroupIff(a.value, b.value, c.value / 4 * 4, 0, s[0], s[1], 0);
    }
    assert t[..2] == [t[0], t[1]] && Encode64(s)[..2] == [Letter(s[0] / 4), Letter(s[0] % 4 * 16 + s[1] / 16)];
  }

  lemma LettersCount(t: Bytes, s: Bytes)
    ensures DecodeLetters(t) == Some(s) ==> if |t| >= 4 then |s| >= 3 else (|t|, |s|) in {(0, 0), (2, 1), (3, 2)}
    ensures SameLetters(t, s) ==> if |t| >= 4 then |s| >= 3 else (|t|, |s|) in {(0, 0), (2, 1), (3, 2)}
  {
    hide Letter;
    hide LetterValue;
  }

  lemma DecodeLastIff(t: Bytes, s: Bytes)
    requires |t| < 4 || |s| < 3
    ensures DecodeLetters(t) == Some(s) <==> SameLetters(t, s)
  {
    LettersCount(t, s);
    if |t| == 2 && |s| == 1 {
      OneByteIff(t, s);
    } else if |t| == 3 && |s| == 2 {
      TwoBytesIff(t, s);
    } else if t == [] && s == [] {
      DecodeNothing();
    } else {
      hide DecodeLetters;
      hide SameLetters;
    }
  }

  // Exactly these texts decode.
  lemma {:induction false} Decode64Iff(t: Bytes, s: Bytes)
    requires 10 !in t && 13 !in t
    ensures Decode64(t) == Some(s) <==> SameLetters(t, s)
    decreases |t|
  {
    hide SameLetters;
    hide DecodeLetters;
    StripNothing(t);
    if |t| < 4 || |s| < 3 {
      DecodeLastIff(t, s);
    } else {
      StripNothing(t[4..]);
      Decode64Iff(t[4..], s[3..]);
      SameGroup(t, s);
      DecodeGroupIff(t, s);
    }
  }

  lemma {:induction false} EncodingIsAlike(s: Bytes)
    ensures SameLetters(Encode64(s), s)
  {
    if |s| >= 3 {
      EncodingIsAlike(s[3..]);
      EncodeGroup(s);
      OverGroup(s);
      hide Encode64;
      AlikeInFront(Encode64(s), FourLetters(s[0], s[1], s[2]), Encode64(s[3..]), |s| % 3);
    } else if |s| == 1 {
      LetterRoundTrip(s[0] % 4 * 16);
    } else if |s| == 2 {
      LetterRoundTrip(s[1] % 16 * 4);
    }
  }

  lemma Base64RoundTrip(s: Bytes)
    ensures Decode64(Encode64(s)) == Some(s)
  {
    EncodedHasNoNewlines(s);
    EncodingIsAlike(s);
    Decode64Iff(Encode64(s), s);
  }

  function Ascii(s: string): (r: Bytes)
    requires forall i :: 0 <= i < |s| ==> s[i] < 128 as char
    ensures |r| == |s|
  {
    seq(|s|, i requires 0 <= i < |s| => s[i] as int)
  }

  // Vectors of section 10 of RFC 4648.
  lemma Rfc4648Vectors()
    ensures Encode64([102]) == Ascii("Zg")
    ensures Encode64([102, 111]) == Ascii("Zm8")
    ensures Encode64([102, 111, 111]) == Ascii("Zm9v")
    ensures HexEncode([102, 111]) == Ascii("666f")
  {
    assert [102, 111, 111][3..] == [];
    assert [102, 111][1..] == [111] && [111][1..] == [];
    assert HexEncode([111]) == [54, 102];
  }
}
