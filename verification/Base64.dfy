/** Unpadded base64 of RFC 4648, with its standard (section 4) and URL-safe (section 5) alphabets. */
module Base64 {
  import opened Common

  datatype Alphabet = Standard | UrlSafe

  type sextet = n: int | 0 <= n < 64

  function Digit(a: Alphabet, v: sextet): char {
    if v < 26 then 'A' + v as char
    else if v < 52 then 'a' + (v - 26) as char
    else if v < 62 then '0' + (v - 52) as char
    else if v == 62 then (if a.Standard? then '+' else '-')
    else (if a.Standard? then '/' else '_')
  }

  function Value(a: Alphabet, c: char): Option<sextet> {
    if 'A' <= c <= 'Z' then Some(c as int - 'A' as int)
    else if 'a' <= c <= 'z' then Some(c as int - 'a' as int + 26)
    else if '0' <= c <= '9' then Some(c as int - '0' as int + 52)
    else if c == (if a.Standard? then '+' else '-') then Some(62)
    else if c == (if a.Standard? then '/' else '_') then Some(63)
    else None
  }

  function Digits(a: Alphabet, q: seq<sextet>): (s: string)
    ensures |s| == |q|
  {
    if q == [] then "" else [Digit(a, q[0])] + Digits(a, q[1..])
  }

  function Values(a: Alphabet, s: string): Option<seq<sextet>> {
    if s == "" then Some([])
    else
      var v, rest := Value(a, s[0]), Values(a, s[1..]);
      if v.Some? && rest.Some? then Some([v.value] + rest.value) else None
  }

  // The four digits that carry three bytes, and the three bytes that four digits carry.
  function S0(x: byte): sextet { (x as int) / 4 }
  function S1(x: byte, y: byte): sextet { (x as int) % 4 * 16 + (y as int) / 16 }
  function S2(y: byte, z: byte): sextet { (y as int) % 16 * 4 + (z as int) / 64 }
  function S3(z: byte): sextet { (z as int) % 64 }
  function B0(p: sextet, q: sextet): byte { (p as int) * 4 + (q as int) / 16 }
  function B1(q: sextet, r: sextet): byte { (q as int) % 16 * 16 + (r as int) / 4 }
  function B2(r: sextet, s: sextet): byte { (r as int) % 4 * 64 + (s as int) }

  /** Three bytes make four digits; a rest of one or two bytes is filled up with zero bits. */
  function Sextets(b: Bytes): seq<sextet> {
    if |b| == 0 then []
    else if |b| == 1 then [S0(b[0]), S1(b[0], 0)]
    else if |b| == 2 then [S0(b[0]), S1(b[0], b[1]), S2(b[1], 0)]
    else [S0(b[0]), S1(b[0], b[1]), S2(b[1], b[2]), S3(b[2])] + Sextets(b[3..])
  }

  /** The decoder refuses a lone digit at the end and drops the spare bits of a short last group. */
  function Octets(q: seq<sextet>): Option<Bytes> {
    if |q| == 0 then Some([])
    else if |q| == 1 then None
    else if |q| == 2 then Some([B0(q[0], q[1])])
    else if |q| == 3 then Some([B0(q[0], q[1]), B1(q[1], q[2])])
    else
      var rest := Octets(q[4..]);
      if rest.None? then None
      else Some([B0(q[0], q[1]), B1(q[1], q[2]), B2(q[2], q[3])] + rest.value)
  }

  /** Go's decoder skips line breaks anywhere in its input. */
  function StripNewlines(s: string): string {
    if s == "" then ""
    else (if s[0] == '\n' || s[0] == '\r' then "" else [s[0]]) + StripNewlines(s[1..])
  }

  function Encode(a: Alphabet, b: Bytes): string {
    Digits(a, Sextets(b))
  }

  function Decode(a: Alphabet, s: string): Option<Bytes> {
    var q := Values(a, StripNewlines(s));
    if q.None? then None else Octets(q.value)
  }

  // ----- Round trips -----

  predicate SpareBitsZero(q: seq<sextet>) {
    && (|q| % 4 == 2 ==> q[|q| - 1] % 16 == 0)
    && (|q| % 4 == 3 ==> q[|q| - 1] % 4 == 0)
  }

  lemma GroupOfBytes(x: byte, y: byte, z: byte)
    ensures B0(S0(x), S1(x, y)) == x && B1(S1(x, y), S2(y, z)) == y && B2(S2(y, z), S3(z)) == z
  {
  }

  lemma GroupOfDigits(p: sextet, q: sextet, r: sextet, s: sextet)
    ensures S0(B0(p, q)) == p && S1(B0(p, q), B1(q, r)) == q
    ensures S2(B1(q, r), B2(r, s)) == r && S3(B2(r, s)) == s
    ensures q % 16 == 0 ==> S1(B0(p, q), 0) == q
    ensures r % 4 == 0 ==> S2(B1(q, r), 0) == r
  {
  }

  lemma FullGroup(p: sextet, q: sextet, r: sextet, s: sextet, rest: seq<sextet>)
    requires Octets(rest).Some?
    ensures Octets([p, q, r, s] + rest) == Some([B0(p, q), B1(q, r), B2(r, s)] + Octets(rest).value)
  {
    assert ([p, q, r, s] + rest)[4..] == rest;
  }

  lemma OctetsOfTwo(p: sextet, q: sextet)
    ensures Octets([p, q]) == Some([B0(p, q)])
  {
  }

  lemma OctetsOfThree(p: sextet, q: sextet, r: sextet)
    ensures Octets([p, q, r]) == Some([B0(p, q), B1(q, r)])
  {
  }

  lemma OneByte(x: byte)
    ensures Octets(Sextets([x])) == Some([x])
  {
    GroupOfBytes(x, 0, 0);
    OctetsOfTwo(S0(x), S1(x, 0));
  }

  lemma TwoBytes(x: byte, y: byte)
    ensures Octets(Sextets([x, y])) == Some([x, y])
  {
    GroupOfBytes(x, y, 0);
    OctetsOfThree(S0(x), S1(x, y), S2(y, 0));
  }

  lemma {:induction false} OctetsOfSextets(b: Bytes)
    ensures Octets(Sextets(b)) == Some(b)
  {
    if |b| == 0 {
    } else if |b| == 1 {
      OneByte(b[0]);
      assert b == [b[0]];
    } else if |b| == 2 {
      TwoBytes(b[0], b[1]);
      assert b == [b[0], b[1]];
    } else {
      OctetsOfSextets(b[3..]);
      GroupOfBytes(b[0], b[1], b[2]);
      FullGroup(S0(b[0]), S1(b[0], b[1]), S2(b[1], b[2]), S3(b[2]), Sextets(b[3..]));
      assert b == [b[0], b[1], b[2]] + b[3..];
    }
  }

  lemma FilledDigits(x: byte, y: byte)
    ensures S1(x, 0) % 16 == 0 && S2(y, 0) % 4 == 0
  {
  }

  lemma SpareBitsAfterGroup(group: seq<sextet>, rest: seq<sextet>)
    requires |group| == 4 && SpareBitsZero(rest)
    ensures SpareBitsZero(group + rest)
  {
  }

  lemma {:induction false} SextetsFillWithZeros(b: Bytes)
    ensures SpareBitsZero(Sextets(b))
  {
    if |b| == 0 {
    } else if |b| == 1 {
      FilledDigits(b[0], 0);
    } else if |b| == 2 {
      FilledDigits(b[0], b[1]);
    } else {
      SextetsFillWithZeros(b[3..]);
      SpareBitsAfterGroup([S0(b[0]), S1(b[0], b[1]), S2(b[1], b[2]), S3(b[2])], Sextets(b[3..]));
    }
  }

  lemma TwoDigits(p: sextet, q: sextet)
    requires q % 16 == 0
    ensures Sextets([B0(p, q)]) == [p, q]
  {
    GroupOfDigits(p, q, 0, 0);
  }

  lemma ThreeDigits(p: sextet, q: sextet, r: sextet)
    requires r % 4 == 0
    ensures Sextets([B0(p, q), B1(q, r)]) == [p, q, r]
  {
    GroupOfDigits(p, q, r, 0);
  }

  lemma GroupFirst(x: byte, y: byte, z: byte, rest: Bytes)
    ensures Sextets([x, y, z] + rest) == [S0(x), S1(x, y), S2(y, z), S3(z)] + Sextets(rest)
  {
    assert ([x, y, z] + rest)[3..] == rest;
  }

  lemma FourDigits(p: sextet, q: sextet, r: sextet, s: sextet, rest: Bytes)
    ensures Sextets([B0(p, q), B1(q, r), B2(r, s)] + rest) == [p, q, r, s] + Sextets(rest)
  {
    GroupOfDigits(p, q, r, s);
    GroupFirst(B0(p, q), B1(q, r), B2(r, s), rest);
  }

  lemma SpareBitsOfTail(q: seq<sextet>)
    requires |q| >= 4 && SpareBitsZero(q)
    ensures SpareBitsZero(q[4..])
  {
  }

  lemma {:induction false} SextetsOfOctets(q: seq<sextet>)
    requires Octets(q).Some? && SpareBitsZero(q)
    ensures Sextets(Octets(q).value) == q
  {
    if |q| == 0 {
    } else if |q| == 2 {
      TwoDigits(q[0], q[1]);
      assert q == [q[0], q[1]];
    } else if |q| == 3 {
      ThreeDigits(q[0], q[1], q[2]);
      assert q == [q[0], q[1], q[2]];
    } else {
      SpareBitsOfTail(q);
      SextetsOfOctets(q[4..]);
      FourDigits(q[0], q[1], q[2], q[3], Octets(q[4..]).value);
      assert q == [q[0], q[1], q[2], q[3]] + q[4..];
    }
  }

  predicate AllDigits(a: Alphabet, s: string) {
    forall c :: c in s ==> Value(a, c).Some?
  }

  lemma DigitValue(a: Alphabet, v: sextet)
    ensures Value(a, Digit(a, v)) == Some(v)
  {
  }

  lemma {:induction false} ValuesOfDigits(a: Alphabet, q: seq<sextet>)
    ensures Values(a, Digits(a, q)) == Some(q)
    ensures AllDigits(a, Digits(a, q))
  {
    if q != [] {
      ValuesOfDigits(a, q[1..]);
      assert Digits(a, q)[1..] == Digits(a, q[1..]);
      assert [q[0]] + q[1..] == q;
      DigitValue(a, q[0]);
    }
  }

  lemma {:induction false} DigitsOfValues(a: Alphabet, s: string)
    requires Values(a, s).Some?
    ensures Digits(a, Values(a, s).value) == s
  {
    if s != "" {
      DigitsOfValues(a, s[1..]);
    }
  }

  lemma {:induction false} NothingToStrip(a: Alphabet, s: string)
    requires AllDigits(a, s)
    ensures StripNewlines(s) == s
  {
    if s != "" {
      assert Value(a, s[0]).Some?;
      NothingToStrip(a, s[1..]);
      assert [s[0]] + s[1..] == s;
    }
  }

  /** Decoding undoes encoding, whatever the length modulo three. */
  lemma RoundTrip(a: Alphabet, b: Bytes)
    ensures Decode(a, Encode(a, b)) == Some(b)
  {
    OctetsOfSextets(b);
    ValuesOfDigits(a, Sextets(b));
    NothingToStrip(a, Encode(a, b));
  }

  /** A text is the encoding of b exactly when it decodes to b, has no line breaks and no spare bits set. */
  lemma EncodingIsCanonical(a: Alphabet, b: Bytes, s: string)
    ensures
      s == Encode(a, b)
      <==> && Decode(a, s) == Some(b) && AllDigits(a, s)
           && SpareBitsZero(Values(a, StripNewlines(s)).value)
  {
    if s == Encode(a, b) {
      RoundTrip(a, b);
      SextetsFillWithZeros(b);
      ValuesOfDigits(a, Sextets(b));
      NothingToStrip(a, s);
    } else if Decode(a, s) == Some(b) && AllDigits(a, s) && SpareBitsZero(Values(a, StripNewlines(s)).value) {
      NothingToStrip(a, s);
      DigitsOfValues(a, s);
      SextetsOfOctets(Values(a, s).value);
    }
  }

  lemma {:induction false} OctetsLength(q: seq<sextet>)
    requires |q| % 4 != 1
    ensures Octets(q).Some? && |Octets(q).value| == |q| * 3 / 4
  {
    if |q| >= 4 {
      OctetsLength(q[4..]);
    }
  }

  lemma {:induction false} ValuesOfAllDigits(a: Alphabet, s: string)
    requires AllDigits(a, s)
    ensures Values(a, s).Some? && |Values(a, s).value| == |s|
    ensures forall i :: 0 <= i < |s| ==> Some(Values(a, s).value[i]) == Value(a, s[i])
  {
    if s != "" {
      assert Value(a, s[0]).Some?;
      ValuesOfAllDigits(a, s[1..]);
    }
  }

  /** 43 URL-safe digits whose last one leaves its spare bits zero are the encoding of some 32 bytes. */
  lemma EveryTokenIsDrawn(token: string)
    requires |token| == 43 && AllDigits(UrlSafe, token)
    requires Value(UrlSafe, token[42]).value % 4 == 0
    ensures exists random: Bytes :: |random| == 32 && Encode(UrlSafe, random) == token
  {
    ValuesOfAllDigits(UrlSafe, token);
    NothingToStrip(UrlSafe, token);
    var q := Values(UrlSafe, token).value;
    OctetsLength(q);
    EncodingIsCanonical(UrlSafe, Octets(q).value, token);
    assert |Octets(q).value| == 32 && Encode(UrlSafe, Octets(q).value) == token;
  }

  // ----- The encoding as RFC 4648 defines it -----

  /** Each run of letters or digits of tables 1 and 2 starts and ends as printed there and rises in between. */
  lemma AlphabetsAreTheTables(a: Alphabet, v: sextet, w: sextet)
    ensures Digit(a, 0) == 'A' && Digit(a, 25) == 'Z' && Digit(a, 26) == 'a' && Digit(a, 51) == 'z'
    ensures Digit(a, 52) == '0' && Digit(a, 61) == '9'
    ensures Digit(Standard, 62) == '+' && Digit(Standard, 63) == '/'
    ensures Digit(UrlSafe, 62) == '-' && Digit(UrlSafe, 63) == '_'
    ensures v < w < 26 || 26 <= v < w < 52 || 52 <= v < w < 62 ==> Digit(a, v) < Digit(a, w)
  {
  }

  /** The number that the digits write in the base. */
  function Number(digits: seq<int>, base: nat): int {
    if digits == [] then 0 else Number(digits[..|digits| - 1], base) * base + digits[|digits| - 1]
  }

  lemma TwoDigitNumber(x: int, y: int, base: nat)
    ensures Number([x], base) == x && Number([x, y], base) == x * base + y
  {
    assert [x][..0] == [] && [x, y][..1] == [x];
  }

  lemma ThreeDigitNumber(x: int, y: int, z: int, base: nat)
    ensures Number([x, y, z], base) == (x * base + y) * base + z
  {
    assert [x, y, z][..2] == [x, y];
    TwoDigitNumber(x, y, base);
  }

  lemma FourDigitNumber(p: int, q: int, r: int, s: int)
    ensures Number([p, q, r, s], 64) == ((p * 64 + q) * 64 + r) * 64 + s
  {
    assert [p, q, r, s][..3] == [p, q, r];
    ThreeDigitNumber(p, q, r, 64);
  }

  lemma Regrouped(x: byte, y: byte, z: byte)
    ensures
      (((S0(x) as int) * 64 + S1(x, y) as int) * 64 + S2(y, z) as int) * 64 + S3(z) as int
      == ((x as int) * 256 + y as int) * 256 + z as int
    ensures ((S0(x) as int) * 64 + S1(x, y) as int) * 64 + S2(y, 0) as int == ((x as int) * 256 + y as int) * 4
    ensures (S0(x) as int) * 64 + S1(x, 0) as int == (x as int) * 16
  {
  }

  /** Three bytes are one number of 24 bits, written with four digits of 6 bits. */
  lemma FullGroupIsBigEndian(x: byte, y: byte, z: byte)
    ensures |Sextets([x, y, z])| == 4 && Number(Sextets([x, y, z]), 64) == Number([x, y, z], 256)
  {
    assert [x, y, z][3..] == [];
    assert Sextets([x, y, z]) == [S0(x), S1(x, y), S2(y, z), S3(z)];
    FourDigitNumber(S0(x), S1(x, y), S2(y, z), S3(z));
    ThreeDigitNumber(x, y, z, 256);
    Regrouped(x, y, z);
  }

  /** A last group of one or two bytes is filled up with zero bits. */
  lemma ShortGroupsAreBigEndian(x: byte, y: byte)
    ensures |Sextets([x, y])| == 3 && Number(Sextets([x, y]), 64) == Number([x, y], 256) * 4
    ensures |Sextets([x])| == 2 && Number(Sextets([x]), 64) == Number([x], 256) * 16
  {
    ThreeDigitNumber(S0(x), S1(x, y), S2(y, 0), 64);
    TwoDigitNumber(S0(x), S1(x, 0), 64);
    TwoDigitNumber(x, y, 256);
    Regrouped(x, y, 0);
  }

  /** A text is encoded group by group, and digit by digit. */
  lemma EncodedGroupByGroup(a: Alphabet, group: Bytes, rest: Bytes)
    requires |group| == 3
    ensures Encode(a, group + rest) == Encode(a, group) + Encode(a, rest)
  {
    var b := group + rest;
    assert b[0] == group[0] && b[1] == group[1] && b[2] == group[2] && b[3..] == rest && group[3..] == [];
    assert Sextets(b) == Sextets(group) + Sextets(rest);
    DigitsConcat(a, Sextets(group), Sextets(rest));
  }

  lemma {:induction false} DigitsConcat(a: Alphabet, p: seq<sextet>, q: seq<sextet>)
    ensures Digits(a, p + q) == Digits(a, p) + Digits(a, q)
  {
    if p == [] {
      assert p + q == q;
    } else {
      assert (p + q)[1..] == p[1..] + q;
      DigitsConcat(a, p[1..], q);
    }
  }

  lemma {:induction false} EncodedDigitByDigit(a: Alphabet, b: Bytes)
    ensures
      |Encode(a, b)| == |Sextets(b)| && forall i :: 0 <= i < |Sextets(b)| ==> Encode(a, b)[i] == Digit(a, Sextets(b)[i])
  {
    DigitsAt(a, Sextets(b));
  }

  lemma {:induction false} DigitsAt(a: Alphabet, q: seq<sextet>)
    ensures forall i :: 0 <= i < |q| ==> Digits(a, q)[i] == Digit(a, q[i])
  {
    if q != [] {
      DigitsAt(a, q[1..]);
    }
  }
}
