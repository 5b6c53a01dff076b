/** The Argon2id hash string: printing, parsing and verification. */
module PasswordHash {
  import opened Common
  import opened Text
  import Base64

  /** argon(password, salt, iterations, memory, parallelism, keyLength) */
  type Argon = (Bytes, Bytes, nat, nat, nat, nat) -> Bytes

  const VERSION: nat := 19
  const MEMORY: nat := 64 * 1024
  const ITERATIONS: nat := 3
  const PARALLELISM: nat := 4
  const SALT_LENGTH: nat := 16
  const KEY_LENGTH: nat := 32

  type Salt = s: Bytes | |s| == SALT_LENGTH witness seq(SALT_LENGTH, _ => 0)

  datatype Parameters = Parameters(memory: nat, iterations: nat, parallelism: nat, salt: Bytes, digest: Bytes)

  /** The limits that a stored hash must respect before any memory is spent on it. */
  predicate Legal(p: Parameters) {
    && 8 * 1024 <= p.memory <= 256 * 1024
    && 1 <= p.iterations <= 10
    && 1 <= p.parallelism <= 16
    && 16 <= |p.salt| <= 64
    && 16 <= |p.digest| <= 64
  }

  ghost predicate Lawful(argon: Argon) {
    forall pw: Bytes, salt: Bytes, t: nat, m: nat, p: nat, n: nat :: |argon(pw, salt, t, m, p, n)| == n
  }

  // ----- Decimal numbers -----

  predicate IsDigit(c: char) { '0' <= c <= '9' }

  function Decimal(n: nat): string {
    if n < 10 then ['0' + n as char] else Decimal(n / 10) + ['0' + (n % 10) as char]
  }

  function ToNat(digits: string): nat
    requires forall c :: c in digits ==> IsDigit(c)
  {
    if digits == "" then 0
    else
      assert IsDigit(digits[|digits| - 1]);
      ToNat(digits[..|digits| - 1]) * 10 + (digits[|digits| - 1] as int - '0' as int)
  }

  function DigitRun(s: string): (n: nat)
    ensures n <= |s| && forall c :: c in s[..n] ==> IsDigit(c)
  {
    if s != "" && IsDigit(s[0]) then
      assert forall c :: c in s[..1 + DigitRun(s[1..])] ==> c == s[0] || c in s[1..][..DigitRun(s[1..])];
      1 + DigitRun(s[1..])
    else 0
  }

  lemma {:induction false} DecimalReadsBack(n: nat)
    ensures Decimal(n) != "" && forall c :: c in Decimal(n) ==> IsDigit(c)
    ensures ToNat(Decimal(n)) == n
  {
    if n >= 10 {
      DecimalReadsBack(n / 10);
      assert Decimal(n)[..|Decimal(n)| - 1] == Decimal(n / 10);
    }
  }

  lemma {:induction false} DigitRunStops(digits: string, rest: string)
    requires forall c :: c in digits ==> IsDigit(c)
    requires rest == "" || !IsDigit(rest[0])
    ensures DigitRun(digits + rest) == |digits|
  {
    if digits == "" {
      assert digits + rest == rest;
    } else {
      assert (digits + rest)[1..] == digits[1..] + rest;
      DigitRunStops(digits[1..], rest);
    }
  }

  // ----- Scanning -----

  function Literal(s: string, text: string): Option<string> {
    if text <= s then Some(s[|text|..]) else None
  }

  /** The scanner skips blanks before a number, but refuses to cross a line break. */
  function SkipBlanks(s: string): Option<string> {
    if s == "" then Some(s)
    else if s[0] == '\n' then None
    else if IsSpace(s[0]) then SkipBlanks(s[1..])
    else Some(s)
  }

  function ScanNat(s: string): Option<(nat, string)> {
    match SkipBlanks(s)
    case None => None
    case Some(t) =>
      var n := DigitRun(t);
      if n == 0 then None else Some((ToNat(t[..n]), t[n..]))
  }

  /** A signed number: the sign comes after the blanks and right before the digits. */
  function ScanInt(s: string): Option<(int, string)> {
    match SkipBlanks(s)
    case None => None
    case Some(t) =>
      var signed := t != "" && (t[0] == '+' || t[0] == '-');
      var u := if signed then t[1..] else t;
      var n := DigitRun(u);
      if n == 0 then None
      else
        var magnitude: int := ToNat(u[..n]);
        Some((if signed && t[0] == '-' then -magnitude else magnitude, u[n..]))
  }

  function ScanLabelled(s: string, name: string): Option<(nat, string)> {
    match Literal(s, name)
    case None => None
    case Some(t) => ScanNat(t)
  }

  lemma ScansBack(n: nat, rest: string)
    requires rest == "" || !IsDigit(rest[0])
    ensures ScanNat(Decimal(n) + rest) == Some((n, rest))
    ensures ScanInt(Decimal(n) + rest) == Some((n, rest))
  {
    DecimalReadsBack(n);
    DigitRunStops(Decimal(n), rest);
    var s := Decimal(n) + rest;
    assert s[0] == Decimal(n)[0];
    assert s[..|Decimal(n)|] == Decimal(n) && s[|Decimal(n)|..] == rest;
  }

  // ----- The hash string -----

  function CostField(p: Parameters): string {
    "m=" + Decimal(p.memory) + ",t=" + Decimal(p.iterations) + ",p=" + Decimal(p.parallelism)
  }

  function Render(p: Parameters): string {
    "$argon2id$v=" + Decimal(VERSION) + "$" + CostField(p)
    + "$" + Base64.Encode(Base64.Standard, p.salt) + "$" + Base64.Encode(Base64.Standard, p.digest)
  }

  function ParseVersion(field: string): Option<int> {
    match Literal(field, "v=")
    case None => None
    case Some(t) => var v := ScanInt(t); if v.None? then None else Some(v.value.0)
  }

  /** Memory, iterations and parallelism; whatever follows the third number is ignored. */
  function ParseCosts(field: string): Option<(nat, nat, nat)> {
    var m := ScanLabelled(field, "m=");
    if m.None? then None
    else
      var t := ScanLabelled(m.value.1, ",t=");
      if t.None? then None
      else
        var p := ScanLabelled(t.value.1, ",p=");
        if p.None? then None else Some((m.value.0, t.value.0, p.value.0))
  }

  /** None stands for ErrInvalidPasswordHash. */
  function Parse(encoded: string): (r: Option<Parameters>)
    ensures r.Some? ==> Legal(r.value)
  {
    var parts := Split(encoded, '$');
    if |parts| != 6 || parts[1] != "argon2id" then None
    else if ParseVersion(parts[2]) != Some(VERSION) then None
    else
      var costs := ParseCosts(parts[3]);
      var salt := Base64.Decode(Base64.Standard, parts[4]);
      var digest := Base64.Decode(Base64.Standard, parts[5]);
      if costs.None? || salt.None? || digest.None? then None
      else
        var p := Parameters(costs.value.0, costs.value.1, costs.value.2, salt.value, digest.value);
        if Legal(p) then Some(p) else None
  }

  function HashPassword(argon: Argon, password: Bytes, salt: Salt): string {
    Render(Parameters(MEMORY, ITERATIONS, PARALLELISM, salt,
                      argon(password, salt, ITERATIONS, MEMORY, PARALLELISM, KEY_LENGTH)))
  }

  function VerifyPassword(argon: Argon, password: Bytes, encoded: string): Option<bool> {
    match Parse(encoded)
    case None => None
    case Some(p) =>
      Some(argon(password, p.salt, p.iterations, p.memory, p.parallelism, |p.digest|) == p.digest)
  }

  // ----- Printing and parsing agree -----

  lemma LabelledScansBack(name: string, n: nat, rest: string)
    requires rest == "" || !IsDigit(rest[0])
    ensures ScanLabelled(name + Decimal(n) + rest, name) == Some((n, rest))
  {
    ScansBack(n, rest);
    var s := name + Decimal(n) + rest;
    assert s == name + (Decimal(n) + rest);
    assert s[|name|..] == Decimal(n) + rest;
  }

  lemma CostsReadBack(p: Parameters)
    ensures ParseCosts(CostField(p)) == Some((p.memory, p.iterations, p.parallelism))
  {
    var afterT := ",p=" + Decimal(p.parallelism) + "";
    var afterM := ",t=" + Decimal(p.iterations) + afterT;
    assert CostField(p) == "m=" + Decimal(p.memory) + afterM;
    LabelledScansBack("m=", p.memory, afterM);
    LabelledScansBack(",t=", p.iterations, afterT);
    LabelledScansBack(",p=", p.parallelism, "");
  }

  lemma VersionReadsBack()
    ensures ParseVersion("v=" + Decimal(VERSION)) == Some(VERSION)
  {
    ScansBack(VERSION, "");
    assert ("v=" + Decimal(VERSION))[2..] == Decimal(VERSION) + "";
  }

  function Fields(p: Parameters): seq<string> {
    ["", "argon2id", "v=" + Decimal(VERSION), CostField(p),
     Base64.Encode(Base64.Standard, p.salt), Base64.Encode(Base64.Standard, p.digest)]
  }

  lemma JoinSix(a: string, b: string, c: string, d: string, e: string, f: string, sep: char)
    ensures
      Join([a, b, c, d, e, f], sep)
      == a + [sep] + (b + [sep] + (c + [sep] + (d + [sep] + (e + [sep] + f))))
  {
    assert [a, b, c, d, e, f] == [a] + [b, c, d, e, f] && [b, c, d, e, f] == [b] + [c, d, e, f];
    assert [c, d, e, f] == [c] + [d, e, f] && [d, e, f] == [d] + [e, f] && [e, f] == [e] + [f];
    JoinMore(a, [b, c, d, e, f], sep);
    JoinMore(b, [c, d, e, f], sep);
    JoinMore(c, [d, e, f], sep);
    JoinMore(d, [e, f], sep);
    JoinMore(e, [f], sep);
  }

  lemma RenderJoinsFields(p: Parameters)
    ensures Render(p) == Join(Fields(p), '$')
  {
    var f := Fields(p);
    JoinSix(f[0], f[1], f[2], f[3], f[4], f[5], '$');
    RegroupHash(f[2][2..], f[3], f[4], f[5]);
    assert f[2] == "v=" + f[2][2..];
    assert f == [f[0], f[1], f[2], f[3], f[4], f[5]];
  }

  lemma RegroupHash(v: string, c: string, s: string, d: string)
    ensures
      "$argon2id$v=" + v + "$" + c + "$" + s + "$" + d
      == "" + "$" + ("argon2id" + "$" + (("v=" + v) + "$" + (c + "$" + (s + "$" + d))))
  {
  }

  lemma DecimalAvoidsSeparator(n: nat)
    ensures '$' !in Decimal(n)
  {
    DecimalReadsBack(n);
  }

  lemma CostFieldAvoidsSeparator(p: Parameters)
    ensures '$' !in CostField(p)
  {
    DecimalAvoidsSeparator(p.memory);
    DecimalAvoidsSeparator(p.iterations);
    DecimalAvoidsSeparator(p.parallelism);
  }

  lemma EncodingAvoidsSeparator(b: Bytes)
    ensures '$' !in Base64.Encode(Base64.Standard, b)
  {
    Base64.ValuesOfDigits(Base64.Standard, Base64.Sextets(b));
  }

  lemma FieldsAvoidSeparator(p: Parameters)
    ensures forall f :: f in Fields(p) ==> '$' !in f
  {
    DecimalAvoidsSeparator(VERSION);
    CostFieldAvoidsSeparator(p);
    EncodingAvoidsSeparator(p.salt);
    EncodingAvoidsSeparator(p.digest);
  }

  /** Parsing reads back every printed hash within the limits, and accepts nothing outside them. */
  lemma ParseUndoesRender(p: Parameters)
    ensures Parse(Render(p)) == if Legal(p) then Some(p) else None
  {
    RenderJoinsFields(p);
    FieldsAvoidSeparator(p);
    SplitOfJoin(Fields(p), '$');
    VersionReadsBack();
    CostsReadBack(p);
    Base64.RoundTrip(Base64.Standard, p.salt);
    Base64.RoundTrip(Base64.Standard, p.digest);
  }

  /** A fresh hash accepts a candidate exactly when both passwords have one digest under its salt. */
  lemma VerifyAgainstFreshHash(argon: Argon, password: Bytes, salt: Salt, candidate: Bytes)
    requires Lawful(argon)
    ensures
      VerifyPassword(argon, candidate, HashPassword(argon, password, salt))
      == Some(argon(candidate, salt, ITERATIONS, MEMORY, PARALLELISM, KEY_LENGTH)
              == argon(password, salt, ITERATIONS, MEMORY, PARALLELISM, KEY_LENGTH))
  {
    ParseUndoesRender(Parameters(MEMORY, ITERATIONS, PARALLELISM, salt,
                                 argon(password, salt, ITERATIONS, MEMORY, PARALLELISM, KEY_LENGTH)));
  }

  /** Every password verifies against its own hash. */
  lemma HashRoundTrip(argon: Argon, password: Bytes, salt: Salt)
    requires Lawful(argon)
    ensures VerifyPassword(argon, password, HashPassword(argon, password, salt)) == Some(true)
  {
    VerifyAgainstFreshHash(argon, password, salt, password);
  }

  // ----- The string, letter by letter -----

  lemma SmallNumbers()
    ensures Decimal(19) == "19" && Decimal(65536) == "65536" && Decimal(3) == "3" && Decimal(4) == "4"
  {
    assert Decimal(1) == "1" && Decimal(6) == "6";
    assert Decimal(65) == Decimal(6) + "5" && Decimal(655) == Decimal(65) + "5";
    assert Decimal(6553) == Decimal(655) + "3" && Decimal(65536) == Decimal(6553) + "6";
  }

  /** Version 19 of Argon2id with 64 MiB, 3 passes and 4 lanes; salt and 32-byte digest in standard base64. */
  lemma HashStringLooksLikeThis(argon: Argon, password: Bytes, salt: Salt)
    ensures
      |salt| == 16
      && HashPassword(argon, password, salt)
         == "$argon2id$v=19$m=65536,t=3,p=4" + "$" + Base64.Encode(Base64.Standard, salt) + "$"
            + Base64.Encode(Base64.Standard, argon(password, salt, 3, 65536, 4, 32))
  {
    SmallNumbers();
    assert "$argon2id$v=" + "19" + "$" + ("m=" + "65536" + ",t=" + "3" + ",p=" + "4") == "$argon2id$v=19$m=65536,t=3,p=4";
  }

  /** A printed string is accepted exactly for 8 to 256 MiB, 1 to 10 passes, 1 to 16 lanes and 16 to 64 bytes each. */
  lemma AcceptedExactlyWithinLimits(p: Parameters)
    ensures
      Parse(Render(p)) == Some(p)
      <==> && 8192 <= p.memory <= 262_144 && 1 <= p.iterations <= 10 && 1 <= p.parallelism <= 16
           && 16 <= |p.salt| <= 64 && 16 <= |p.digest| <= 64
  {
    ParseUndoesRender(p);
  }
}
