/** The stored form of a password, printed and parsed by backend/internal/crypto/password.go:
    `$argon2id$v=..$m=..,t=..,p=..$salt$hash`. Argon2 itself is a parameter. */
module PasswordHash {
  import opened Basics

  type Byte = b: int | 0 <= b < 256

  // ------------------------------------------------------------------
  // Unpadded base64, sections 3.2 and 4 of RFC 4648
  // ------------------------------------------------------------------

  type Sextet = x: int | 0 <= x < 64

  function Letter(x: Sextet): char {
    if x < 26 then (x + 'A' as int) as char
    else if x < 52 then (x - 26 + 'a' as int) as char
    else if x < 62 then (x - 52 + '0' as int) as char
    else if x == 62 then '+' else '/'
  }

  function LetterValue(c: char): Option<Sextet> {
    if 'A' <= c <= 'Z' then Some(c as int - 'A' as int)
    else if 'a' <= c <= 'z' then Some(c as int - 'a' as int + 26)
    else if '0' <= c <= '9' then Some(c as int - '0' as int + 52)
    else if c == '+' then Some(62) else if c == '/' then Some(63) else None
  }

  function First(x: Byte): Sextet {
    x / 4
  }

  function Second(x: Byte, y: Byte): Sextet {
    x % 4 * 16 + y / 16
  }

  function Third(y: Byte, z: Byte): Sextet {
    y % 16 * 4 + z / 64
  }

  function Fourth(z: Byte): Sextet {
    z % 64
  }

  // The six-bit groups of three, two or one bytes.
  function Split6(bs: seq<Byte>): seq<Sextet> {
    match |bs|
    case 0 => []
    case 1 => [First(bs[0]), Second(bs[0], 0)]
    case 2 => [First(bs[0]), Second(bs[0], bs[1]), Third(bs[1], 0)]
    case _ => [First(bs[0]), Second(bs[0], bs[1]), Third(bs[1], bs[2]), Fourth(bs[2])] + Split6(bs[3..])
  }

  function High(a: int, b: int): int {
    a * 4 + b / 16
  }

  function Middle(b: int, c: int): int {
    b % 16 * 16 + c / 4
  }

  function Low(c: int, d: int): int {
    c % 4 * 64 + d
  }

  /** The bytes of groups of four, and of a last group of two or three, whose spare bits are
      ignored. */
  function Join6(xs: seq<Sextet>): Option<seq<Byte>> {
    match |xs|
    case 0 => Some([])
    case 1 => None
    case 2 => Some([High(xs[0], xs[1])])
    case 3 => Some([High(xs[0], xs[1]), Middle(xs[1], xs[2])])
    case _ =>
      match Join6(xs[4..])
      case None => None
      case Some(rest) => Some([High(xs[0], xs[1]), Middle(xs[1], xs[2]), Low(xs[2], xs[3])] + rest)
  }

  function Letters(xs: seq<Sextet>): (s: string)
    ensures |s| == |xs| && forall i :: 0 <= i < |xs| ==> s[i] == Letter(xs[i])
  {
    seq(|xs|, i requires 0 <= i < |xs| => Letter(xs[i]))
  }

  function LetterValues(s: string): Option<seq<Sextet>> {
    if s == "" then Some([])
    else
      var x, rest := LetterValue(s[0]), LetterValues(s[1..]);
      if x.None? || rest.None? then None else Some([x.value] + rest.value)
  }

  function Encode(bs: seq<Byte>): string {
    Letters(Split6(bs))
  }

  function WithoutNewlines(s: string): string {
    if s == "" then ""
    else (if s[0] == '\r' || s[0] == '\n' then "" else [s[0]]) + WithoutNewlines(s[1..])
  }

  function Decode(s: string): Option<seq<Byte>> {
    match LetterValues(WithoutNewlines(s))
    case None => None
    case Some(xs) => Join6(xs)
  }

  lemma LetterRoundTrip(x: Sextet)
    ensures LetterValue(Letter(x)) == Some(x)
    ensures Letter(x) != '$' && Letter(x) != '\r' && Letter(x) != '\n'
  {
  }

  lemma {:induction false} LetterValuesRoundTrip(xs: seq<Sextet>)
    ensures LetterValues(Letters(xs)) == Some(xs)
  {
    if xs != [] {
      var s := Letters(xs);
      LetterValuesRoundTrip(xs[1..]);
      assert s[0] == Letter(xs[0]) && s[1..] == Letters(xs[1..]);
      LetterRoundTrip(xs[0]);
      assert xs == [xs[0]] + xs[1..];
    }
  }

  lemma NoSpecialLetters(xs: seq<Sextet>)
    ensures '$' !in Letters(xs) && '\r' !in Letters(xs) && '\n' !in Letters(xs)
  {
  }

  lemma Regroup(x: Byte, y: Byte, z: Byte)
    ensures High(First(x), Second(x, y)) == x
    ensures Middle(Second(x, y), Third(y, z)) == y
    ensures Low(Third(y, z), Fourth(z)) == z
  {
  }

  lemma Join6Four(a: Sextet, b: Sextet, c: Sextet, d: Sextet, xs: seq<Sextet>, bs: seq<Byte>)
    requires Join6(xs) == Some(bs)
    ensures Join6([a, b, c, d] + xs) == Some([High(a, b), Middle(b, c), Low(c, d)] + bs)
  {
    assert ([a, b, c, d] + xs)[4..] == xs;
  }

  lemma JoinThreeMore(x: Byte, y: Byte, z: Byte, bs: seq<Byte>)
    requires Join6(Split6(bs)) == Some(bs)
    ensures Join6(Split6([x, y, z] + bs)) == Some([x, y, z] + bs)
  {
    var xs := [First(x), Second(x, y), Third(y, z), Fourth(z)];
    Join6Four(xs[0], xs[1], xs[2], xs[3], Split6(bs), bs);
    Regroup(x, y, z);
    assert ([x, y, z] + bs)[3..] == bs;
    assert Split6([x, y, z] + bs) == xs + Split6(bs);
  }

  lemma JoinTwo(a: Sextet, b: Sextet, x: Byte)
    requires High(a, b) == x
    ensures Join6([a, b]) == Some([x])
  {
  }

  lemma JoinThree(a: Sextet, b: Sextet, c: Sextet, x: Byte, y: Byte)
    requires High(a, b) == x && Middle(b, c) == y
    ensures Join6([a, b, c]) == Some([x, y])
  {
  }

  lemma JoinShort(x: Byte, y: Byte)
    ensures Join6(Split6([x])) == Some([x])
    ensures Join6(Split6([x, y])) == Some([x, y])
  {
    assert Split6([x]) == [First(x), Second(x, 0)];
    assert Split6([x, y]) == [First(x), Second(x, y), Third(y, 0)];
    Regroup(x, 0, 0);
    JoinTwo(First(x), Second(x, 0), x);
    Regroup(x, y, 0);
    JoinThree(First(x), Second(x, y), Third(y, 0), x, y);
  }

  lemma Listed<T>(xs: seq<T>)
    ensures |xs| == 1 ==> xs == [xs[0]]
    ensures |xs| == 2 ==> xs == [xs[0], xs[1]]
    ensures |xs| >= 3 ==> xs == [xs[0], xs[1], xs[2]] + xs[3..]
  {
  }

  lemma {:induction false} Join6Split6(bs: seq<Byte>)
    ensures Join6(Split6(bs)) == Some(bs)
  {
    Listed(bs);
    if |bs| >= 3 {
      Join6Split6(bs[3..]);
      JoinThreeMore(bs[0], bs[1], bs[2], bs[3..]);
    } else if bs != [] {
      JoinShort(bs[0], if |bs| == 2 then bs[1] else 0);
    }
  }

  lemma {:induction false} NoNewlines(s: string)
    requires '\r' !in s && '\n' !in s
    ensures WithoutNewlines(s) == s
  {
    if s != "" {
      NoNewlines(s[1..]);
    }
  }

  lemma Base64RoundTrip(bs: seq<Byte>)
    ensures Decode(Encode(bs)) == Some(bs)
    ensures '$' !in Encode(bs)
  {
    LetterValuesRoundTrip(Split6(bs));
    NoSpecialLetters(Split6(bs));
    NoNewlines(Encode(bs));
    Join6Split6(bs);
  }

  /** Examples of section 10 of RFC 4648, without their padding, and the two letters beyond the
      alphanumerical ones. */
  lemma Base64Examples()
    ensures Encode([]) == "" && Encode([102]) == "Zg" && Encode([102, 111]) == "Zm8"
    ensures Encode([102, 111, 111]) == "Zm9v" && Encode([0xFB, 0xFF]) == "+/8"
  {
    assert Split6([]) == [] && Split6([102]) == [25, 32] && Split6([102, 111]) == [25, 38, 60];
    assert Split6([102, 111, 111][3..]) == [];
    assert Split6([102, 111, 111]) == [25, 38, 61, 47];
    assert Split6([0xFB, 0xFF]) == [62, 63, 60];
    assert Letters([25, 32]) == "Zg" && Letters([25, 38, 60]) == "Zm8";
    assert Letters([25, 38, 61, 47]) == "Zm9v" && Letters([62, 63, 60]) == "+/8";
  }

  // ------------------------------------------------------------------
  // Decimal numbers: fmt's %d
  // ------------------------------------------------------------------

  predicate IsDigit(c: char) {
    '0' <= c <= '9'
  }

  function Decimal(n: nat): (s: string)
    ensures s != "" && forall c :: c in s ==> IsDigit(c)
  {
    (if n < 10 then "" else Decimal(n / 10)) + [(n % 10 + '0' as int) as char]
  }

  function DigitValue(c: char): nat
    requires IsDigit(c)
  {
    c as int - '0' as int
  }

  function Value(digits: string): nat
    requires forall c :: c in digits ==> IsDigit(c)
  {
    if digits == "" then 0
    else
      assert digits[|digits| - 1] in digits;
      10 * Value(digits[..|digits| - 1]) + DigitValue(digits[|digits| - 1])
  }

  function DigitCount(s: string): (n: nat)
    ensures n <= |s| && forall i :: 0 <= i < n ==> IsDigit(s[i])
  {
    if s == "" || !IsDigit(s[0]) then 0 else 1 + DigitCount(s[1..])
  }

  // fmt's own table of spaces; a newline is an error instead.
  predicate IsSpace(c: char) {
    var x := c as int;
    || (9 <= x <= 13 && x != 10) || x == 0x20 || x == 0x85 || x == 0xA0 || x == 0x1680
    || 0x2000 <= x <= 0x200A || x == 0x2028 || x == 0x2029 || x == 0x202F || x == 0x205F || x == 0x3000
  }

  function SkipSpace(s: string): Option<string> {
    if s == "" then Some(s)
    else if s[0] == '\n' then None
    else if IsSpace(s[0]) then SkipSpace(s[1..])
    else Some(s)
  }

  /** The number and what is left after it. */
  function ScanDigits(s: string): Option<(nat, string)> {
    var n := DigitCount(s);
    if n == 0 then None else Some((Value(s[..n]), s[n..]))
  }

  function ScanUint(s: string, limit: nat): Option<(nat, string)> {
    match SkipSpace(s)
    case None => None
    case Some(t) =>
      var r := ScanDigits(t);
      if r.None? || r.value.0 >= limit then None else r
  }

  function ScanInt(s: string): Option<(int, string)> {
    match SkipSpace(s)
    case None => None
    case Some(t) =>
      var signed := t != "" && (t[0] == '-' || t[0] == '+');
      var r := ScanDigits(if signed then t[1..] else t);
      if r.None? then None
      else
        var x: int := if signed && t[0] == '-' then -(r.value.0 as int) else r.value.0;
        if IsInt64(x) then Some((x, r.value.1)) else None
  }

  function Literal(lit: string, s: string): Option<string> {
    if lit <= s then Some(s[|lit|..]) else None
  }

  lemma {:induction false} ValueDecimal(n: nat)
    ensures Value(Decimal(n)) == n
  {
    var s := Decimal(n);
    if n >= 10 {
      ValueDecimal(n / 10);
      assert s[..|s| - 1] == Decimal(n / 10);
    } else {
      assert s[..|s| - 1] == "";
    }
  }

  lemma {:induction false} DigitCountPrefix(digits: string, rest: string)
    requires forall c :: c in digits ==> IsDigit(c)
    requires rest == "" || !IsDigit(rest[0])
    ensures DigitCount(digits + rest) == |digits|
  {
    if digits == "" {
      assert digits + rest == rest;
    } else {
      assert (digits + rest)[1..] == digits[1..] + rest;
      DigitCountPrefix(digits[1..], rest);
    }
  }

  lemma ScanDigitsDecimal(n: nat, rest: string)
    requires rest == "" || !IsDigit(rest[0])
    ensures ScanDigits(Decimal(n) + rest) == Some((n, rest))
  {
    DigitCountPrefix(Decimal(n), rest);
    ValueDecimal(n);
    assert (Decimal(n) + rest)[..|Decimal(n)|] == Decimal(n);
  }

  lemma NoSpaceBefore(n: nat, rest: string)
    ensures var s := Decimal(n) + rest;
            s != "" && IsDigit(s[0]) && SkipSpace(s) == Some(s)
  {
  }

  lemma ScanUintPrint(n: nat, limit: nat, rest: string)
    requires n < limit && (rest == "" || !IsDigit(rest[0]))
    ensures ScanUint(Decimal(n) + rest, limit) == Some((n, rest))
  {
    NoSpaceBefore(n, rest);
    ScanDigitsDecimal(n, rest);
  }

  lemma ScanIntPrint(n: nat, rest: string)
    requires IsInt64(n) && (rest == "" || !IsDigit(rest[0]))
    ensures ScanInt(Decimal(n) + rest) == Some((n, rest))
  {
    NoSpaceBefore(n, rest);
    ScanDigitsDecimal(n, rest);
  }

  lemma LiteralThen(lit: string, s: string)
    ensures Literal(lit, lit + s) == Some(s)
  {
  }

  // ------------------------------------------------------------------
  // strings.Split at '$'
  // ------------------------------------------------------------------

  function Split(s: string): (r: seq<string>)
    ensures r != []
  {
    if s == "" then [""]
    else if s[0] == '$' then [""] + Split(s[1..])
    else
      var r := Split(s[1..]);
      [[s[0]] + r[0]] + r[1..]
  }

  lemma {:induction false} SplitFirst(a: string, b: string)
    requires '$' !in a
    ensures Split(a + "$" + b) == [a] + Split(b)
  {
    var s := a + "$" + b;
    if a == "" {
      assert s[1..] == b;
    } else {
      assert s[1..] == a[1..] + "$" + b;
      SplitFirst(a[1..], b);
      assert a[0] in a && [a[0]] + a[1..] == a;
    }
  }

  lemma {:induction false} SplitLast(a: string)
    requires '$' !in a
    ensures Split(a) == [a]
  {
    if a != "" {
      SplitLast(a[1..]);
      assert a[0] in a && [a[0]] + a[1..] == a;
    }
  }

  function Join(parts: seq<string>): string
    requires parts != []
  {
    if |parts| == 1 then parts[0] else parts[0] + "$" + Join(parts[1..])
  }

  /** Splitting cuts at every dollar and nowhere else. */
  lemma {:induction false} SplitExactly(s: string)
    ensures Join(Split(s)) == s && forall i :: 0 <= i < |Split(s)| ==> '$' !in Split(s)[i]
  {
    if s != "" {
      SplitExactly(s[1..]);
      var rest := Split(s[1..]);
      assert s == [s[0]] + s[1..];
      if s[0] == '$' {
        assert ([""] + rest)[1..] == rest;
      } else {
        assert ([[s[0]] + rest[0]] + rest[1..])[1..] == rest[1..];
        if |rest| > 1 {
          assert [s[0]] + (rest[0] + "$" + Join(rest[1..])) == [s[0]] + rest[0] + "$" + Join(rest[1..]);
        }
      }
    }
  }

  // ------------------------------------------------------------------
  // The stored form
  // ------------------------------------------------------------------

  datatype Stored = Stored(version: int, memory: nat, iterations: nat, parallelism: nat,
                           salt: seq<Byte>, hash: seq<Byte>)

  const UINT32: nat := 0x1_0000_0000

  predicate InRange(h: Stored) {
    0 <= h.version < TWO_63 && h.memory < UINT32 && h.iterations < UINT32 && h.parallelism < 256
  }

  function CostPart(h: Stored): string {
    "m=" + (Decimal(h.memory) + CostTail(h))
  }

  function CostTail(h: Stored): string {
    ",t=" + (Decimal(h.iterations) + (",p=" + Decimal(h.parallelism)))
  }

  function Encoded(h: Stored): string
    requires h.version >= 0
  {
    "" + "$" + ("argon2id" + "$" + Fields(h))
  }

  function Fields(h: Stored): string
    requires h.version >= 0
  {
    "v=" + Decimal(h.version) + "$" + (CostPart(h) + "$" + (Encode(h.salt) + "$" + Encode(h.hash)))
  }

  datatype ParseError = BadFormat | BadAlgorithm | BadVersion | BadCost | BadSalt | BadHash

  function ParseVersion(s: string): Option<int> {
    match Literal("v=", s)
    case None => None
    case Some(t) => var r := ScanInt(t); if r.None? then None else Some(r.value.0)
  }

  function ParseCost(s: string): Option<(nat, nat, nat)> {
    match Literal("m=", s)
    case None => None
    case Some(s1) =>
      match ScanUint(s1, UINT32)
      case None => None
      case Some((m, s2)) =>
        match Literal(",t=", s2)
        case None => None
        case Some(s3) =>
          match ScanUint(s3, UINT32)
          case None => None
          case Some((t, s4)) =>
            match Literal(",p=", s4)
            case None => None
            case Some(s5) =>
              match ScanUint(s5, 256)
              case None => None
              case Some((p, _)) => Some((m, t, p))
  }

  function Parse(encoded: string): Result<Stored, ParseError> {
    ParseParts(Split(encoded))
  }

  function ParseParts(parts: seq<string>): Result<Stored, ParseError> {
    if |parts| != 6 then Err(BadFormat)
    else if parts[1] != "argon2id" then Err(BadAlgorithm)
    else
      var version, cost := ParseVersion(parts[2]), ParseCost(parts[3]);
      var salt, hash := Decode(parts[4]), Decode(parts[5]);
      if version.None? then Err(BadVersion)
      else if cost.None? then Err(BadCost)
      else if salt.None? then Err(BadSalt)
      else if hash.None? then Err(BadHash)
      else Ok(Stored(version.value, cost.value.0, cost.value.1, cost.value.2, salt.value, hash.value))
  }

  lemma ParseCostTail(h: Stored)
    requires InRange(h)
    ensures var s3 := Decimal(h.iterations) + (",p=" + Decimal(h.parallelism));
            && Literal(",t=", CostTail(h)) == Some(s3)
            && ScanUint(s3, UINT32) == Some((h.iterations, ",p=" + Decimal(h.parallelism)))
    ensures Literal(",p=", ",p=" + Decimal(h.parallelism)) == Some(Decimal(h.parallelism))
    ensures ScanUint(Decimal(h.parallelism), 256) == Some((h.parallelism, ""))
  {
    var s4 := ",p=" + Decimal(h.parallelism);
    LiteralThen(",t=", Decimal(h.iterations) + s4);
    LiteralThen(",p=", Decimal(h.parallelism));
    assert s4[0] == ',';
    ScanUintPrint(h.iterations, UINT32, s4);
    ScanUintPrint(h.parallelism, 256, "");
    assert Decimal(h.parallelism) + "" == Decimal(h.parallelism);
  }

  lemma ParseCostRoundTrip(h: Stored)
    requires InRange(h)
    ensures ParseCost(CostPart(h)) == Some((h.memory, h.iterations, h.parallelism))
  {
    LiteralThen("m=", Decimal(h.memory) + CostTail(h));
    assert CostTail(h)[0] == ',';
    ScanUintPrint(h.memory, UINT32, CostTail(h));
    ParseCostTail(h);
  }

  lemma ParseVersionRoundTrip(n: nat)
    requires IsInt64(n)
    ensures ParseVersion("v=" + Decimal(n)) == Some(n)
  {
    LiteralThen("v=", Decimal(n));
    ScanIntPrint(n, "");
    assert Decimal(n) + "" == Decimal(n);
  }

  lemma PartsHaveNoSeparator(h: Stored)
    requires h.version >= 0
    ensures '$' !in "v=" + Decimal(h.version) && '$' !in CostPart(h)
    ensures '$' !in Encode(h.salt) && '$' !in Encode(h.hash)
  {
  }

  lemma SplitEncoded(h: Stored)
    requires h.version >= 0
    ensures Split(Encoded(h))
         == ["", "argon2id", "v=" + Decimal(h.version), CostPart(h), Encode(h.salt), Encode(h.hash)]
  {
    PartsHaveNoSeparator(h);
    var last := Encode(h.salt) + "$" + Encode(h.hash);
    SplitLast(Encode(h.hash));
    SplitFirst(Encode(h.salt), Encode(h.hash));
    SplitFirst(CostPart(h), last);
    SplitFirst("v=" + Decimal(h.version), CostPart(h) + "$" + last);
    SplitFirst("argon2id", Fields(h));
    SplitFirst("", "argon2id" + "$" + Fields(h));
  }

  lemma ParsePartsOk(version: string, cost: string, salt: string, hash: string, h: Stored)
    requires ParseVersion(version) == Some(h.version)
    requires ParseCost(cost) == Some((h.memory, h.iterations, h.parallelism))
    requires Decode(salt) == Some(h.salt) && Decode(hash) == Some(h.hash)
    ensures ParseParts(["", "argon2id", version, cost, salt, hash]) == Ok(h)
  {
  }

  /** For all parameters, salts and hashes, parsing recovers every field of the printed form. */
  lemma ParseEncoded(h: Stored)
    requires InRange(h)
    ensures Parse(Encoded(h)) == Ok(h)
  {
    SplitEncoded(h);
    ParseVersionRoundTrip(h.version);
    ParseCostRoundTrip(h);
    Base64RoundTrip(h.salt);
    Base64RoundTrip(h.hash);
    ParsePartsOk("v=" + Decimal(h.version), CostPart(h), Encode(h.salt), Encode(h.hash), h);
  }

  // ------------------------------------------------------------------
  // Passwords
  // ------------------------------------------------------------------

  // argon2.IDKey: password, salt, iterations, memory, parallelism, key length.
  type IDKey = (string, seq<Byte>, nat, nat, nat, nat) -> seq<Byte>

  const VERSION: nat := 0x13

  /** The salt is what the random source gives. */
  function HashPassword(password: string, salt: seq<Byte>, idKey: IDKey): string {
    Encoded(Stored(VERSION, 65_536, 3, 2, salt, idKey(password, salt, 3, 65_536, 2, 32)))
  }

  function VerifyPassword(password: string, encoded: string, idKey: IDKey): Result<bool, ParseError> {
    match Parse(encoded)
    case Err(e) => Err(e)
    case Ok(h) =>
      Ok(h.hash == idKey(password, h.salt, h.iterations, h.memory, h.parallelism, |h.hash| % UINT32))
  }

  /** A candidate is accepted against a stored password exactly when their keys are equal. */
  lemma VerifyExactly(password: string, salt: seq<Byte>, candidate: string, idKey: IDKey)
    requires |idKey(password, salt, 3, 65_536, 2, 32)| == 32
    ensures VerifyPassword(candidate, HashPassword(password, salt, idKey), idKey)
         == Ok(idKey(candidate, salt, 3, 65_536, 2, 32) == idKey(password, salt, 3, 65_536, 2, 32))
  {
    ParseEncoded(Stored(VERSION, 65_536, 3, 2, salt, idKey(password, salt, 3, 65_536, 2, 32)));
  }

  lemma Decimals()
    ensures Decimal(19) == "19" && Decimal(2) == "2" && Decimal(3) == "3" && Decimal(65_536) == "65536"
  {
    assert Decimal(1) == "1" && Decimal(6) == "6" && Decimal(65) == "65" && Decimal(655) == "655";
    assert Decimal(6_553) == "6553";
  }

  lemma CostPrinted(h: Stored)
    requires h.memory == 65_536 && h.iterations == 3 && h.parallelism == 2
    ensures CostPart(h) == "m=65536,t=3,p=2"
  {
    Decimals();
    assert ",p=" + "2" == ",p=2" && "3" + ",p=2" == "3,p=2" && ",t=" + "3,p=2" == ",t=3,p=2";
    assert "65536" + ",t=3,p=2" == "65536,t=3,p=2" && "m=" + "65536,t=3,p=2" == "m=65536,t=3,p=2";
  }

  lemma FieldsJoined(cost: string, salt: string, hash: string)
    ensures "" + "$" + ("argon2id" + "$" + ("v=" + "19" + "$" + (cost + "$" + (salt + "$" + hash))))
         == "$argon2id$v=19$" + cost + "$" + salt + "$" + hash
  {
  }

  /** A stored password begins with the parameters, in the order and notation of Argon2's own
      strings. */
  lemma HashedBegins(password: string, salt: seq<Byte>, idKey: IDKey)
    ensures HashPassword(password, salt, idKey)
         == "$argon2id$v=19$" + "m=65536,t=3,p=2" + "$" + Encode(salt) + "$"
            + Encode(idKey(password, salt, 3, 65_536, 2, 32))
  {
    var h := Stored(VERSION, 65_536, 3, 2, salt, idKey(password, salt, 3, 65_536, 2, 32));
    Decimals();
    CostPrinted(h);
    FieldsJoined(CostPart(h), Encode(salt), Encode(h.hash));
  }

  /** What of the stored string does not parse is reported in the order of its parts, and nothing
      else is: otherwise the comparison decides. */
  lemma VerifyAnswers(password: string, encoded: string, idKey: IDKey)
    ensures var parts, r := Split(encoded), VerifyPassword(password, encoded, idKey);
            if |parts| != 6 then r == Err(BadFormat)
            else if parts[1] != "argon2id" then r == Err(BadAlgorithm)
            else if ParseVersion(parts[2]).None? then r == Err(BadVersion)
            else if ParseCost(parts[3]).None? then r == Err(BadCost)
            else if Decode(parts[4]).None? then r == Err(BadSalt)
            else if Decode(parts[5]).None? then r == Err(BadHash)
            else
              var (m, t, p), salt, hash := ParseCost(parts[3]).value, Decode(parts[4]).value, Decode(parts[5]).value;
              r == Ok(hash == idKey(password, salt, t, m, p, |hash| % 0x1_0000_0000))
  {
  }
}
