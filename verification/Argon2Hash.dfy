/**
 The encoded Argon2id hash string: what HashPasswordWithParams prints, VerifyPassword splits,
 scans and checks. Base64 and Argon2id itself are abstract functions.
 */
module Argon2Hash {
  import opened Common

  type Bytes = seq<byte>

  const U32 := 0x1_0000_0000
  const U8 := 0x100
  const I64 := 0x8000_0000_0000_0000
  const KEY_LENGTH := 32
  const ARGON2_VERSION := 19

  datatype Params = Params(memory: nat, time: nat, threads: nat) {
    /** The Go types uint32, uint32 and uint8. */
    predicate InRange() {
      memory < U32 && time < U32 && threads < U8
    }
  }

  /** Raw base64 and argon2.IDKey(password, salt, params, length). */
  datatype Env = Env(encode: Bytes -> string, decode: string -> Option<Bytes>,
                     idKey: (string, Bytes, Params, nat) -> Bytes) {
    ghost predicate Valid() {
      && (forall b :: decode(encode(b)) == Some(b) && '$' !in encode(b))
      && forall password, salt, params, n :: |idKey(password, salt, params, n)| == n
    }
  }

  datatype Error = InvalidFormat | UnsupportedAlgorithm | BadVersion | BadParameters | BadSalt | BadHash

  /** argon2.IDKey panics when time or threads is zero. */
  datatype Outcome = Verified(ok: bool) | Failed(error: Error) | Panics

  datatype Printed = Printed(text: string) | PrintPanics

  // ---------------------------------------------------------------- decimal numbers

  function Digit(d: nat): char
    requires d < 10
  {
    "0123456789"[d]
  }

  predicate IsDigit(c: char) {
    '0' <= c <= '9'
  }

  function DigitValue(c: char): nat
    requires IsDigit(c)
  {
    c as int - '0' as int
  }

  function Decimal(n: nat): string {
    if n < 10 then [Digit(n)] else Decimal(n / 10) + [Digit(n % 10)]
  }

  predicate AllDigits(s: string) {
    forall i :: 0 <= i < |s| ==> IsDigit(s[i])
  }

  function Value(s: string): nat
    requires AllDigits(s)
  {
    if s == "" then 0 else 10 * Value(s[..|s| - 1]) + DigitValue(s[|s| - 1])
  }

  lemma {:induction false} ValueOfDecimal(n: nat)
    ensures |Decimal(n)| > 0 && AllDigits(Decimal(n)) && Value(Decimal(n)) == n
    ensures n > 0 ==> Decimal(n)[0] != '0'
  {
    assert forall d: nat :: d < 10 ==> IsDigit(Digit(d)) && DigitValue(Digit(d)) == d;
    if n < 10 {
      assert Decimal(n)[..0] == "";
    } else {
      ValueOfDecimal(n / 10);
      assert Decimal(n)[..|Decimal(n)| - 1] == Decimal(n / 10);
    }
  }

  // ---------------------------------------------------------------- scanning, as fmt.Sscanf does

  function SkipSpaces(s: string): string {
    if s != "" && s[0] == ' ' then SkipSpaces(s[1..]) else s
  }

  /** Length of the leading run of digits. */
  function DigitRun(s: string): (n: nat)
    ensures n <= |s| && AllDigits(s[..n]) && (n < |s| ==> !IsDigit(s[n]))
  {
    if s == "" || !IsDigit(s[0]) then 0
    else
      var n := DigitRun(s[1..]);
      assert s[..n + 1] == [s[0]] + s[1..][..n];
      n + 1
  }

  datatype Scan = Got(value: nat, rest: string) | NoMatch

  /** %d into an unsigned variable with `bound` values: spaces, then digits, no overflow. */
  function ScanUint(s: string, bound: nat): Scan {
    var t := SkipSpaces(s);
    var n := DigitRun(t);
    if n == 0 || Value(t[..n]) >= bound then NoMatch else Got(Value(t[..n]), t[n..])
  }

  /** %d into the version, an int: the sign is optional and the value is not used afterwards. */
  function ScanVersion(s: string): Scan {
    var t := SkipSpaces(s);
    if t != "" && (t[0] == '+' || t[0] == '-') then
      var n := DigitRun(t[1..]);
      if n == 0 || Value(t[1..][..n]) >= I64 + (if t[0] == '-' then 1 else 0) then NoMatch
      else Got(Value(t[1..][..n]), t[1..][n..])
    else ScanUint(s, I64)
  }

  /** A literal part of the format must match exactly. */
  function ScanLiteral(s: string, literal: string): Option<string> {
    if literal <= s then Some(s[|literal|..]) else None
  }

  function ParseVersion(s: string): bool {
    match ScanLiteral(s, "v=")
    case None => false
    case Some(rest) => ScanVersion(rest).Got?
  }

  /** "m=%d,t=%d,p=%d"; input after the last number is ignored. */
  function ParseParams(s: string): Option<Params> {
    match ScanLiteral(s, "m=")
    case None => None
    case Some(a) =>
      match ScanUint(a, U32)
      case NoMatch => None
      case Got(memory, b) =>
        match ScanLiteral(b, ",t=")
        case None => None
        case Some(c) =>
          match ScanUint(c, U32)
          case NoMatch => None
          case Got(time, d) =>
            match ScanLiteral(d, ",p=")
            case None => None
            case Some(e) =>
              match ScanUint(e, U8)
              case NoMatch => None
              case Got(threads, _) => Some(Params(memory, time, threads))
  }

  // ---------------------------------------------------------------- splitting

  /** strings.Split on "$": always at least one part. */
  function Split(s: string): (parts: seq<string>)
    ensures |parts| > 0
  {
    if s == "" then [""]
    else
      var rest := Split(s[1..]);
      if s[0] == '$' then [""] + rest else [[s[0]] + rest[0]] + rest[1..]
  }

  function Join(parts: seq<string>): string
    requires |parts| > 0
  {
    if |parts| == 1 then parts[0] else parts[0] + "$" + Join(parts[1..])
  }

  lemma {:induction false} SplitPlain(a: string, s: string)
    requires '$' !in a
    ensures Split(a + s) == [a + Split(s)[0]] + Split(s)[1..]
  {
    if a == "" {
      assert a + s == s;
      assert a + Split(s)[0] == Split(s)[0];
      assert Split(s) == [Split(s)[0]] + Split(s)[1..];
    } else {
      SplitPlain(a[1..], s);
      assert (a + s)[1..] == a[1..] + s;
      assert a[0] != '$';
      assert [a[0]] + (a[1..] + Split(s)[0]) == a + Split(s)[0];
    }
  }

  /** Splitting undoes joining when no part holds the separator. */
  lemma {:induction false} SplitOfJoin(parts: seq<string>)
    requires |parts| > 0 && forall i :: 0 <= i < |parts| ==> '$' !in parts[i]
    ensures Split(Join(parts)) == parts
    decreases |parts|
  {
    if |parts| == 1 {
      assert parts[0] + "" == parts[0];
      SplitPlain(parts[0], "");
    } else {
      var tail := "$" + Join(parts[1..]);
      SplitOfJoin(parts[1..]);
      SplitPlain(parts[0], tail);
      assert tail[1..] == Join(parts[1..]);
      assert Split(tail) == [""] + parts[1..];
      assert parts[0] + tail == Join(parts);
      assert parts[0] + "" == parts[0] && [parts[0]] + parts[1..] == parts;
    }
  }

  // ---------------------------------------------------------------- the two operations

  function ParamText(p: Params): string {
    "m=" + Decimal(p.memory) + ",t=" + Decimal(p.time) + ",p=" + Decimal(p.threads)
  }

  /** `salt` is the random salt. */
  function HashPassword(env: Env, password: string, p: Params, salt: Bytes): Printed {
    if p.time < 1 || p.threads < 1 then PrintPanics
    else
      var hash := env.idKey(password, salt, p, KEY_LENGTH);
      Printed("$argon2id$v=" + Decimal(ARGON2_VERSION) + "$" + ParamText(p) + "$" + env.encode(salt) + "$"
              + env.encode(hash))
  }

  function VerifyPassword(env: Env, encoded: string, password: string): Outcome {
    var parts := Split(encoded);
    if |parts| != 6 then Failed(InvalidFormat)
    else if parts[1] != "argon2id" then Failed(UnsupportedAlgorithm)
    else if !ParseVersion(parts[2]) then Failed(BadVersion)
    else
      match ParseParams(parts[3])
      case None => Failed(BadParameters)
      case Some(p) =>
        match env.decode(parts[4])
        case None => Failed(BadSalt)
        case Some(salt) =>
          match env.decode(parts[5])
          case None => Failed(BadHash)
          case Some(expected) =>
            if p.time < 1 || p.threads < 1 then Panics
            else Verified(env.idKey(password, salt, p, |expected|) == expected)
  }

  // ---------------------------------------------------------------- the round trip

  /** A printed number followed by something that is not a digit scans back to itself. */
  lemma ScanOfDecimal(n: nat, rest: string, bound: nat)
    requires rest != "" ==> !IsDigit(rest[0])
    ensures ScanUint(Decimal(n) + rest, bound) == if n < bound then Got(n, rest) else NoMatch
  {
    ValueOfDecimal(n);
    var s := Decimal(n) + rest;
    assert s[0] == Decimal(n)[0];
    assert IsDigit(s[0]);
    RunOfDigits(Decimal(n), rest);
    assert s[..|Decimal(n)|] == Decimal(n) && s[|Decimal(n)|..] == rest;
  }

  lemma {:induction false} RunOfDigits(ds: string, rest: string)
    requires AllDigits(ds) && (rest != "" ==> !IsDigit(rest[0]))
    ensures DigitRun(ds + rest) == |ds|
  {
    if ds == "" {
      assert ds + rest == rest;
    } else {
      RunOfDigits(ds[1..], rest);
      assert (ds + rest)[1..] == ds[1..] + rest && IsDigit(ds[0]);
    }
  }

  lemma LiteralMatches(literal: string, rest: string)
    ensures ScanLiteral(literal + rest, literal) == Some(rest)
  {
  }

  /** The parameters are parsed back exactly when they fit in 32, 32 and 8 bits. */
  lemma ParamsRoundTrip(p: Params)
    ensures ParseParams("m=" + Decimal(p.memory) + ",t=" + Decimal(p.time) + ",p=" + Decimal(p.threads)) ==
            if p.memory <= 0xFFFF_FFFF && p.time <= 0xFFFF_FFFF && p.threads <= 255 then Some(p) else None
  {
    var m, t, n := Decimal(p.memory), Decimal(p.time), Decimal(p.threads);
    var d := ",p=" + n;
    var b := ",t=" + (t + d);
    ParamTextParts(m, t, n);
    Field("m=", p.memory, b, U32);
    Field(",t=", p.time, d, U32);
    Field(",p=", p.threads, "", U8);
    assert n + "" == n;
  }

  lemma ParamTextParts(m: string, t: string, n: string)
    ensures "m=" + m + ",t=" + t + ",p=" + n == "m=" + (m + (",t=" + (t + (",p=" + n))))
  {
  }

  /** A literal and a number scan as they were printed. */
  lemma Field(literal: string, n: nat, rest: string, bound: nat)
    requires rest != "" ==> !IsDigit(rest[0])
    ensures ScanLiteral(literal + (Decimal(n) + rest), literal) == Some(Decimal(n) + rest)
    ensures ScanUint(Decimal(n) + rest, bound) == if n < bound then Got(n, rest) else NoMatch
  {
    LiteralMatches(literal, Decimal(n) + rest);
    ScanOfDecimal(n, rest, bound);
  }

  lemma ScanSigned(sign: char, n: nat)
    requires sign == '+' || sign == '-'
    ensures ScanVersion([sign] + Decimal(n)).Got? <==> n < I64 + if sign == '-' then 1 else 0
  {
    var t, d := [sign] + Decimal(n), Decimal(n);
    ValueOfDecimal(n);
    RunOfDigits(d, "");
    assert t[0] == sign && SkipSpaces(t) == t;
    assert t[1..] == d == d + "";
    assert d[..|d|] == d;
  }

  /** The version may carry a sign and must fit in 64 bits; its value is not looked at. */
  lemma SignedVersionParsesIff(sign: char, n: nat)
    requires sign == '+' || sign == '-'
    ensures ParseVersion("v=" + ([sign] + Decimal(n)))
            <==> n <= if sign == '-' then 0x8000_0000_0000_0000 else 0x7FFF_FFFF_FFFF_FFFF
  {
    LiteralMatches("v=", [sign] + Decimal(n));
    ScanSigned(sign, n);
  }

  lemma PlainVersionParsesIff(n: nat)
    ensures ParseVersion("v=" + Decimal(n)) <==> n <= 0x7FFF_FFFF_FFFF_FFFF
  {
    var d := Decimal(n);
    ValueOfDecimal(n);
    LiteralMatches("v=", d);
    ScanOfDecimal(n, "", I64);
    assert d + "" == d;
    assert IsDigit(d[0]);
  }

  lemma NoSeparator(n: nat)
    ensures '$' !in Decimal(n)
  {
    ValueOfDecimal(n);
  }

  function Parts(env: Env, password: string, p: Params, salt: Bytes): seq<string> {
    ["", "argon2id", "v=" + Decimal(ARGON2_VERSION), ParamText(p), env.encode(salt),
     env.encode(env.idKey(password, salt, p, KEY_LENGTH))]
  }

  lemma PrintedIsJoined(env: Env, password: string, p: Params, salt: Bytes)
    requires p.time >= 1 && p.threads >= 1
    ensures HashPassword(env, password, p, salt) == Printed(Join(Parts(env, password, p, salt)))
  {
    var ps := Parts(env, password, p, salt);
    JoinSix(ps[0], ps[1], ps[2], ps[3], ps[4], ps[5]);
    Flatten(ps[2], ps[3], ps[4], ps[5]);
    Associate(Decimal(ARGON2_VERSION), ps[3], ps[4], ps[5]);
  }

  lemma JoinSix(a: string, b: string, c: string, d: string, e: string, f: string)
    ensures Join([a, b, c, d, e, f]) == a + "$" + (b + "$" + (c + "$" + (d + "$" + (e + "$" + f))))
  {
    assert [a, b, c, d, e, f][1..] == [b, c, d, e, f];
    assert [b, c, d, e, f][1..] == [c, d, e, f];
    assert [c, d, e, f][1..] == [d, e, f];
    assert [d, e, f][1..] == [e, f];
    assert [e, f][1..] == [f];
    assert Join([e, f]) == e + "$" + f;
    assert Join([d, e, f]) == d + "$" + Join([e, f]);
    assert Join([c, d, e, f]) == c + "$" + Join([d, e, f]);
    assert Join([b, c, d, e, f]) == b + "$" + Join([c, d, e, f]);
  }

  lemma Associate(v: string, b: string, c: string, d: string)
    ensures "$argon2id$" + ("v=" + v) + "$" + b + "$" + c + "$" + d == "$argon2id$v=" + v + "$" + b + "$" + c + "$" + d
  {
    assert "$argon2id$" + ("v=" + v) == "$argon2id$v=" + v;
  }

  lemma Flatten(a: string, b: string, c: string, d: string)
    ensures "" + "$" + ("argon2id" + "$" + (a + "$" + (b + "$" + (c + "$" + d))))
            == "$argon2id$" + a + "$" + b + "$" + c + "$" + d
  {
  }

  /** Hashing panics exactly on zero time or threads; else what is printed splits into exactly its six parts. */
  lemma PrintedSplits(env: Env, password: string, p: Params, salt: Bytes)
    requires env.Valid()
    ensures HashPassword(env, password, p, salt).PrintPanics? <==> p.time == 0 || p.threads == 0
    ensures p.time >= 1 && p.threads >= 1 ==>
              Split(HashPassword(env, password, p, salt).text) ==
              ["", "argon2id", "v=19",
               "m=" + Decimal(p.memory) + ",t=" + Decimal(p.time) + ",p=" + Decimal(p.threads),
               env.encode(salt), env.encode(env.idKey(password, salt, p, 32))]
  {
    if p.time >= 1 && p.threads >= 1 {
      assert Decimal(19) == Decimal(1) + [Digit(9)] == "19";
      assert "v=" + "19" == "v=19";
      SplitsIntoParts(env, password, p, salt);
    }
  }

  lemma SplitsIntoParts(env: Env, password: string, p: Params, salt: Bytes)
    requires env.Valid() && p.time >= 1 && p.threads >= 1
    ensures Split(HashPassword(env, password, p, salt).text) == Parts(env, password, p, salt)
  {
    PrintedIsJoined(env, password, p, salt);
    NoSeparator(ARGON2_VERSION);
    NoSeparator(p.memory);
    NoSeparator(p.time);
    NoSeparator(p.threads);
    var ps := Parts(env, password, p, salt);
    assert '$' !in ps[3];
    SplitOfJoin(ps);
  }

  /**
   A printed hash parses back to its parameters, salt and hash, and verifies exactly the
   passwords that Argon2id maps to the same key, the original one among them.
   */
  lemma RoundTrip(env: Env, password: string, p: Params, salt: Bytes, attempt: string)
    requires env.Valid() && p.InRange() && p.time >= 1 && p.threads >= 1
    ensures var printed := HashPassword(env, password, p, salt);
            && printed.Printed?
            && VerifyPassword(env, printed.text, attempt)
               == Verified(env.idKey(attempt, salt, p, KEY_LENGTH) == env.idKey(password, salt, p, KEY_LENGTH))
            && VerifyPassword(env, printed.text, password) == Verified(true)
  {
    SplitsIntoParts(env, password, p, salt);
    ParamsRoundTrip(p);
    PlainVersionParsesIff(ARGON2_VERSION);
  }

  /** The error that is reported is true of the parts. */
  predicate TrueError(env: Env, parts: seq<string>, e: Error) {
    if e.InvalidFormat? then |parts| != 6
    else
      && |parts| == 6
      && match e
         case UnsupportedAlgorithm => parts[1] != "argon2id"
         case BadVersion => !ParseVersion(parts[2])
         case BadParameters => ParseParams(parts[3]).None?
         case BadSalt => env.decode(parts[4]).None?
         case BadHash => env.decode(parts[5]).None?
  }

  /** Six parts that name the algorithm and can all be read. */
  predicate Readable(env: Env, parts: seq<string>) {
    && |parts| == 6 && parts[1] == "argon2id" && ParseVersion(parts[2]) && ParseParams(parts[3]).Some?
    && env.decode(parts[4]).Some? && env.decode(parts[5]).Some?
  }

  /**
   Verification on any string: an error exactly if some part cannot be read, and a true one; else the
   answer is whether Argon2id, with the salt and parameters read and a key of the stored length, gives
   the stored hash. Zero time or threads panic.
   */
  lemma VerifyMeans(env: Env, encoded: string, password: string)
    ensures var parts, o := Split(encoded), VerifyPassword(env, encoded, password);
            && (o.Failed? <==> !Readable(env, parts)) && (o.Failed? ==> TrueError(env, parts, o.error))
            && (Readable(env, parts) ==>
                  var p, stored := ParseParams(parts[3]).value, env.decode(parts[5]).value;
                  && (o.Panics? <==> p.time == 0 || p.threads == 0)
                  && (o.Verified? ==>
                        (o.ok <==> env.idKey(password, env.decode(parts[4]).value, p, |stored|) == stored)))
  {
  }
}
