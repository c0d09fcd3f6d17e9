/**
 The "speedy key" of Oracle's verifier 18453: an HMAC-SHA512 chain that is XORed into an
 accumulator in place. It is the first block of PBKDF2 (section 5.2 of RFC 8018).
 */
module Pbkdf2 {

  type Octets = seq<bv8>

  /** HMAC-SHA512(key, message) and SHA-512(message), as 64-byte functions. */
  datatype Hashes = Hashes(hmac: (Octets, Octets) -> Octets, sha512: Octets -> Octets) {
    ghost predicate Valid() {
      (forall k, m :: |hmac(k, m)| == 64) && forall m :: |sha512(m)| == 64
    }
  }

  const VGEN_COUNT := 4096

  const VERIFIER_LENGTH := 32

  predicate IsAscii(text: string) {
    forall i :: 0 <= i < |text| ==> text[i] as int < 128
  }

  /** []byte(text) */
  function Ascii(text: string): Octets
    requires IsAscii(text)
  {
    seq(|text|, i requires 0 <= i < |text| => text[i] as bv8)
  }

  const LABEL: Octets := Ascii("AUTH_PBKDF2_SPEEDY_KEY")

  // ---------------------------------------------------------------- RFC 8018, section 5.2

  /** INT (i): a four-octet encoding of the integer i, most significant octet first. */
  function Int(i: bv32): Octets {
    [(i >> 24) as bv8, ((i >> 16) & 0xFF) as bv8, ((i >> 8) & 0xFF) as bv8, (i & 0xFF) as bv8]
  }

  /** U_j of block i: U_1 = PRF (P, S || INT (i)), U_j = PRF (P, U_{j-1}). */
  function U(h: Hashes, password: Octets, salt: Octets, i: bv32, j: nat): Octets
    requires j >= 1
  {
    if j == 1 then h.hmac(password, salt + Int(i)) else h.hmac(password, U(h, password, salt, i, j - 1))
  }

  function XorAt(us: seq<Octets>, k: nat): bv8
    requires forall j :: 0 <= j < |us| ==> k < |us[j]|
  {
    if us == [] then 0 else XorAt(us[..|us| - 1], k) ^ us[|us| - 1][k]
  }

  /** `f` is F (P, S, c, i) = U_1 \\xor U_2 \\xor ... \\xor U_c, octet by octet. */
  ghost predicate IsBlock(h: Hashes, password: Octets, salt: Octets, c: nat, i: bv32, f: Octets)
    requires h.Valid()
  {
    |f| == 64 && forall k :: 0 <= k < 64 ==> f[k] == XorAt(Us(h, password, salt, c, i), k)
  }

  /** U_1 to U_c. */
  ghost function Us(h: Hashes, password: Octets, salt: Octets, c: nat, i: bv32): (us: seq<Octets>)
    requires h.Valid()
    ensures |us| == c && forall j :: 0 <= j < c ==> us[j] == U(h, password, salt, i, j + 1) && |us[j]| == 64
  {
    if c == 0 then [] else Us(h, password, salt, c - 1, i) + [Term(h, password, salt, i, c)]
  }

  /** U_j, known to be 64 octets long. */
  ghost function Term(h: Hashes, password: Octets, salt: Octets, i: bv32, j: nat): (u: Octets)
    requires h.Valid() && j >= 1
    ensures u == U(h, password, salt, i, j) && |u| == 64
  {
    U(h, password, salt, i, j)
  }

  /** One more term of the exclusive or. */
  lemma XorNext(h: Hashes, password: Octets, salt: Octets, c: nat, i: bv32, k: nat)
    requires h.Valid() && k < 64
    ensures XorAt(Us(h, password, salt, c + 1, i), k)
            == XorAt(Us(h, password, salt, c, i), k) ^ Term(h, password, salt, i, c + 1)[k]
  {
    var us := Us(h, password, salt, c + 1, i);
    assert us[..|us| - 1] == Us(h, password, salt, c, i);
  }

  lemma NextBlock(h: Hashes, password: Octets, salt: Octets, c: nat, i: bv32, f: Octets, g: Octets)
    requires h.Valid() && IsBlock(h, password, salt, c, i, f)
    requires g == Xor(f, Term(h, password, salt, i, c + 1))
    ensures IsBlock(h, password, salt, c + 1, i, g)
  {
    forall k | 0 <= k < 64 ensures g[k] == XorAt(Us(h, password, salt, c + 1, i), k) {
      XorNext(h, password, salt, c, i, k);
    }
  }

  lemma FirstBlock(h: Hashes, password: Octets, salt: Octets, i: bv32, f: Octets)
    requires h.Valid() && f == Term(h, password, salt, i, 1)
    ensures IsBlock(h, password, salt, 1, i, f)
  {
    forall k | 0 <= k < 64 ensures f[k] == XorAt(Us(h, password, salt, 1, i), k) {
      XorNext(h, password, salt, 0, i, k);
    }
  }

  // ---------------------------------------------------------------- the code

  function Xor(a: Octets, b: Octets): (c: Octets)
    requires |a| == |b|
    ensures |c| == |a|
  {
    seq(|a|, k requires 0 <= k < |a| => a[k] ^ b[k])
  }

  /** The inner loop. */
  method XorInto(acc: array<bv8>, temp: Octets)
    requires acc.Length == |temp| == 64
    modifies acc
    ensures acc[..] == Xor(old(acc[..]), temp)
  {
    for j := 0 to 64
      invariant forall k :: 0 <= k < j ==> acc[k] == old(acc[k]) ^ temp[k]
      invariant forall k :: j <= k < 64 ==> acc[k] == old(acc[k])
    {
      acc[j] := acc[j] ^ temp[j];
    }
  }

  /** For every turn count; below 1 the loop does not run and one turn is what comes out. */
  method SpeedyKey(h: Hashes, buffer: Octets, key: Octets, turns: int) returns (out: Octets)
    requires h.Valid()
    ensures IsBlock(h, key, buffer, if turns < 1 then 1 else turns, 1, out)
  {
    var first := h.hmac(key, buffer + [0, 0, 0, 1]);
    assert first == Term(h, key, buffer, 1, 1) by {
      assert Int(1) == [0, 0, 0, 1];
    }
    var acc := new bv8[64](k requires 0 <= k < 64 => first[k]);
    var temp := first;
    assert acc[..] == first;
    FirstBlock(h, key, buffer, 1, first);
    var i := 2;
    while i <= turns
      invariant 2 <= i && (turns >= 1 ==> i <= turns + 1) && (turns < 1 ==> i == 2)
      invariant temp == Term(h, key, buffer, 1, i - 1)
      invariant IsBlock(h, key, buffer, i - 1, 1, acc[..])
    {
      temp := h.hmac(key, temp);
      assert temp == Term(h, key, buffer, 1, i);
      ghost var before := acc[..];
      XorInto(acc, temp);
      NextBlock(h, key, buffer, i - 1, 1, before, acc[..]);
      i := i + 1;
    }
    return acc[..];
  }

  /** The stored verifier: 32 bytes of SHA-512 over the derived block and the salt. */
  method DeriveVerifier18453(h: Hashes, password: Octets, salt: Octets) returns (out: Octets)
    requires h.Valid()
    ensures exists f ::
              && IsBlock(h, password, salt + Ascii("AUTH_PBKDF2_SPEEDY_KEY"), 4096, 1, f)
              && out == h.sha512(f + salt)[..32]
  {
    var message := salt + LABEL;
    var speedy := SpeedyKey(h, message, password, VGEN_COUNT);
    var full := h.sha512(speedy + salt);
    return full[..VERIFIER_LENGTH];
  }

  lemma BlockIsUnique(h: Hashes, password: Octets, salt: Octets, c: nat, i: bv32, f: Octets, g: Octets)
    requires h.Valid() && IsBlock(h, password, salt, c, i, f) && IsBlock(h, password, salt, c, i, g)
    ensures f == g
  {
    assert forall k :: 0 <= k < 64 ==> f[k] == g[k];
  }
}
