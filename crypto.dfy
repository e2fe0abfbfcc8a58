/** The cryptographic primitives the handlers call. SHA-256 is symbolic: a
    digest is a term built from its input, so two digests are equal exactly
    when their inputs are. bcrypt (the `bcryptjs` package) is modelled down to
    the key it derives from a password: the UTF-8 bytes, a terminating zero
    byte, repeated cyclically to 72 bytes. The cipher itself is a term built
    from the salt and that key. */
module Crypto {

  type Byte = b: int | 0 <= b < 256

  /** A bcrypt salt (`bcrypt.genSalt(10)`). It is random, so handlers take it as a parameter. */
  type Salt = nat

  /** bcrypt's key schedule reads 18 32-bit words of key material. */
  const BcryptKeyLength := 72

  /** A bcrypt hash: the salt and the key material the password was expanded to. */
  datatype PasswordHash = Bcrypt(salt: Salt, key: seq<Byte>)

  /** A hex SHA-256 digest (`crypto.createHash('sha256')`). */
  datatype Digest = Sha256(preimage: string)

  // ---------------------------------------------------------------- UTF-8

  /** The UTF-8 encoding of one Unicode scalar value: one to four bytes, the
      first of which tells how many follow. */
  function Utf8Char(c: char): (bs: seq<Byte>)
    ensures 1 <= |bs| <= 4
    ensures c != '\0' ==> forall i :: 0 <= i < |bs| ==> bs[i] != 0
  {
    var n := c as int;
    if n < 0x80 then [n]
    else if n < 0x800 then [0xC0 + n / 64, 0x80 + n % 64]
    else if n < 0x10000 then [0xE0 + n / 4096, 0x80 + (n / 64) % 64, 0x80 + n % 64]
    else [0xF0 + n / 262144, 0x80 + (n / 4096) % 64, 0x80 + (n / 64) % 64, 0x80 + n % 64]
  }

  /** The number of bytes of the encoding that starts with `lead`. */
  function SeqLength(lead: Byte): nat {
    if lead < 0x80 then 1 else if lead < 0xE0 then 2 else if lead < 0xF0 then 3 else 4
  }

  /** The code point an encoding of `|bs|` bytes stands for. */
  function DecodeChar(bs: seq<Byte>): int
    requires 1 <= |bs| <= 4
  {
    var b: seq<int> := bs;
    if |b| == 1 then b[0]
    else if |b| == 2 then (b[0] - 0xC0) * 64 + (b[1] - 0x80)
    else if |b| == 3 then (b[0] - 0xE0) * 4096 + (b[1] - 0x80) * 64 + (b[2] - 0x80)
    else (b[0] - 0xF0) * 262144 + (b[1] - 0x80) * 4096 + (b[2] - 0x80) * 64 + (b[3] - 0x80)
  }

  /** The lead byte gives the length, and decoding gives the character back. */
  lemma Utf8CharDecodes(c: char)
    ensures SeqLength(Utf8Char(c)[0]) == |Utf8Char(c)|
    ensures DecodeChar(Utf8Char(c)) == c as int
  {
    var n: nat := c as int;
    if 0x800 <= n < 0x10000 {
      SixBitDigits3(n);
    } else if 0x10000 <= n {
      SixBitDigits4(n);
    }
  }

  /** `n` as three base-64 digits. */
  lemma SixBitDigits3(n: nat)
    ensures n / 64 == (n / 4096) * 64 + (n / 64) % 64
  {
    var q := n / 64;
    assert n == 64 * q + n % 64;
    assert n == 4096 * (q / 64) + (64 * (q % 64) + n % 64);
    assert n / 4096 == q / 64;
  }

  /** `n` as four base-64 digits. */
  lemma SixBitDigits4(n: nat)
    ensures n / 4096 == (n / 262144) * 64 + (n / 4096) % 64
    ensures n / 64 == (n / 4096) * 64 + (n / 64) % 64
  {
    SixBitDigits3(n);
    var q := n / 4096;
    assert n == 4096 * q + n % 4096;
    assert n == 262144 * (q / 64) + (4096 * (q % 64) + n % 4096);
    assert n / 262144 == q / 64;
  }

  /** `Buffer.from(s, 'utf8')`: the encodings of the characters, one after another. */
  function Utf8(s: string): (bs: seq<Byte>)
    ensures |bs| >= |s|
    ensures '\0' !in s ==> 0 !in bs
  {
    if s == [] then [] else Utf8Char(s[0]) + Utf8(s[1..])
  }

  lemma {:induction false} Utf8Append(a: string, b: string)
    ensures Utf8(a + b) == Utf8(a) + Utf8(b)
  {
    if a == [] {
      assert a + b == b;
    } else {
      var h := Utf8Char(a[0]);
      assert (a + b)[0] == a[0] && (a + b)[1..] == a[1..] + b;
      assert Utf8(a + b) == h + Utf8(a[1..] + b);
      Utf8Append(a[1..], b);
      ConcatAssoc(h, Utf8(a[1..]), Utf8(b));
    }
  }

  /** Encodings that start two byte strings equal to each other are those of the same character. */
  lemma Utf8CharPrefix(c: char, d: char, r: seq<Byte>, q: seq<Byte>)
    requires Utf8Char(c) + r == Utf8Char(d) + q
    ensures c == d && r == q
  {
    Utf8CharDecodes(c);
    Utf8CharDecodes(d);
    var u, v := Utf8Char(c), Utf8Char(d);
    assert u[0] == (u + r)[0] == (v + q)[0] == v[0];
    assert u == (u + r)[..|u|] == (v + q)[..|v|] == v;
    assert r == (u + r)[|u|..] == (v + q)[|v|..] == q;
  }

  /** Different strings have different UTF-8 encodings. */
  lemma {:induction false} Utf8Injective(a: string, b: string)
    requires Utf8(a) == Utf8(b)
    ensures a == b
  {
    if a != [] && b != [] {
      Utf8CharPrefix(a[0], b[0], Utf8(a[1..]), Utf8(b[1..]));
      Utf8Injective(a[1..], b[1..]);
      assert a == [a[0]] + a[1..] && b == [b[0]] + b[1..];
    }
  }

  // ---------------------------------------------------------------- bcrypt

  /** `k` repeated to length `n`, as the key schedule reads it. */
  function Cycle(k: seq<Byte>, n: nat): (r: seq<Byte>)
    requires |k| > 0
    ensures |r| == n
    ensures n <= |k| ==> r == k[..n]
    ensures |k| <= n ==> r[..|k|] == k
    decreases n
  {
    if n <= |k| then k[..n] else k + Cycle(k, n - |k|)
  }

  /** The key material bcryptjs derives from a password (hash version 2a): its
      UTF-8 bytes and a zero byte, repeated cyclically, of which the first 72
      bytes are used. */
  function BcryptKey(password: string): (key: seq<Byte>)
    ensures |key| == BcryptKeyLength
  {
    Cycle(Utf8(password) + [0], BcryptKeyLength)
  }

  /** `bcrypt.hash(password, salt)` */
  function PwHash(password: string, salt: Salt): (h: PasswordHash)
    ensures h.salt == salt && |h.key| == BcryptKeyLength
  {
    Bcrypt(salt, BcryptKey(password))
  }

  /** `bcrypt.compare(password, hash)`: hash the candidate under the stored salt
      and compare. Apart from the salt, only the derived key matters. */
  predicate PwVerify(password: string, hash: PasswordHash) {
    PwHash(password, hash.salt) == hash
  }

  /** `crypto.createHash('sha256').update(s).digest('hex')`: deterministic. */
  function Sha(s: string): Digest {
    Sha256(s)
  }

  /** Looking a user up by the digest of a raw token finds the digest of that
      token and of no other. */
  lemma ShaInjective(a: string, b: string)
    ensures Sha(a) == Sha(b) <==> a == b
  {
  }

  /** A hash accepts the candidate exactly when the candidate derives the same
      key as the password it was made from, under any salt. */
  lemma PwVerifyHash(candidate: string, password: string, salt: Salt)
    ensures PwVerify(candidate, PwHash(password, salt)) <==> BcryptKey(candidate) == BcryptKey(password)
    ensures PwVerify(password, PwHash(password, salt))
  {
  }

  /** Only the first 72 UTF-8 bytes count: passwords that agree on them are
      interchangeable, whatever follows. */
  lemma BcryptTruncates(prefix: string, x: string, y: string, salt: Salt)
    requires |Utf8(prefix)| >= BcryptKeyLength
    ensures PwVerify(prefix + x, PwHash(prefix + y, salt))
  {
    var p := Utf8(prefix);
    KeyOfLong(prefix, x);
    KeyOfLong(prefix, y);
    assert BcryptKey(prefix + x) == p[..BcryptKeyLength] == BcryptKey(prefix + y);
  }

  /** The key of a password whose first part already has 72 UTF-8 bytes is cut from that part. */
  lemma KeyOfLong(prefix: string, x: string)
    requires |Utf8(prefix)| >= BcryptKeyLength
    ensures BcryptKey(prefix + x) == Utf8(prefix)[..BcryptKeyLength]
  {
    var p, t := Utf8(prefix), Utf8(x);
    Utf8Append(prefix, x);
    ConcatAssoc(p, t, [0]);
    CycleOfLong(p, t + [0]);
  }

  lemma ConcatAssoc(a: seq<Byte>, b: seq<Byte>, c: seq<Byte>)
    ensures (a + b) + c == a + (b + c)
  {
  }

  /** A key of at least 72 bytes is cut, not repeated. */
  lemma CycleOfLong(p: seq<Byte>, t: seq<Byte>)
    requires |p| >= BcryptKeyLength
    ensures Cycle(p + t, BcryptKeyLength) == p[..BcryptKeyLength]
  {
    assert (p + t)[..BcryptKeyLength] == p[..BcryptKeyLength];
  }

  /** Passwords of fewer than 72 UTF-8 bytes without a NUL character are told
      apart: the hash of one accepts no other. */
  lemma BcryptDistinguishesShort(candidate: string, password: string, salt: Salt)
    requires |Utf8(candidate)| < BcryptKeyLength && |Utf8(password)| < BcryptKeyLength
    requires '\0' !in candidate && '\0' !in password
    ensures PwVerify(candidate, PwHash(password, salt)) <==> candidate == password
  {
    if BcryptKey(candidate) == BcryptKey(password) {
      var a, b := Utf8(candidate), Utf8(password);
      FirstZero(a);
      FirstZero(b);
      assert a == b by {
        forall i | 0 <= i < |a| ensures a[i] == b[i] {
          assert BcryptKey(candidate)[i] == BcryptKey(password)[i];
        }
      }
      Utf8Injective(candidate, password);
    }
  }

  /** In the key of a short zero-free encoding, the first zero byte sits right after the encoding. */
  lemma FirstZero(bs: seq<Byte>)
    requires |bs| < BcryptKeyLength && 0 !in bs
    ensures forall i :: 0 <= i < |bs| ==> Cycle(bs + [0], BcryptKeyLength)[i] == bs[i] != 0
    ensures Cycle(bs + [0], BcryptKeyLength)[|bs|] == 0
  {
    var k := bs + [0];
    var r := Cycle(k, BcryptKeyLength);
    assert forall i :: 0 <= i < |k| ==> r[i] == r[..|k|][i] == k[i];
  }
}
