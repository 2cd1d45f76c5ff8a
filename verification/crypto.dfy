/**
 * Abstract stand-in for JSON Web Tokens (RFC 7519) as the signing library
 * issues and checks them with the service's one signing secret. A token is
 * either one the service signed, carrying its claim set and the `iat`/`exp`
 * seconds the library adds, or any other text (malformed, or signed with
 * another key), which never verifies. Two tokens are the same string exactly
 * when they are equal values here: the library's output is a function of the
 * claims, `iat`, `exp` and the secret.
 */
module Jwt {
  import opened Common

  /** The claim set: `sub`, and the optional `username`, `email` and `type`. */
  datatype Claims = Claims(sub: int, username: Option<string>, email: Option<string>, kind: Option<string>)

  datatype Token = Signed(claims: Claims, issuedAt: int, expiresAt: int) | Unsigned(text: string)

  /** `Math.floor(Date.now() / 1000)`: Dafny's `/` floors for a positive divisor. */
  function Seconds(nowMs: int): int
  {
    nowMs / 1000
  }

  /** An instant whose whole second is less than `k` seconds after that of
      `a` is less than `k` seconds after `a` itself. */
  lemma SecondsBefore(a: int, b: int, k: int)
    requires Seconds(b) < Seconds(a) + k
    ensures b < a + 1000 * k
  {
  }

  /** `sign(claims, { expiresIn })`, with `expiresIn` already read as seconds. */
  function Sign(claims: Claims, nowMs: int, ttlSeconds: int): (t: Token)
    ensures t.Signed? && t.claims == claims
    ensures t.expiresAt - t.issuedAt == ttlSeconds
  {
    Signed(claims, Seconds(nowMs), Seconds(nowMs) + ttlSeconds)
  }

  /** `verify(token)`: the claims of a token this service signed whose `exp`
      has not been reached; anything else is rejected. */
  function Verify(t: Token, nowMs: int): (r: Option<Claims>)
    ensures r.Some? <==> t.Signed? && Seconds(nowMs) < t.expiresAt
    ensures r.Some? ==> r.value == t.claims
  {
    if t.Signed? && Seconds(nowMs) < t.expiresAt then Some(t.claims) else None
  }

  /** A signed token verifies to its own claims until its lifetime runs out. */
  lemma VerifySigned(claims: Claims, issuedMs: int, ttlSeconds: int, nowMs: int)
    requires Seconds(nowMs) < Seconds(issuedMs) + ttlSeconds
    ensures Verify(Sign(claims, issuedMs, ttlSeconds), nowMs) == Some(claims)
  {
  }
}

/**
 * Abstract stand-in for bcrypt. bcrypt reads the password as UTF-8 bytes and
 * keys its cipher on a 72-byte stream: the first 72 bytes when there are that
 * many, otherwise the bytes with their terminating NUL, repeated. A hash
 * records its cost factor, the random salt and that key stream (the digest
 * is taken to be injective in the stream). Only `Compare` looks inside.
 */
module Bcrypt {

  /** `saltRounds` used by every hashing call site. */
  const SaltRounds: nat := 10

  /** bcrypt ignores every password byte past this many; its key stream has
      exactly this length. */
  const MaxKeyBytes: nat := 72

  /** The UTF-8 encoding of one character (section 3 of RFC 3629). */
  function Utf8Char(c: char): (b: seq<int>)
    ensures 1 <= |b| <= 4
    ensures |b| == LeadLength(b[0])
  {
    var n := c as int;
    if n < 0x80 then [n]
    else if n < 0x800 then [0xC0 + n / 64, 0x80 + n % 64]
    else if n < 0x1_0000 then [0xE0 + n / 4096, 0x80 + n / 64 % 64, 0x80 + n % 64]
    else [0xF0 + n / 262144, 0x80 + n / 4096 % 64, 0x80 + n / 64 % 64, 0x80 + n % 64]
  }

  /** The sequence length a UTF-8 lead byte announces. */
  function LeadLength(b: int): nat
  {
    if b < 0x80 then 1 else if b < 0xE0 then 2 else if b < 0xF0 then 3 else 4
  }

  /** The UTF-8 encoding of a string, as `Buffer.from(password)` gives it. */
  function Utf8(s: string): (b: seq<int>)
    ensures |b| >= |s|
  {
    if s == [] then [] else Utf8Char(s[0]) + Utf8(s[1..])
  }

  /** The key stream bcrypt builds from the password bytes: the first 72
      bytes when there are that many, otherwise the bytes and their NUL
      terminator cycled to 72 bytes. */
  function KeyStream(b: seq<int>): (k: seq<int>)
    ensures |k| == MaxKeyBytes
    ensures |b| >= MaxKeyBytes ==> k == b[..MaxKeyBytes]
    ensures |b| < MaxKeyBytes ==> k[..|b|] == b && k[|b|] == 0
  {
    if |b| >= MaxKeyBytes then b[..MaxKeyBytes]
    else Repeat(b + [0], MaxKeyBytes)
  }

  /** The first `n` bytes of `u` repeated without end. */
  function Repeat(u: seq<int>, n: nat): (r: seq<int>)
    requires u != []
    ensures |r| == n
    ensures n >= |u| ==> r[..|u|] == u
    decreases n
  {
    if n <= |u| then u[..n] else u + Repeat(u, n - |u|)
  }

  /** The bytes bcrypt keys on for a password. */
  function Key(password: string): (k: seq<int>)
    ensures |k| == MaxKeyBytes
    ensures |Utf8(password)| >= MaxKeyBytes ==> k == Utf8(password)[..MaxKeyBytes]
    ensures |Utf8(password)| < MaxKeyBytes ==> k[..|Utf8(password)|] == Utf8(password) && k[|Utf8(password)|] == 0
  {
    KeyStream(Utf8(password))
  }

  /** Only the NUL character encodes to a zero byte. */
  lemma {:induction false} Utf8NoZero(s: string)
    requires '\0' !in s
    ensures 0 !in Utf8(s)
    decreases |s|
  {
    if s != [] {
      assert s[0] != '\0';
      assert '\0' !in s[1..];
      Utf8NoZero(s[1..]);
    }
  }

  /** Byte strings without a zero byte, of at most 72 bytes, have different
      key streams: the stream shows the bytes up to the first zero. */
  lemma KeyStreamInjective(a: seq<int>, b: seq<int>)
    requires 0 !in a && 0 !in b && |a| <= MaxKeyBytes && |b| <= MaxKeyBytes
    requires KeyStream(a) == KeyStream(b)
    ensures a == b
  {
    var k := KeyStream(a);
    assert |a| == |b|;
    assert a == k[..|a|] == b;
  }

  datatype Hash = Hash(cost: nat, salt: int, key: seq<int>)

  /** `bcrypt.hash(password, SaltRounds)` with the salt drawn by the caller. */
  function HashPassword(password: string, salt: int): (h: Hash)
    ensures h.cost == SaltRounds && h.salt == salt
    ensures Compare(password, h)
  {
    Hash(SaltRounds, salt, Key(password))
  }

  /** `bcrypt.compare(password, hash)`. */
  predicate Compare(password: string, h: Hash)
  {
    h.key == Key(password)
  }

  /** A code point is recovered from its six-bit groups. */
  lemma SixBitGroups(n: nat)
    ensures n / 64 / 64 == n / 4096 && n / 4096 / 64 == n / 262144
    ensures n == n / 64 * 64 + n % 64
    ensures n == n / 4096 * 4096 + n / 64 % 64 * 64 + n % 64
    ensures n == n / 262144 * 262144 + n / 4096 % 64 * 4096 + n / 64 % 64 * 64 + n % 64
  {
    var q1, r1 := n / 64, n % 64;
    var q2, r2 := q1 / 64, q1 % 64;
    var q3, r3 := q2 / 64, q2 % 64;
    assert n == q1 * 64 + r1 && q1 == q2 * 64 + r2 && q2 == q3 * 64 + r3;
    assert n == q2 * 4096 + r2 * 64 + r1;
    assert n == q3 * 262144 + r3 * 4096 + r2 * 64 + r1;
  }

  /** Two characters with the same encoding are the same character. */
  lemma Utf8CharInjective(c: char, d: char)
    requires Utf8Char(c) == Utf8Char(d)
    ensures c == d
  {
    var n, m := c as int, d as int;
    SixBitGroups(n);
    SixBitGroups(m);
    var b := Utf8Char(c);
    if |b| == 2 {
      assert n / 64 == m / 64 && n % 64 == m % 64;
    } else if |b| == 3 {
      assert n / 4096 == m / 4096 && n / 64 % 64 == m / 64 % 64 && n % 64 == m % 64;
    } else if |b| == 4 {
      assert n / 262144 == m / 262144 && n / 4096 % 64 == m / 4096 % 64;
      assert n / 64 % 64 == m / 64 % 64 && n % 64 == m % 64;
    }
  }

  /** UTF-8 is injective: different strings have different encodings. */
  lemma {:induction false} Utf8Injective(s: string, t: string)
    requires Utf8(s) == Utf8(t)
    ensures s == t
    decreases |s|
  {
    if s != [] {
      assert t != [];
      var a, b := Utf8Char(s[0]), Utf8Char(t[0]);
      assert a[0] == Utf8(s)[0] == Utf8(t)[0] == b[0];
      assert Utf8(s)[..|a|] == a && Utf8(t)[..|b|] == b;
      Utf8CharInjective(s[0], t[0]);
      assert Utf8(s[1..]) == Utf8(s)[|a|..] == Utf8(t)[|b|..] == Utf8(t[1..]);
      Utf8Injective(s[1..], t[1..]);
      assert s == [s[0]] + s[1..] && t == [t[0]] + t[1..];
    } else {
      assert t == [];
    }
  }

  /** The encoding of a concatenation is the concatenation of the encodings. */
  lemma {:induction false} Utf8Append(s: string, t: string)
    ensures Utf8(s + t) == Utf8(s) + Utf8(t)
    decreases |s|
  {
    if s != [] {
      assert (s + t)[0] == s[0] && (s + t)[1..] == s[1..] + t;
      Utf8Append(s[1..], t);
    } else {
      assert s + t == t;
    }
  }

  /** A hash accepts exactly the passwords with the key stream of the one it
      was made from; among passwords of at most 72 bytes without a NUL
      character, that is its own password and no other. */
  lemma CompareExact(password: string, attempt: string, salt: int)
    ensures Compare(attempt, HashPassword(password, salt)) <==> Key(attempt) == Key(password)
    ensures |Utf8(password)| <= MaxKeyBytes && |Utf8(attempt)| <= MaxKeyBytes && '\0' !in password && '\0' !in attempt ==>
              (Compare(attempt, HashPassword(password, salt)) <==> attempt == password)
  {
    if |Utf8(password)| <= MaxKeyBytes && |Utf8(attempt)| <= MaxKeyBytes && '\0' !in password && '\0' !in attempt
       && Key(attempt) == Key(password) {
      Utf8NoZero(password);
      Utf8NoZero(attempt);
      KeyStreamInjective(Utf8(attempt), Utf8(password));
      Utf8Injective(attempt, password);
    }
  }

  /** Repeating a block twice over repeats the block. */
  lemma {:induction false} RepeatTwice(u: seq<int>, n: nat)
    requires u != []
    ensures Repeat(u + u, n) == Repeat(u, n)
    decreases n
  {
    if n <= |u| {
      assert (u + u)[..n] == u[..n];
    } else if n <= 2 * |u| {
      assert (u + u)[..n] == u + u[..n - |u|];
    } else {
      RepeatTwice(u, n - 2 * |u|);
      assert Repeat(u, n - |u|) == u + Repeat(u, n - 2 * |u|);
    }
  }

  /** The key stream repeats a short password with its NUL terminator, so the
      password `p`, NUL, `p` accepts the hash of `p` (`"abcdef"` and
      `"abcdef\0abcdef"` collide). */
  lemma NulRepeatCollides(p: string, salt: int)
    requires 2 * |Utf8(p)| + 1 < MaxKeyBytes
    ensures Compare(p + ['\0'] + p, HashPassword(p, salt))
    ensures p + ['\0'] + p != p
  {
    var b := Utf8(p);
    Utf8AroundNul(p);
    assert Utf8(p + ['\0'] + p) + [0] == (b + [0]) + (b + [0]);
    RepeatTwice(b + [0], MaxKeyBytes);
    assert |p + ['\0'] + p| > |p|;
  }

  /** The encoding of `p`, NUL, `p`: the NUL is the single byte 0. */
  lemma Utf8AroundNul(p: string)
    ensures Utf8(p + ['\0'] + p) == Utf8(p) + [0] + Utf8(p)
  {
    assert Utf8(['\0']) == [0];
    Utf8Append(p, ['\0']);
    Utf8Append(p + ['\0'], p);
  }

  /** Past 72 bytes the password is not read: two passwords sharing a prefix of
      at least 72 bytes accept each other's hash. */
  lemma LongPasswordsCollide(prefix: string, x: string, y: string, salt: int)
    requires |Utf8(prefix)| >= MaxKeyBytes
    ensures Compare(prefix + x, HashPassword(prefix + y, salt))
  {
    Utf8Append(prefix, x);
    Utf8Append(prefix, y);
    assert Key(prefix + x) == Utf8(prefix)[..MaxKeyBytes] == Key(prefix + y);
  }
}
