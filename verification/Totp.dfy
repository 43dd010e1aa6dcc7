/** The one-time password of app/app_utils.c against RFC 4226, section 5.3, and RFC 6238, section 4.2. */
module Totp {
  import opened Base64

  const TIME_STEP := 30
  const TOTP_LENGTH := 8
  const DIGITS_POWER := 100000000

  // ---- the moving factor ---------------------------------------------------

  /** The value of octets, most significant first. */
  function BigEndian(s: seq<Octet>): nat {
    if s == [] then 0 else BigEndian(s[..|s| - 1]) * 256 + s[|s| - 1]
  }

  /** `t` shifted right by `n` octets, keeping the sign. */
  function ShiftOctets(t: int, n: nat): int {
    if n == 0 then t else ShiftOctets(t, n - 1) / 256
  }

  function Pow256(n: nat): (p: nat)
    ensures p > 0
  {
    if n == 0 then 1 else 256 * Pow256(n - 1)
  }

  /** A time_t, and its division by the time step, which rounds towards zero. */
  type Time = t: int | -0x8000_0000_0000_0000 <= t < 0x8000_0000_0000_0000

  function Steps(time: Time): int {
    var t: int := time;
    if t >= 0 then t / TIME_STEP else -(-t / TIME_STEP)
  }

  /** The assignments that fill the eight octets of the counter. */
  method FillCounter(time: Time, buff: array<Octet>)
    requires buff.Length == TOTP_LENGTH + 1
    modifies buff
    ensures BigEndian(buff[..TOTP_LENGTH]) == Steps(time) % 0x1_0000_0000_0000_0000
    ensures buff[TOTP_LENGTH] == old(buff[TOTP_LENGTH])
  {
    var t := Steps(time);
    buff[0] := ShiftOctets(t, 7) % 256;
    buff[1] := ShiftOctets(t, 6) % 256;
    buff[2] := ShiftOctets(t, 5) % 256;
    buff[3] := ShiftOctets(t, 4) % 256;
    buff[4] := ShiftOctets(t, 3) % 256;
    buff[5] := ShiftOctets(t, 2) % 256;
    buff[6] := ShiftOctets(t, 1) % 256;
    buff[7] := t % 256;
    OctetsOf(t, buff[..8], 0);
    EightOctets();
  }

  /** From 1970 on the counter is the time divided by the step. */
  lemma CounterValue(time: Time)
    requires time >= 0
    ensures Steps(time) % 0x1_0000_0000_0000_0000 == time / 30
  {
  }

  lemma EightOctets()
    ensures Pow256(8) == 0x1_0000_0000_0000_0000
  {
    assert Pow256(4) == 0x1_0000_0000;
  }

  /** The octets of a number, taken by shifting, reassemble to what was shifted, but for what does not fit. */
  lemma {:induction false} OctetsOf(t: int, s: seq<Octet>, low: nat)
    requires forall m :: 0 <= m < |s| ==> s[m] == ShiftOctets(t, low + |s| - 1 - m) % 256
    ensures BigEndian(s) == ShiftOctets(t, low) % Pow256(|s|)
  {
    if s != [] {
      OctetsOf(t, s[..|s| - 1], low + 1);
      LowestOctet(ShiftOctets(t, low), Pow256(|s| - 1));
    }
  }

  lemma LowestOctet(x: int, p: nat)
    requires p > 0
    ensures x / 256 % p * 256 + x % 256 == x % (256 * p)
  {
    var y := x / 256;
    var r := y % p * 256 + x % 256;
    assert y % p <= p - 1;
    assert x == 256 * p * (y / p) + r by {
      assert y == p * (y / p) + y % p;
      assert x == 256 * y + x % 256;
    }
    ModuloOf(x, 256 * p, y / p, r);
  }

  lemma ModuloOf(x: int, m: nat, q: int, r: int)
    requires x == m * q + r && 0 <= r < m
    ensures x % m == r
  {
    var d := x / m;
    assert x == m * d + x % m;
    assert m * (q + 1) == m * q + m && m * (d + 1) == m * d + m;
    if d > q {
      Monotone(m, q + 1, d);
    } else if d < q {
      Monotone(m, d + 1, q);
    }
  }

  lemma Monotone(m: nat, a: int, b: int)
    requires a <= b
    ensures m * a <= m * b
  {
    assert m * b - m * a == m * (b - a);
  }

  // ---- dynamic truncation --------------------------------------------------

  function Compose(a: int, b: int, c: int, d: int): int {
    a * 0x100_0000 + b * 0x1_0000 + c * 0x100 + d
  }

  /** MAX_LEN, the length of the buffer for the digest. */
  const HASH_MAX := 512

  type Digest = s: seq<Octet> | |s| <= HASH_MAX

  /** The buffer, which holds zeros behind the digest. */
  function HashBuffer(digest: Digest): (r: seq<Octet>)
    ensures |r| == HASH_MAX && digest <= r
  {
    digest + seq(HASH_MAX - |digest|, k => 0)
  }

  /**
   * The last octet but for its high half says where the four octets start, within the digest when
   * that is long enough for any start; the top bit is dropped.
   */
  function Truncate(digest: Digest): (bin: nat)
    requires digest != []
    ensures bin < 0x8000_0000
    ensures var os := digest[|digest| - 1] % 16;
      && bin == BigEndian(HashBuffer(digest)[os..os + 4]) % 0x8000_0000
      && (|digest| >= 19 ==> os + 3 < |digest| && bin == BigEndian(digest[os..os + 4]) % 0x8000_0000)
  {
    var os, hash := digest[|digest| - 1] % 16, HashBuffer(digest);
    FourOctets(hash[os..os + 4]);
    assert |digest| >= 19 ==> hash[os..os + 4] == digest[os..os + 4];
    Compose(hash[os] % 128, hash[os + 1], hash[os + 2], hash[os + 3])
  }

  lemma FourOctets(s: seq<Octet>)
    requires |s| == 4
    ensures BigEndian(s) == (s[0] as int) * 16777216 + (s[1] as int) * 65536 + (s[2] as int) * 256 + s[3]
    ensures BigEndian(s) == Compose(s[0], s[1], s[2], s[3])
    ensures BigEndian(s) % 0x8000_0000 == Compose(s[0] % 128, s[1], s[2], s[3])
  {
    assert s[..3][..2][..1][..0] == [];
    var a: int, b: int, c: int, d: int := s[0], s[1], s[2], s[3];
    assert BigEndian(s[..3][..2][..1]) == a;
    assert BigEndian(s[..3][..2]) == a * 256 + b;
    assert BigEndian(s[..3]) == (a * 256 + b) * 256 + c;
    assert BigEndian(s) == ((a * 256 + b) * 256 + c) * 256 + d;
    var high: int := a / 128;
    assert a == high * 128 + a % 128;
    assert BigEndian(s) == high * 0x8000_0000 + Compose(s[0] % 128, s[1], s[2], s[3]);
  }

  // ---- the token -----------------------------------------------------------

  function Digit(d: nat): char
    requires d < 10
  {
    ('0' as int + d) as char
  }

  /** Decimal digits without leading zeros. */
  function Minimal(n: nat): (s: string)
    ensures s != ""
  {
    if n < 10 then [Digit(n)] else Minimal(n / 10) + [Digit(n % 10)]
  }

  /** The conversion "%08d" of a number that is not negative. */
  function Padded(n: nat): string {
    var s := Minimal(n);
    (if |s| < TOTP_LENGTH then Zeros(TOTP_LENGTH - |s|) else "") + s
  }

  function Zeros(n: nat): (s: string)
    ensures |s| == n && forall k :: 0 <= k < n ==> s[k] == '0'
  {
    seq(n, k => '0')
  }

  predicate Decimal(s: string) {
    forall k :: 0 <= k < |s| ==> '0' <= s[k] <= '9'
  }

  function ValueOf(s: string): nat
    requires Decimal(s)
  {
    if s == "" then 0 else ValueOf(s[..|s| - 1]) * 10 + (s[|s| - 1] as int - '0' as int)
  }

  function Pow10(n: nat): nat {
    if n == 0 then 1 else 10 * Pow10(n - 1)
  }

  lemma {:induction false} MinimalMeans(n: nat, w: nat)
    requires 1 <= w && n < Pow10(w)
    ensures Decimal(Minimal(n)) && ValueOf(Minimal(n)) == n && |Minimal(n)| <= w
  {
    if n >= 10 {
      assert w > 1;
      MinimalMeans(n / 10, w - 1);
      var s := Minimal(n);
      assert s[..|s| - 1] == Minimal(n / 10);
    } else {
      assert Minimal(n)[..0] == "";
    }
  }

  lemma {:induction false} LeadingZeros(n: nat, s: string)
    requires Decimal(s)
    ensures Decimal(Zeros(n) + s) && ValueOf(Zeros(n) + s) == ValueOf(s)
  {
    var t := Zeros(n) + s;
    if s != "" {
      LeadingZeros(n, s[..|s| - 1]);
      assert t[..|t| - 1] == Zeros(n) + s[..|s| - 1];
    } else if n > 0 {
      LeadingZeros(n - 1, "");
      assert t[..|t| - 1] == Zeros(n - 1) + "";
    }
  }

  /** The token of a digest: exactly eight digits, whose value is the truncation modulo 10^8. */
  function Token(digest: Digest): (s: string)
    requires digest != []
    ensures |s| == 8 && Decimal(s) && ValueOf(s) == Truncate(digest) % 100_000_000
  {
    var otp := Truncate(digest) % DIGITS_POWER;
    assert Pow10(8) == 10 * Pow10(7) == 100 * Pow10(6) == 1000 * Pow10(5) == 10000 * Pow10(4) == DIGITS_POWER;
    MinimalMeans(otp, TOTP_LENGTH);
    LeadingZeros(TOTP_LENGTH - |Minimal(otp)|, Minimal(otp));
    Padded(otp)
  }

  /** Decimal digits are read with the most significant one first. */
  lemma {:induction false} DecimalReads(c: char, s: string)
    requires '0' <= c <= '9' && Decimal(s)
    ensures Decimal([c] + s) && ValueOf([c] + s) == (c as int - '0' as int) * Pow10(|s|) + ValueOf(s)
  {
    var t := [c] + s;
    if s == "" {
      assert t[..0] == "";
    } else {
      DecimalReads(c, s[..|s| - 1]);
      assert t[..|t| - 1] == [c] + s[..|s| - 1];
      TenTimes(c as int - '0' as int, Pow10(|s| - 1));
    }
  }

  lemma TenTimes(d: int, p: nat)
    ensures d * p * 10 == d * (10 * p)
  {
  }

  /** The digest of RFC 4226, section 5.4. */
  const EXAMPLE: Digest := [
    0x1f, 0x86, 0x98, 0x69, 0x0e, 0x02, 0xca, 0x16, 0x61, 0x85,
    0x50, 0xef, 0x7f, 0x19, 0xda, 0x8e, 0x94, 0x5b, 0x55, 0x5a]

  /** The number that it is truncated to there, and its last eight digits. */
  lemma ExampleOfRfc()
    ensures Truncate(EXAMPLE) == 0x50ef7f19 && ValueOf(Token(EXAMPLE)) == 57872921
  {
    assert |EXAMPLE| == 20 && EXAMPLE[19] == 0x5a;
    var four := EXAMPLE[10..14];
    assert four == [0x50, 0xef, 0x7f, 0x19];
    FourOctets(four);
    assert Truncate(EXAMPLE) == BigEndian(four) % 0x8000_0000;
  }

  // ---- the callback --------------------------------------------------------

  const TOTP_TOKEN_MAX := 128
  const MAX_SEED_LEN := 64

  datatype Outcome = NotRequired | Password(token: string) | TotpFail

  /** The eight counter octets of a time. */
  ghost predicate CounterOf(time: Time, msg: seq<Octet>) {
    |msg| == 8 && BigEndian(msg) == Steps(time) % 0x1_0000_0000_0000_0000
  }

  lemma {:induction false} CounterUnique(a: seq<Octet>, b: seq<Octet>)
    requires |a| == |b| && BigEndian(a) == BigEndian(b)
    ensures a == b
  {
    if a != [] {
      CounterUnique(a[..|a| - 1], b[..|b| - 1]);
      assert a == a[..|a| - 1] + [a[|a| - 1]] && b == b[..|b| - 1] + [b[|b| - 1]];
    }
  }

  /** A message authentication code, which fails by giving nothing. */
  type Mac = (seq<Octet>, seq<Octet>) -> Digest

  /** The password of RFC 6238 for a key and a time, whatever message authentication code is used. */
  ghost predicate PasswordFor(key: seq<Octet>, time: Time, hmac: Mac, token: string) {
    exists msg :: CounterOf(time, msg) && hmac(key, msg) != [] && token == Token(hmac(key, msg))
  }

  /** totp: `seed` is the environment variable, absent or in Base64. */
  method Totp(seed: string, present: bool, time: Time, hmac: Mac) returns (r: Outcome)
    ensures r == NotRequired <==> !present
    ensures var key := Decoded(if |seed| <= MAX_SEED_LEN then seed else seed[..MAX_SEED_LEN]);
      && (present && key == [] ==> r == TotpFail)
      && (r.Password? ==> key != [] && PasswordFor(key, time, hmac, r.token))
      && (present && key != [] && r == TotpFail ==> exists msg :: CounterOf(time, msg) && hmac(key, msg) == [])
  {
    if !present {
      return NotRequired;
    }
    var newSeed := new Octet[TOTP_TOKEN_MAX](_ => 0);
    var buff := new Octet[TOTP_LENGTH + 1](_ => 0);
    FillCounter(time, buff);
    var msg := buff[..TOTP_LENGTH];
    var text := if |seed| <= MAX_SEED_LEN then seed else seed[..MAX_SEED_LEN];
    var seedLen := Decode(text, newSeed);
    if seedLen == 0 {
      return TotpFail;
    }
    var digest := hmac(newSeed[..seedLen], msg);
    assert CounterOf(time, msg);
    if digest == [] {
      return TotpFail;
    }
    return Password(Token(digest));
  }

  /** A key that fits the seed length survives its encoding: the password is the one for the key itself. */
  method PasswordOfKey(key: seq<Octet>, time: Time, hmac: Mac) returns (r: Outcome)
    requires key != [] && |Encode(key)| <= MAX_SEED_LEN
    ensures r.Password? ==> PasswordFor(key, time, hmac, r.token)
    ensures (forall msg :: CounterOf(time, msg) ==> hmac(key, msg) != []) ==> r.Password?
  {
    RoundTrip(key);
    r := Totp(Encode(key), true, time, hmac);
  }
}
