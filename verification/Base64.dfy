/** The Base64 decoder of app/app_utils.c against RFC 4648, section 4. */
module Base64 {
  /** An unsigned char. */
  type Octet = x: int | 0 <= x < 256

  const PAD := '='

  /** The value of a character, or -1: the decoding table, which spans '+' to 'z'. */
  function De(c: char): (v: int)
    ensures -1 <= v < 64
  {
    if 'A' <= c <= 'Z' then c as int - 'A' as int
    else if 'a' <= c <= 'z' then c as int - 'a' as int + 26
    else if '0' <= c <= '9' then c as int - '0' as int + 52
    else if c == '+' then 62
    else if c == '/' then 63
    else -1
  }

  /** The RFC's alphabet. */
  function En(v: int): (c: char)
    requires 0 <= v < 64
    ensures De(c) == v && c != PAD
  {
    if v < 26 then (v + 'A' as int) as char
    else if v < 52 then (v - 26 + 'a' as int) as char
    else if v < 62 then (v - 52 + '0' as int) as char
    else if v == 62 then '+'
    else '/'
  }

  // ---- what an encoding means ----------------------------------------------

  /** How many whole octets `m` six-bit values hold. */
  function Whole(m: nat): (n: nat)
    ensures 8 * n <= 6 * m < 8 * n + 8
  {
    3 * (m / 4) + if m % 4 == 0 then 0 else m % 4 - 1
  }

  predicate Values(v: seq<int>) {
    forall k :: 0 <= k < |v| ==> 0 <= v[k] < 64
  }

  /** Octet `k` of the six-bit values run together. */
  function OctetOf(v: seq<int>, k: nat): (r: Octet)
    requires Values(v) && k < Whole(|v|)
  {
    var q := 4 * (k / 3);
    if k % 3 == 0 then v[q] * 4 + v[q + 1] / 16
    else if k % 3 == 1 then v[q + 1] % 16 * 16 + v[q + 2] / 4
    else v[q + 2] % 4 * 64 + v[q + 3]
  }

  /** The characters in front of the first pad. */
  function BeforePad(s: string): (p: string)
    ensures p <= s && PAD !in p && (|p| < |s| ==> s[|p|] == PAD)
  {
    if s == "" || s[0] == PAD then "" else [s[0]] + BeforePad(s[1..])
  }

  predicate Alphabetic(s: string) {
    forall k :: 0 <= k < |s| ==> De(s[k]) >= 0
  }

  function ValuesOf(s: string): (v: seq<int>)
    requires Alphabetic(s)
    ensures |v| == |s| && Values(v) && forall k :: 0 <= k < |s| ==> v[k] == De(s[k])
  {
    seq(|s|, k requires 0 <= k < |s| => De(s[k]))
  }

  /** The decoding of any string: nothing when a foreign character precedes the first pad. */
  function Decoded(s: string): (r: seq<Octet>)
    ensures |r| <= (|s| + 3) / 4 * 3
  {
    var p := BeforePad(s);
    if !Alphabetic(p) then []
    else seq(Whole(|p|), k requires 0 <= k < Whole(|p|) => OctetOf(ValuesOf(p), k))
  }

  // ---- the decoder ---------------------------------------------------------

  /** Last character in front of a padding, where the decoder leaves the next octet alone. */
  predicate SkipsNext(s: string, i: nat, back: nat)
    requires 2 <= back <= 3 && i < |s| && i + 1 >= back - 1
  {
    // the unsigned difference wraps when the string is shorter than `back`
    |s| >= back && i >= |s| - back && s[|s| - back + 1] == PAD
  }

  /** What the decoder has put into the buffer after `i` characters. */
  ghost predicate Written(s: string, i: nat, out: seq<int>, j: nat)
    requires i <= |s| && Alphabetic(s[..i]) && |out| >= (|s| + 3) / 4 * 3
  {
    var v := ValuesOf(s[..i]);
    && j == Whole(i)
    && (forall k :: 0 <= k < j ==> out[k] == OctetOf(v, k))
    && (i % 4 == 1 ==> out[j] == v[i - 1] * 4)
    && (i % 4 == 2 ==> out[j] == v[i - 1] % 16 * 16 || (i < |s| && s[i] == PAD))
    && (i % 4 == 3 ==> out[j] == v[i - 1] % 4 * 64 || (i < |s| && s[i] == PAD))
  }

  /** base64_decode */
  method Decode(s: string, out: array<Octet>) returns (r: nat)
    requires out.Length >= (|s| + 3) / 4 * 3
    modifies out
    ensures r == |Decoded(s)| && out[..r] == Decoded(s)
    ensures forall k :: (|s| + 3) / 4 * 3 <= k < out.Length ==> out[k] == old(out[k])
  {
    var j := 0;
    for i := 0 to |s|
      invariant PAD !in s[..i] && Alphabetic(s[..i]) && Written(s, i, out[..], j)
      invariant forall k :: (|s| + 3) / 4 * 3 <= k < out.Length ==> out[k] == old(out[k])
    {
      if s[i] == PAD {
        DecodedAll(s, i, out[..], j);
        return j;
      }
      var c := De(s[i]);
      if c == -1 {
        DecodedNothing(s, i);
        return 0;
      }
      j := DecodeOne(s, i, c, out, j);
    }
    DecodedAll(s, |s|, out[..], j);
    return j;
  }

  lemma DecodedAll(s: string, i: nat, out: seq<int>, j: nat)
    requires i <= |s| && PAD !in s[..i] && Alphabetic(s[..i]) && |out| >= (|s| + 3) / 4 * 3
    requires (i == |s| || s[i] == PAD) && Written(s, i, out, j)
    ensures j == |Decoded(s)| && out[..j] == Decoded(s)
  {
    PrefixBeforePad(s, i);
  }

  lemma DecodedNothing(s: string, i: nat)
    requires i < |s| && PAD !in s[..i] && s[i] != PAD && De(s[i]) == -1
    ensures Decoded(s) == []
  {
    assert s[..i + 1] == s[..i] + [s[i]];
    PrefixBeforePad(s, i + 1);
    assert BeforePad(s)[i] == s[i];
  }

  /** As long as no pad was met, the characters so far are in front of the first pad. */
  lemma PrefixBeforePad(s: string, i: nat)
    requires i <= |s| && PAD !in s[..i]
    ensures s[..i] <= BeforePad(s)
    ensures i == |s| || s[i] == PAD ==> BeforePad(s) == s[..i]
  {
    if i < |s| && s[i] == PAD {
      assert |BeforePad(s)| == i;
    }
  }

  /** Octets that are complete are not changed by a further value. */
  lemma OctetsKept(v: seq<int>, c: int)
    requires Values(v) && 0 <= c < 64
    ensures Values(v + [c]) && Whole(|v|) <= Whole(|v| + 1) <= Whole(|v|) + 1
    ensures forall k :: 0 <= k < Whole(|v|) ==> OctetOf(v + [c], k) == OctetOf(v, k)
  {
  }

  /** The octet that a further value completes. */
  lemma OctetCompleted(v: seq<int>, c: int)
    requires Values(v) && 0 <= c < 64 && |v| % 4 != 0
    ensures Values(v + [c]) && Whole(|v| + 1) == Whole(|v|) + 1
    ensures var last := v[|v| - 1];
      OctetOf(v + [c], Whole(|v|)) ==
        if |v| % 4 == 1 then last * 4 + c / 16
        else if |v| % 4 == 2 then last % 16 * 16 + c / 4
        else last % 4 * 64 + c
  {
    var q := |v| / 4;
    assert |v| == 4 * q + |v| % 4;
  }

  /** The first character of a group starts an octet. */
  method DecodeFirst(c: int, out: array<Octet>, j: nat)
    requires 0 <= c < 64 && j < out.Length
    modifies out
    ensures out[..] == old(out[..][j := c * 4])
  {
    out[j] := c * 4 % 256;
  }

  /** A later character completes an octet and, unless `skip`, starts the next one. */
  method DecodeLater(high: int, next: int, skip: bool, out: array<Octet>, j: nat)
    requires j < out.Length && 0 <= next < 256 && 0 <= out[j] + high < 256 && (!skip ==> j + 1 < out.Length)
    modifies out
    ensures out[..] ==
      if skip then old(out[..][j := out[j] + high]) else old(out[..][j := out[j] + high][j + 1 := next])
  {
    out[j] := (out[j] + high) % 256;
    if !skip {
      out[j + 1] := next;
    }
  }

  /** What a character adds to the octet under construction, and what it leaves for the next. */
  function High(i: nat, c: int): int
    requires 0 <= c < 64
  {
    if i % 4 == 1 then c / 16 else if i % 4 == 2 then c / 4 else c
  }

  function Low(i: nat, c: int): (r: int)
    requires 0 <= c < 64
    ensures 0 <= r < 256
  {
    if i % 4 == 1 then c % 16 * 16 else if i % 4 == 2 then c % 4 * 64 else 0
  }

  /** No octet is left open after the last character of a group or in front of a pad. */
  predicate LeavesNext(s: string, i: nat)
    requires i < |s|
  {
    i % 4 == 3 || SkipsNext(s, i, if i % 4 == 1 then 3 else 2)
  }

  lemma WrittenFirst(s: string, i: nat, c: int, out: seq<int>, j: nat)
    requires i < |s| && c == De(s[i]) >= 0 && Alphabetic(s[..i + 1]) && |out| >= (|s| + 3) / 4 * 3
    requires i % 4 == 0 && Written(s, i, out, j)
    ensures j < |out| && Written(s, i + 1, out[j := c * 4], j)
  {
    var v := ValuesOf(s[..i]);
    assert ValuesOf(s[..i + 1]) == v + [c];
    OctetsKept(v, c);
    assert Whole(i + 1) == Whole(i);
  }

  lemma LaterOctets(v: seq<int>, c: int, out: seq<int>, j: nat, out': seq<int>)
    requires Values(v) && 0 <= c < 64 && |v| % 4 != 0 && j == Whole(|v|) && j < |out| == |out'|
    requires forall k :: 0 <= k < j ==> out[k] == OctetOf(v, k) && out'[k] == out[k]
    requires var last := v[|v| - 1];
      out[j] == if |v| % 4 == 1 then last * 4 else if |v| % 4 == 2 then last % 16 * 16 else last % 4 * 64
    requires out'[j] == out[j] + High(|v|, c)
    ensures Values(v + [c]) && Whole(|v| + 1) == j + 1
    ensures forall k :: 0 <= k < j + 1 ==> out'[k] == OctetOf(v + [c], k)
  {
    OctetsKept(v, c);
    OctetCompleted(v, c);
  }

  lemma WrittenLater(s: string, i: nat, c: int, out: seq<int>, j: nat, out': seq<int>)
    requires i < |s| && c == De(s[i]) >= 0 && Alphabetic(s[..i + 1]) && |out| >= (|s| + 3) / 4 * 3
    requires i % 4 != 0 && s[i] != PAD && PAD !in s[..i] && Written(s, i, out, j) && j < |out|
    requires |out'| == |out| && (forall k :: 0 <= k < j ==> out'[k] == out[k])
    requires out'[j] == out[j] + High(i, c)
    requires !LeavesNext(s, i) ==> j + 1 < |out| && out'[j + 1] == Low(i, c)
    ensures Written(s, i + 1, out', j + 1)
  {
    var v := ValuesOf(s[..i]);
    assert ValuesOf(s[..i + 1]) == v + [c];
    LaterOctets(v, c, out, j, out');
    if i % 4 != 3 && LeavesNext(s, i) {
      SkipMeetsPad(s, i);
    }
  }

  /** The next octet is left alone only when a pad follows. */
  lemma SkipMeetsPad(s: string, i: nat)
    requires i < |s| && s[i] != PAD && PAD !in s[..i] && 1 <= i % 4 <= 2 && LeavesNext(s, i)
    ensures i + 1 < |s| && s[i + 1] == PAD
  {
  }

  /** The switch on the position of a character within its group of four. */
  method DecodeOne(s: string, i: nat, c: int, out: array<Octet>, j: nat) returns (j': nat)
    requires i < |s| && c == De(s[i]) >= 0 && s[i] != PAD
    requires out.Length >= (|s| + 3) / 4 * 3
    requires PAD !in s[..i] && Alphabetic(s[..i]) && Written(s, i, out[..], j)
    modifies out
    ensures PAD !in s[..i + 1] && Alphabetic(s[..i + 1]) && Written(s, i + 1, out[..], j')
    ensures forall k :: (|s| + 3) / 4 * 3 <= k < out.Length ==> out[k] == old(out[k])
  {
    ghost var before := out[..];
    PrefixGrows(s, i);
    RoomLeft(s, i);
    if i % 4 == 0 {
      DecodeFirst(c, out, j);
      WrittenFirst(s, i, c, before, j);
      return j;
    }
    var high, next, skip := SplitValue(s, i, c);
    NoCarry(s, i, before, j, c);
    DecodeLater(high, next, skip, out, j);
    WrittenLater(s, i, c, before, j, out[..]);
    return j + 1;
  }

  /** The bits of a later character for the open octet and for the next one, by position in the group. */
  method SplitValue(s: string, i: nat, c: int) returns (high: int, next: int, skip: bool)
    requires i < |s| && 0 <= c < 64 && i % 4 != 0
    ensures high == High(i, c) && skip == LeavesNext(s, i)
    ensures next == Low(i, c)
  {
    high, next, skip := c, 0, true;
    match i % 4 {
      case 1 => high, next, skip := c / 16 % 4, c % 16 * 16, SkipsNext(s, i, 3);
      case 2 => high, next, skip := c / 4 % 16, c % 4 * 64, SkipsNext(s, i, 2);
      case _ =>
    }
  }

  lemma PrefixGrows(s: string, i: nat)
    requires i < |s| && s[i] != PAD && De(s[i]) >= 0 && PAD !in s[..i] && Alphabetic(s[..i])
    ensures PAD !in s[..i + 1] && Alphabetic(s[..i + 1])
  {
    assert s[..i + 1] == s[..i] + [s[i]];
  }

  /** The octet under construction has room for the bits that a later character adds. */
  lemma NoCarry(s: string, i: nat, out: seq<int>, j: nat, c: int)
    requires i < |s| && s[i] != PAD && i % 4 != 0 && 0 <= c < 64
    requires Alphabetic(s[..i]) && |out| >= (|s| + 3) / 4 * 3 && Written(s, i, out, j) && j < |out|
    ensures 0 <= out[j] + High(i, c) < 256
  {
    var last := ValuesOf(s[..i])[i - 1];
    assert 0 <= last < 64;
  }

  /** The octets that character `i` touches are within the room for the string. */
  lemma RoomLeft(s: string, i: nat)
    requires i < |s|
    ensures Whole(i) < (|s| + 3) / 4 * 3
    ensures 1 <= i % 4 <= 2 ==> Whole(i) + 1 < (|s| + 3) / 4 * 3
  {
    assert i / 4 <= (|s| + 3) / 4 - 1;
  }

  // ---- the encoding of RFC 4648, section 4 ---------------------------------

  /** Octet `k`, or zero bits behind the end. */
  function OrZero(b: seq<Octet>, k: nat): Octet {
    if k < |b| then b[k] else 0
  }

  /** Six-bit value `i` of the octets run together. */
  function SextetOf(b: seq<Octet>, i: nat): (r: int)
    ensures 0 <= r < 64
  {
    var q := 3 * (i / 4);
    if i % 4 == 0 then OrZero(b, q) / 4
    else if i % 4 == 1 then OrZero(b, q) % 4 * 16 + OrZero(b, q + 1) / 16
    else if i % 4 == 2 then OrZero(b, q + 1) % 16 * 4 + OrZero(b, q + 2) / 64
    else OrZero(b, q + 2) % 64
  }

  /** How many six-bit values are needed for `n` octets. */
  function Needed(n: nat): (m: nat)
    ensures 8 * n <= 6 * m < 8 * n + 6
  {
    (4 * n + 2) / 3
  }

  /** The pads that fill the last group of four. */
  function Pads(m: nat): (r: string)
    ensures (m + |r|) % 4 == 0 && |r| < 4 && forall k :: 0 <= k < |r| ==> r[k] == PAD
  {
    seq((4 - m % 4) % 4, i => PAD)
  }

  function Encode(b: seq<Octet>): (s: string)
    ensures |s| % 4 == 0
  {
    seq(Needed(|b|), i requires 0 <= i < Needed(|b|) => En(SextetOf(b, i))) + Pads(Needed(|b|))
  }

  lemma {:induction false} BeforePadOf(p: string, pads: string)
    requires PAD !in p && (pads == "" || pads[0] == PAD)
    ensures BeforePad(p + pads) == p
  {
    if p == "" {
      assert p + pads == pads;
    } else {
      BeforePadOf(p[1..], pads);
      assert (p + pads)[1..] == p[1..] + pads;
    }
  }

  /** The four six-bit values of three octets. */
  lemma SextetGroup(b: seq<Octet>, q: nat)
    ensures var (x, y, z) := (OrZero(b, 3 * q), OrZero(b, 3 * q + 1), OrZero(b, 3 * q + 2));
      && SextetOf(b, 4 * q) == x / 4
      && SextetOf(b, 4 * q + 1) == x % 4 * 16 + y / 16
      && SextetOf(b, 4 * q + 2) == y % 16 * 4 + z / 64
      && SextetOf(b, 4 * q + 3) == z % 64
  {
    assert (4 * q) / 4 == (4 * q + 1) / 4 == (4 * q + 2) / 4 == (4 * q + 3) / 4 == q;
  }

  lemma OctetFromParts(x: Octet, y: Octet, z: Octet)
    ensures x / 4 * 4 + (x % 4 * 16 + y / 16) / 16 == x
    ensures (x % 4 * 16 + y / 16) % 16 * 16 + (y % 16 * 4 + z / 64) / 4 == y
    ensures (y % 16 * 4 + z / 64) % 4 * 64 + z % 64 == z
  {
  }

  /** Octet `k` comes back from the six-bit values it was spread over. */
  lemma OctetRoundTrip(b: seq<Octet>, v: seq<int>, k: nat)
    requires |v| == Needed(|b|) && Sextets(b, v)
    requires k < |b| == Whole(|v|)
    ensures OctetOf(v, k) == b[k]
  {
    var q, r := k / 3, k % 3;
    assert k == 3 * q + r;
    if r == 0 {
      FirstOctet(b, v, q);
    } else if r == 1 {
      SecondOctet(b, v, q);
    } else {
      ThirdOctet(b, v, q);
    }
  }

  /** The six-bit values of `b`, as far as they are there. */
  ghost predicate Sextets(b: seq<Octet>, v: seq<int>) {
    Values(v) && forall i :: 0 <= i < |v| ==> v[i] == SextetOf(b, i)
  }

  lemma FirstOctet(b: seq<Octet>, v: seq<int>, q: nat)
    requires Sextets(b, v) && 3 * q < Whole(|v|) && 3 * q < |b|
    ensures OctetOf(v, 3 * q) == b[3 * q]
  {
    OctetInGroup(v, q, 0);
    SextetGroup(b, q);
    OctetFromParts(OrZero(b, 3 * q), OrZero(b, 3 * q + 1), 0);
  }

  lemma SecondOctet(b: seq<Octet>, v: seq<int>, q: nat)
    requires Sextets(b, v) && 3 * q + 1 < Whole(|v|) && 3 * q + 1 < |b|
    ensures OctetOf(v, 3 * q + 1) == b[3 * q + 1]
  {
    OctetInGroup(v, q, 1);
    SextetGroup(b, q);
    OctetFromParts(OrZero(b, 3 * q), OrZero(b, 3 * q + 1), OrZero(b, 3 * q + 2));
  }

  lemma ThirdOctet(b: seq<Octet>, v: seq<int>, q: nat)
    requires Sextets(b, v) && 3 * q + 2 < Whole(|v|) && 3 * q + 2 < |b|
    ensures OctetOf(v, 3 * q + 2) == b[3 * q + 2]
  {
    OctetInGroup(v, q, 2);
    SextetGroup(b, q);
    OctetFromParts(0, OrZero(b, 3 * q + 1), OrZero(b, 3 * q + 2));
  }

  lemma OctetInGroup(v: seq<int>, q: nat, r: nat)
    requires r < 3 && Values(v) && 3 * q + r < Whole(|v|)
    ensures 4 * q + r + 1 < |v|
    ensures OctetOf(v, 3 * q + r) ==
      if r == 0 then v[4 * q] * 4 + v[4 * q + 1] / 16
      else if r == 1 then v[4 * q + 1] % 16 * 16 + v[4 * q + 2] / 4
      else v[4 * q + 2] % 4 * 64 + v[4 * q + 3]
  {
    assert (3 * q + r) / 3 == q && (3 * q + r) % 3 == r;
  }

  lemma WholeNeeded(n: nat)
    ensures Whole(Needed(n)) == n
  {
    var q := n / 3;
    assert n == 3 * q + n % 3;
    assert Needed(n) == 4 * q + (if n % 3 == 0 then 0 else n % 3 + 1);
  }

  lemma EncodingValues(b: seq<Octet>)
    ensures var p := BeforePad(Encode(b));
      |p| == Needed(|b|) && Alphabetic(p) && forall i :: 0 <= i < |p| ==> ValuesOf(p)[i] == SextetOf(b, i)
  {
    var m := Needed(|b|);
    var p := seq(m, i requires 0 <= i < m => En(SextetOf(b, i)));
    assert Encode(b) == p + Pads(m);
    BeforePadOf(p, Pads(m));
  }

  /** Decoding the encoding of any octets gives the octets back. */
  lemma RoundTrip(b: seq<Octet>)
    ensures Decoded(Encode(b)) == b
  {
    EncodingValues(b);
    WholeNeeded(|b|);
    var v := ValuesOf(BeforePad(Encode(b)));
    forall k | 0 <= k < |b|
      ensures OctetOf(v, k) == b[k]
    {
      OctetRoundTrip(b, v, k);
    }
  }

  /** The decoder run on an encoding, into a buffer holding anything. */
  method DecodeEncoded(b: seq<Octet>, out: array<Octet>) returns (r: nat)
    requires out.Length >= |Encode(b)| / 4 * 3
    modifies out
    ensures r == |b| && out[..r] == b
    ensures forall k :: |Encode(b)| / 4 * 3 <= k < out.Length ==> out[k] == old(out[k])
  {
    ghost var s := Encode(b);
    RoundTrip(b);
    WholeGroups(|s|);
    r := Decode(Encode(b), out);
  }

  lemma WholeGroups(n: nat)
    requires n % 4 == 0
    ensures (n + 3) / 4 * 3 == n / 4 * 3
  {
    assert n == 4 * (n / 4);
  }

  /** Whatever stands behind the first pad does not matter. */
  lemma PadEnds(p: string, more: string)
    requires PAD !in p
    ensures Decoded(p + "=" + more) == Decoded(p)
  {
    assert p + "=" + more == p + ("=" + more) && p + "" == p;
    BeforePadOf(p, "=" + more);
    BeforePadOf(p, "");
  }

  // ---- the words of the RFC --------------------------------------------------

  const UPPER := "ABCDEFGHIJKLMNOPQRSTUVWXYZ"
  const LOWER := "abcdefghijklmnopqrstuvwxyz"
  const DIGITS := "0123456789"
  const ALPHABET := UPPER + LOWER + DIGITS + "+/"

  /** Table 1 of RFC 4648: the encoder writes its characters, and the decoder knows no others. */
  lemma AlphabetOfRfc(v: int, c: char)
    ensures |ALPHABET| == 64
    ensures 0 <= v < 64 ==> En(v) == ALPHABET[v]
    ensures 0 <= v < 64 ==> (De(c) == v <==> c == ALPHABET[v])
  {
    if 0 <= v < 26 {
      UpperInOrder(v);
    } else if 26 <= v < 52 {
      LowerInOrder(v - 26);
    } else if 52 <= v < 62 {
      DigitsInOrder(v - 52);
    }
  }

  lemma {:induction false} UpperInOrder(k: nat)
    requires k < 26
    ensures UPPER[k] as int == 'A' as int + k
  {
    if k > 0 {
      UpperInOrder(k - 1);
    }
  }

  lemma {:induction false} LowerInOrder(k: nat)
    requires k < 26
    ensures LOWER[k] as int == 'a' as int + k
  {
    if k > 0 {
      LowerInOrder(k - 1);
    }
  }

  lemma {:induction false} DigitsInOrder(k: nat)
    requires k < 10
    ensures DIGITS[k] as int == '0' as int + k
  {
    if k > 0 {
      DigitsInOrder(k - 1);
    }
  }

  /** A group of 24 bits is the same number as three octets and as four characters. */
  lemma GroupOf24(b: seq<Octet>, q: nat)
    ensures OrZero(b, 3 * q) * 65536 + OrZero(b, 3 * q + 1) * 256 + OrZero(b, 3 * q + 2)
         == SextetOf(b, 4 * q) * 262144 + SextetOf(b, 4 * q + 1) * 4096
          + SextetOf(b, 4 * q + 2) * 64 + SextetOf(b, 4 * q + 3)
  {
    SextetGroup(b, q);
  }

  /** Length and padding: four characters per group, and two, one or no pads. */
  lemma EncodedLength(b: seq<Octet>)
    ensures |Encode(b)| == (|b| + 2) / 3 * 4
    ensures var pads := if |b| % 3 == 1 then "==" else if |b| % 3 == 2 then "=" else "";
      |pads| <= |Encode(b)| && Encode(b)[|Encode(b)| - |pads|..] == pads
      && PAD !in Encode(b)[..|Encode(b)| - |pads|]
  {
    var q, r := |b| / 3, |b| % 3;
    assert |b| == 3 * q + r;
    var m := Needed(|b|);
    assert m == 4 * q + if r == 0 then 0 else r + 1;
    assert (4 - m % 4) % 4 == if r == 0 then 0 else 3 - r;
    var text := seq(m, i requires 0 <= i < m => En(SextetOf(b, i)));
    assert Encode(b) == text + Pads(m);
    assert Encode(b)[..m] == text && Encode(b)[m..] == Pads(m);
  }

  /** Examples of section 10 of the RFC. */
  lemma ExamplesOfRfc()
    ensures Encode([102]) == "Zg==" && Encode([102, 111]) == "Zm8=" && Encode([102, 111, 111]) == "Zm9v"
  {
    assert SextetOf([102], 0) == 25 && SextetOf([102], 1) == 32;
    assert SextetOf([102, 111], 0) == 25 && SextetOf([102, 111], 1) == 38 && SextetOf([102, 111], 2) == 60;
    assert SextetOf([102, 111, 111], 0) == 25 && SextetOf([102, 111, 111], 1) == 38;
    assert SextetOf([102, 111, 111], 2) == 61 && SextetOf([102, 111, 111], 3) == 47;
  }
}
