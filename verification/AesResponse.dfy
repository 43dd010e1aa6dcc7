/**
 * What a Monte Carlo response says, told without the functions that compute it: the outputs of a
 * pass are the only ones that satisfy the recurrence, every entry replays from its own fields, and
 * each entry follows from the one before it.
 */
module AesResponse {
  import opened Bits
  import opened AesMctSpec

  // ---- one pass ------------------------------------------------------------

  /** All texts that a pass reads: the first one, the units of the IV, and its own outputs. */
  function Stream(m: Mode, p: Pass, outs: seq<Bytes>): seq<Bytes>
    requires |p.iv| == 16 && |p.first| == Unit(m) && Units(m, outs)
  {
    [Seen(m, p.first)] + IvUnits(m, p.iv) + SeenAll(m, outs)
  }

  /** `outs` come from the crypto module started with key and IV, step by step along the stream. */
  ghost predicate IsRun<S(!new)>(t: Test<S>, p: Pass, states: seq<S>, outs: seq<Bytes>)
    requires ValidTest(t) && ValidPass(t, p)
  {
    && |states| == |outs| + 1 && Units(t.mode, outs)
    && states[0] == t.crypto.init(p.key, p.iv)
    && forall j {:trigger states[j]} :: 0 <= j < |outs| ==>
         t.crypto.step(states[j], Stream(t.mode, p, outs)[j]) == (states[j + 1], outs[j])
  }

  lemma StreamIsInput<S(!new)>(t: Test<S>, p: Pass, outs: seq<Bytes>, j: nat)
    requires ValidTest(t) && ValidPass(t, p) && Units(t.mode, outs) && j < |outs|
    ensures Stream(t.mode, p, outs)[j] == Input(t, p, outs[..j])
  {
    if j > 0 {
      FeedbackStream(t.mode, p.iv, outs[..j]);
      var front := IvUnits(t.mode, p.iv) + SeenAll(t.mode, outs[..j]);
      var all := IvUnits(t.mode, p.iv) + SeenAll(t.mode, outs);
      assert front[j - 1] == all[j - 1];
      assert Stream(t.mode, p, outs) == [Seen(t.mode, p.first)] + all;
    }
  }

  /** The recurrence has one solution, and it is what the engine is proved to compute. */
  lemma {:induction false} RunUnique<S(!new)>(t: Test<S>, p: Pass, states: seq<S>, outs: seq<Bytes>, n: nat)
    requires ValidTest(t) && ValidPass(t, p) && IsRun(t, p, states, outs) && n <= |outs|
    ensures Run(t, p, n) == (states[n], outs[..n])
  {
    if n > 0 {
      RunUnique(t, p, states, outs, n - 1);
      RunStep(t, p, states, outs, n - 1);
      FrontGrows(outs, n - 1);
    }
  }

  lemma FrontGrows(outs: seq<Bytes>, j: nat)
    requires j < |outs|
    ensures outs[..j + 1] == outs[..j] + [outs[j]]
  {
  }

  lemma RunStep<S(!new)>(t: Test<S>, p: Pass, states: seq<S>, outs: seq<Bytes>, j: nat)
    requires ValidTest(t) && ValidPass(t, p) && IsRun(t, p, states, outs) && j < |outs|
    ensures t.crypto.step(states[j], Input(t, p, outs[..j])) == (states[j + 1], outs[j])
  {
    StreamIsInput(t, p, outs, j);
    assert t.crypto.step(states[j], Stream(t.mode, p, outs)[j]) == (states[j + 1], outs[j]);
  }

  ghost function States<S(!new)>(t: Test<S>, p: Pass, n: nat): (r: seq<S>)
    requires ValidTest(t) && ValidPass(t, p)
    ensures |r| == n && forall j :: 0 <= j < n ==> r[j] == Run(t, p, j).0
  {
    seq(n, j requires 0 <= j < n => Run(t, p, j).0)
  }

  lemma RunExists<S(!new)>(t: Test<S>, p: Pass, n: nat)
    requires ValidTest(t) && ValidPass(t, p)
    ensures IsRun(t, p, States(t, p, n + 1), Run(t, p, n).1)
  {
    var states, outs := States(t, p, n + 1), Run(t, p, n).1;
    forall j {:trigger states[j]} | 0 <= j < n
      ensures t.crypto.step(states[j], Stream(t.mode, p, outs)[j]) == (states[j + 1], outs[j])
    {
      RunExtends(t, p, j, n);
      RunExtends(t, p, j + 1, n);
      StreamIsInput(t, p, outs, j);
      assert outs[j] == outs[..j + 1][j];
    }
  }

  /** Outputs of a pass: exactly the texts that satisfy the recurrence. */
  lemma OutputsAreTheRun<S(!new)>(t: Test<S>, p: Pass, outs: seq<Bytes>)
    requires ValidTest(t) && ValidPass(t, p) && |outs| == t.inner
    ensures outs == Outputs(t, p) <==> exists states: seq<S> :: IsRun(t, p, states, outs)
  {
    if outs == Outputs(t, p) {
      RunExists(t, p, t.inner);
    }
    if states: seq<S> :| IsRun(t, p, states, outs) {
      RunUnique(t, p, states, outs, t.inner);
      assert outs[..t.inner] == outs;
    }
  }

  /** A pass is accepted when none of its steps is refused, and only then. */
  lemma AcceptedSteps<S(!new)>(t: Test<S>, p: Pass, n: nat)
    requires ValidTest(t) && ValidPass(t, p)
    ensures Accepts(t, p, n) <==> forall j: nat :: j < n ==> AcceptsAt(t, p, j)
  {
    if Accepts(t, p, n) {
      forall j: nat | j < n
        ensures AcceptsAt(t, p, j)
      {
        AcceptedEach(t, p, n, j);
      }
    } else {
      var j := RefusedSomewhere(t, p, n);
    }
  }

  lemma SameStep<S(!new)>(t: Test<S>, p: Pass, j: nat)
    requires ValidTest(t) && ValidPass(t, p)
    ensures AcceptsAt(t, p, j) <==> AcceptsStep(t, p, j)
  {
  }

  lemma {:induction false} AcceptedEach<S(!new)>(t: Test<S>, p: Pass, n: nat, j: nat)
    requires ValidTest(t) && ValidPass(t, p) && Accepts(t, p, n) && j < n
    ensures AcceptsAt(t, p, j)
  {
    if j < n - 1 {
      AcceptedEach(t, p, n - 1, j);
    } else {
      SameStep(t, p, j);
    }
  }

  lemma {:induction false} RefusedSomewhere<S(!new)>(t: Test<S>, p: Pass, n: nat) returns (j: nat)
    requires ValidTest(t) && ValidPass(t, p) && !Accepts(t, p, n)
    ensures j < n && !AcceptsAt(t, p, j)
  {
    if Accepts(t, p, n - 1) {
      j := n - 1;
      SameStep(t, p, j);
    } else {
      j := RefusedSomewhere(t, p, n - 1);
    }
  }

  /** The crypto module takes text `j` of the stream in the state that it reached with those before. */
  ghost predicate AcceptsAt<S(!new)>(t: Test<S>, p: Pass, j: nat)
    requires ValidTest(t) && ValidPass(t, p)
  {
    var (state, outs) := Run(t, p, j);
    var stream := [Seen(t.mode, p.first)] + IvUnits(t.mode, p.iv) + SeenAll(t.mode, outs);
    RunFeed(t, p, j);
    !t.crypto.refuses(state, stream[j])
  }

  lemma RunFeed<S(!new)>(t: Test<S>, p: Pass, j: nat)
    requires ValidTest(t) && ValidPass(t, p)
    ensures var outs := Run(t, p, j).1;
      var stream := [Seen(t.mode, p.first)] + IvUnits(t.mode, p.iv) + SeenAll(t.mode, outs);
      j < |stream| && stream[j] == Input(t, p, outs)
  {
    var outs := Run(t, p, j).1;
    if j > 0 {
      FeedbackStream(t.mode, p.iv, outs);
      assert [Seen(t.mode, p.first)] + IvUnits(t.mode, p.iv) + SeenAll(t.mode, outs)
          == [Seen(t.mode, p.first)] + (IvUnits(t.mode, p.iv) + SeenAll(t.mode, outs));
    }
  }

  /** The units of the IV, run together, are the IV: byte by byte, or bit by bit for CFB1. */
  lemma IvUnitsAreIv(m: Mode, iv: Bytes)
    requires |iv| == 16 && !m.ECB?
    ensures !m.CFB1? ==> Flatten(IvUnits(m, iv)) == iv
    ensures m.CFB1? ==> |IvUnits(m, iv)| == 128
    ensures m.CFB1? ==> forall j :: 0 <= j < 128 ==> IvUnits(m, iv)[j] == [if GetBit(iv, j) then 0x80 else 0]
  {
    if m.CFB8? {
      FlattenSingles(IvUnits(m, iv));
    } else if !m.CFB1? {
      assert [iv][..0] == [];
      assert [] + iv == iv;
    }
  }

  /** For CFB1 the key slice has, in order, the first bit of each of the last outputs. */
  lemma KeySliceBits(keyLen: nat, outs: seq<Bytes>, n: nat)
    requires keyLen in {128, 192, 256} && |outs| >= 257 && Units(CFB1, outs) && n < keyLen
    ensures GetBit(KeySlice(CFB1, keyLen, outs), n) == (outs[|outs| - keyLen + n][0] & 0x80 != 0)
  {
    PackBitsBit(LastBits(outs, keyLen), n);
    FirstBit(outs[|outs| - keyLen + n]);
  }

  lemma FirstBit(out: Bytes)
    requires |out| > 0
    ensures GetBit(out, 0) == (out[0] & 0x80 != 0)
  {
    TopBitOnly(out[0]);
    assert GetBit(out, 0) == TestBit(out[0], 0);
  }

  // ---- the entries of the response -----------------------------------------

  lemma {:induction false} EntryAt<S(!new)>(t: Test<S>, p: Pass, m: nat, i: nat)
    requires ValidTest(t) && ValidPass(t, p) && i < m
    ensures Records(t, p, m)[i] == RecordOf(t, PassAt(t, p, i))
  {
    if i < m - 1 {
      EntryAt(t, p, m - 1, i);
    }
  }

  lemma {:induction false} EcbKeepsIv<S(!new)>(t: Test<S>, p: Pass, i: nat)
    requires ValidTest(t) && ValidPass(t, p) && t.mode.ECB?
    ensures PassAt(t, p, i).iv == p.iv
  {
    if i > 0 {
      EcbKeepsIv(t, p, i - 1);
    }
  }

  /** The pass that an entry describes; ECB leaves the IV out. */
  ghost function PassOf(m: Mode, e: Record, iv: Bytes): Pass {
    Pass(e.key, if m.ECB? then iv else e.iv, e.input)
  }

  /** The first entry starts with key, IV and text of the test case. */
  lemma ResponseStarts<S(!new)>(t: Test<S>, p: Pass, m: nat)
    requires ValidTest(t) && ValidPass(t, p) && m > 0
    ensures var a := Records(t, p, m)[0];
      a.key == p.key && a.input == p.first && a.iv == if t.mode.ECB? then [] else p.iv
  {
    EntryAt(t, p, m, 0);
  }

  /** Every entry replays: run from its key, IV and input, the crypto module ends with its output. */
  lemma ResponseReplays<S(!new)>(t: Test<S>, p: Pass, m: nat, i: nat)
    requires ValidTest(t) && ValidPass(t, p) && i < m
    ensures var a := Records(t, p, m)[i];
      && (t.mode.ECB? ==> a.iv == [])
      && ValidPass(t, PassOf(t.mode, a, p.iv))
      && exists states: seq<S>, outs: seq<Bytes> ::
           |outs| == t.inner && IsRun(t, PassOf(t.mode, a, p.iv), states, outs) && a.output == outs[t.inner - 1]
  {
    EntryAt(t, p, m, i);
    var q := PassAt(t, p, i);
    if t.mode.ECB? {
      EcbKeepsIv(t, p, i);
    }
    assert PassOf(t.mode, Records(t, p, m)[i], p.iv) == q;
    RunExists(t, q, t.inner);
  }

  lemma {:induction false} PackSuffix(bits: seq<bool>, k: nat)
    requires |bits| % 8 == 0 && k % 8 == 0 && k <= |bits|
    ensures PackBits(bits)[k / 8..] == PackBits(bits[k..])
  {
    var whole, part := PackBits(bits), bits[k..];
    forall i | 0 <= i < |part| / 8
      ensures whole[k / 8 + i] == PackBits(part)[i]
    {
      assert part[8 * i..8 * i + 8] == bits[8 * (k / 8 + i)..8 * (k / 8 + i) + 8];
    }
  }

  /** The last 16 bytes. */
  function Tail(a: Bytes): (r: Bytes)
    requires |a| >= 16
    ensures |r| == 16
  {
    a[|a| - 16..]
  }

  /** The last 128 bits of the key slice: the next IV, or for ECB the last output. */
  lemma SliceEndsInIv(m: Mode, keyLen: nat, iv: Bytes, outs: seq<Bytes>)
    requires |iv| == 16 && keyLen in {128, 192, 256} && |outs| >= 257 && Units(m, outs)
    ensures m.ECB? ==> Tail(KeySlice(m, keyLen, outs)) == outs[|outs| - 1]
    ensures !m.ECB? ==> Tail(KeySlice(m, keyLen, outs)) == NextIv(m, iv, outs)
  {
    if m.CFB1? {
      BitSliceEnds(keyLen, iv, outs);
    } else if m.CFB8? {
      ByteSliceEnds(keyLen, iv, outs);
    } else {
      BlockSliceEnds(m, keyLen, iv, outs);
    }
  }

  lemma BlockSliceEnds(m: Mode, keyLen: nat, iv: Bytes, outs: seq<Bytes>)
    requires !m.CFB8? && !m.CFB1? && keyLen in {128, 192, 256}
    requires |iv| == 16 && |outs| >= 257 && Units(m, outs)
    ensures Tail(KeySlice(m, keyLen, outs)) == outs[|outs| - 1]
    ensures !m.ECB? ==> NextIv(m, iv, outs) == outs[|outs| - 1]
  {
    var a, b := outs[|outs| - 2], outs[|outs| - 1];
    BlockTail(keyLen, a, b);
    assert KeySlice(m, keyLen, outs) == BlockSlice(keyLen, a, b);
  }

  lemma BlockTail(keyLen: nat, a: Bytes, b: Bytes)
    requires keyLen in {128, 192, 256} && |a| == |b| == 16
    ensures Tail(BlockSlice(keyLen, a, b)) == b
  {
  }

  lemma ByteSliceEnds(keyLen: nat, iv: Bytes, outs: seq<Bytes>)
    requires keyLen in {128, 192, 256} && |iv| == 16 && |outs| >= 257 && Units(CFB8, outs)
    ensures Tail(KeySlice(CFB8, keyLen, outs)) == NextIv(CFB8, iv, outs)
  {
    var n := keyLen / 8;
    assert KeySlice(CFB8, keyLen, outs) == LastBytes(outs, n);
    assert NextIv(CFB8, iv, outs) == LastBytes(outs, 16);
    LastBytesEnd(outs, n);
  }

  lemma BitSliceEnds(keyLen: nat, iv: Bytes, outs: seq<Bytes>)
    requires keyLen in {128, 192, 256} && |iv| == 16 && |outs| >= 257 && Units(CFB1, outs)
    ensures Tail(KeySlice(CFB1, keyLen, outs)) == NextIv(CFB1, iv, outs)
  {
    assert KeySlice(CFB1, keyLen, outs) == PackBits(LastBits(outs, keyLen));
    assert NextIv(CFB1, iv, outs) == PackBits(LastBits(outs, 128));
    LastBitsEnd(outs, keyLen);
    PackSuffix(LastBits(outs, keyLen), keyLen - 128);
    assert (keyLen - 128) / 8 == keyLen / 8 - 16;
  }

  lemma LastBytesEnd(outs: seq<Bytes>, n: nat)
    requires 16 <= n <= |outs| && forall k :: 0 <= k < |outs| ==> |outs[k]| == 1
    ensures Tail(LastBytes(outs, n)) == LastBytes(outs, 16)
  {
  }

  lemma LastBitsEnd(outs: seq<Bytes>, n: nat)
    requires 128 <= n <= |outs| && forall k :: 0 <= k < |outs| ==> |outs[k]| == 1
    ensures LastBits(outs, n)[n - 128..] == LastBits(outs, 128)
  {
  }

  lemma XorEnds(a: Bytes, b: Bytes, end: Bytes)
    requires |a| == |b| >= 16 && Tail(b) == end
    ensures Tail(Xor(a, b)) == Xor(Tail(a), end)
  {
  }

  /** What is written of one entry and the next, from the response alone. */
  ghost predicate Follows(m: Mode, a: Record, b: Record)
    requires |a.key| == |b.key| >= 16 && |a.output| == |b.input| == Unit(m)
    requires !m.ECB? ==> |a.iv| == |b.iv| == 16
  {
    match m
    case ECB => b.input == a.output && Tail(b.key) == Xor(Tail(a.key), a.output)
    case CBC | OFB | CFB128 => b.iv == a.output && Tail(b.key) == Xor(Tail(a.key), b.iv)
    case CFB8 => b.iv[15] == a.output[0] && Tail(b.key) == Xor(Tail(a.key), b.iv)
    case CFB1 => GetBit(b.iv, 127) == (a.output[0] & 0x80 != 0) && Tail(b.key) == Xor(Tail(a.key), b.iv)
  }

  /** Each entry follows from the one before it. */
  lemma ResponseChains<S(!new)>(t: Test<S>, p: Pass, m: nat, i: nat)
    requires ValidTest(t) && ValidPass(t, p) && i + 1 < m
    ensures var (a, b) := (Records(t, p, m)[i], Records(t, p, m)[i + 1]);
      && |a.key| == |b.key| == t.keyLen / 8 && |a.output| == |b.input| == Unit(t.mode)
      && (!t.mode.ECB? ==> |a.iv| == |b.iv| == 16)
      && Follows(t.mode, a, b)
  {
    EntryAt(t, p, m, i);
    EntryAt(t, p, m, i + 1);
    PassFollows(t, PassAt(t, p, i));
  }

  lemma PassFollows<S(!new)>(t: Test<S>, q: Pass)
    requires ValidTest(t) && ValidPass(t, q)
    ensures Follows(t.mode, RecordOf(t, q), RecordOf(t, NextPass(t, q)))
  {
    var outs := Outputs(t, q);
    KeyFollows(t.mode, t.keyLen, q.key, q.iv, outs);
    if t.mode.CFB1? {
      LastBitCarried(outs);
    }
  }

  lemma KeyFollows(m: Mode, keyLen: nat, key: Bytes, iv: Bytes, outs: seq<Bytes>)
    requires |iv| == 16 && keyLen in {128, 192, 256} && |key| == keyLen / 8 && |outs| >= 257 && Units(m, outs)
    ensures m.ECB? ==> Tail(Xor(key, KeySlice(m, keyLen, outs))) == Xor(Tail(key), outs[|outs| - 1])
    ensures !m.ECB? ==> Tail(Xor(key, KeySlice(m, keyLen, outs))) == Xor(Tail(key), NextIv(m, iv, outs))
  {
    var slice := KeySlice(m, keyLen, outs);
    SliceEndsInIv(m, keyLen, iv, outs);
    XorEnds(key, slice, Tail(slice));
  }

  lemma LastBitCarried(outs: seq<Bytes>)
    requires |outs| >= 257 && Units(CFB1, outs)
    ensures GetBit(PackBits(LastBits(outs, 128)), 127) == (outs[|outs| - 1][0] & 0x80 != 0)
  {
    PackBitsBit(LastBits(outs, 128), 127);
    FirstBit(outs[|outs| - 1]);
  }

  /** What all outputs of one entry say of the next. */
  ghost predicate Feeds<S(!new)>(t: Test<S>, outs: seq<Bytes>, a: Record, b: Record)
    requires ValidTest(t) && |outs| == t.inner && Units(t.mode, outs)
    requires |a.key| == |b.key| == t.keyLen / 8 && |b.input| == Unit(t.mode) && (!t.mode.ECB? ==> |b.iv| == 16)
  {
    && b.key == Xor(a.key, KeySlice(t.mode, t.keyLen, outs))
    && if t.mode.ECB? then b.input == outs[t.inner - 1]
       else [Seen(t.mode, b.input)] + IvUnits(t.mode, b.iv) == SeenAll(t.mode, outs)[t.inner - Window(t.mode) - 1..]
  }

  lemma PassFeeds<S(!new)>(t: Test<S>, q: Pass)
    requires ValidTest(t) && ValidPass(t, q)
    ensures Feeds(t, Outputs(t, q), RecordOf(t, q), RecordOf(t, NextPass(t, q)))
  {
    PassesSplice(t.mode, q.iv, Outputs(t, q));
  }

  /** The key, the IV and the text of the next entry follow from all outputs of the replayed one. */
  lemma ResponseFeeds<S(!new)>(t: Test<S>, p: Pass, m: nat, i: nat)
    requires ValidTest(t) && ValidPass(t, p) && i + 1 < m
    ensures var (a, b) := (Records(t, p, m)[i], Records(t, p, m)[i + 1]);
      && ValidPass(t, PassOf(t.mode, a, p.iv)) && |b.key| == t.keyLen / 8
      && |b.input| == Unit(t.mode) && (!t.mode.ECB? ==> |b.iv| == 16)
      && Feeds(t, Outputs(t, PassOf(t.mode, a, p.iv)), a, b)
  {
    EntryAt(t, p, m, i);
    EntryAt(t, p, m, i + 1);
    if t.mode.ECB? {
      EcbKeepsIv(t, p, i);
    }
    assert PassOf(t.mode, Records(t, p, m)[i], p.iv) == PassAt(t, p, i);
    PassFeeds(t, PassAt(t, p, i));
  }

  /** Exchanging the key twice with the same slice gives it back: no key is lost on the way. */
  lemma KeyRecovered<S(!new)>(t: Test<S>, p: Pass, m: nat)
    requires ValidTest(t) && ValidPass(t, p)
    ensures Xor(PassAt(t, p, m).key, SliceSum(t, p, m)) == p.key
  {
    KeyAccumulates(t, p, m);
    XorTwice(p.key, SliceSum(t, p, m));
  }
}
