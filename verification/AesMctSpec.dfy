/** The Monte Carlo Test recurrence of the NIST AESAVS, section 6.4, as a function of the test case alone. */
module AesMctSpec {
  import opened Bits

  datatype Mode = ECB | CBC | OFB | CFB128 | CFB8 | CFB1

  /** Bytes in one text unit; the single byte of CFB1 carries its bit on top. */
  function Unit(m: Mode): nat {
    if m.CFB8? || m.CFB1? then 1 else 16
  }

  /** How many units of feedback separate an output from the input it becomes. */
  function Window(m: Mode): nat {
    match m
    case ECB => 0
    case CBC | OFB | CFB128 => 1
    case CFB8 => 16
    case CFB1 => 128
  }

  /** The crypto module under test: `init` on the first call of a pass, `step` on every call. */
  datatype Crypto<!S> = Crypto(init: (Bytes, Bytes) -> S,
                               step: (S, Bytes) -> (S, Bytes),
                               refuses: (S, Bytes) -> bool)

  datatype Test<!S> = Test(mode: Mode, keyLen: nat, inner: nat, crypto: Crypto<S>)

  ghost predicate ValidTest<S(!new)>(t: Test<S>) {
    && t.keyLen in {128, 192, 256}
    && t.inner >= 257
    && forall s: S, x: Bytes :: |t.crypto.step(s, x).1| == Unit(t.mode)
  }

  /** Key, IV and first text with which one outer pass starts. */
  datatype Pass = Pass(key: Bytes, iv: Bytes, first: Bytes)

  ghost predicate ValidPass<S>(t: Test<S>, p: Pass) {
    |p.key| == t.keyLen / 8 && |p.iv| == 16 && |p.first| == Unit(t.mode)
  }

  /** The byte holding bit `v` on top. */
  function TopBit(v: bool): Byte {
    if v then 0x80 else 0
  }

  /** What the crypto module reads of a text buffer: under CFB1 only its first bit. */
  function Seen(m: Mode, x: Bytes): Bytes
    requires |x| == Unit(m)
  {
    if m.CFB1? then [x[0] & 0x80] else x
  }

  ghost predicate Units(m: Mode, outs: seq<Bytes>) {
    forall k :: 0 <= k < |outs| ==> |outs[k]| == Unit(m)
  }

  /** The text fed to step j+1 after outputs 0..j, mode by mode as AESAVS 6.4 writes it. */
  function NextInput(m: Mode, iv: Bytes, outs: seq<Bytes>): (r: Bytes)
    requires |iv| == 16 && outs != [] && Units(m, outs)
    ensures |r| == Unit(m)
  {
    var j := |outs| - 1;
    match m
    case ECB => outs[j]
    case CBC | OFB | CFB128 => if j == 0 then iv else outs[j - 1]
    case CFB8 => if j < 16 then [iv[j]] else outs[j - 16]
    case CFB1 => [TopBit(if j < 128 then GetBit(iv, j) else GetBit(outs[j - 128], 0))]
  }

  function Input<S>(t: Test<S>, p: Pass, outs: seq<Bytes>): (r: Bytes)
    requires ValidPass(t, p) && Units(t.mode, outs)
    ensures |r| == Unit(t.mode)
  {
    if outs == [] then Seen(t.mode, p.first) else NextInput(t.mode, p.iv, outs)
  }

  /** Chaining state and outputs after `n` steps of a pass. */
  function Run<S(!new)>(t: Test<S>, p: Pass, n: nat): (r: (S, seq<Bytes>))
    requires ValidTest(t) && ValidPass(t, p)
    ensures |r.1| == n && Units(t.mode, r.1)
  {
    if n == 0 then
      (t.crypto.init(p.key, p.iv), [])
    else
      var (s, outs) := Run(t, p, n - 1);
      var (s', out) := t.crypto.step(s, Input(t, p, outs));
      (s', outs + [out])
  }

  function Outputs<S(!new)>(t: Test<S>, p: Pass): (r: seq<Bytes>)
    requires ValidTest(t) && ValidPass(t, p)
    ensures |r| == t.inner && Units(t.mode, r)
  {
    Run(t, p, t.inner).1
  }

  /** The crypto module accepts the first `n` steps of a pass. */
  ghost predicate Accepts<S(!new)>(t: Test<S>, p: Pass, n: nat)
    requires ValidTest(t) && ValidPass(t, p)
  {
    n == 0 || (Accepts(t, p, n - 1) && AcceptsStep(t, p, n - 1))
  }

  ghost predicate AcceptsStep<S(!new)>(t: Test<S>, p: Pass, j: nat)
    requires ValidTest(t) && ValidPass(t, p)
  {
    var (s, outs) := Run(t, p, j);
    !t.crypto.refuses(s, Input(t, p, outs))
  }

  /** A refused step ends every longer run of its pass. */
  lemma {:induction false} RefusedStep<S(!new)>(t: Test<S>, p: Pass, k: nat, n: nat)
    requires ValidTest(t) && ValidPass(t, p) && k < n && !AcceptsStep(t, p, k)
    ensures !Accepts(t, p, n)
  {
    if k + 1 < n {
      RefusedStep(t, p, k, n - 1);
    }
  }

  /** Bit 0 of each of the last `w` units. */
  function LastBits(outs: seq<Bytes>, w: nat): (r: seq<bool>)
    requires w <= |outs| && forall k :: 0 <= k < |outs| ==> |outs[k]| == 1
    ensures |r| == w
  {
    seq(w, k requires 0 <= k < w => GetBit(outs[|outs| - w + k], 0))
  }

  /** Byte 0 of each of the last `w` units. */
  function LastBytes(outs: seq<Bytes>, w: nat): (r: Bytes)
    requires w <= |outs| && forall k :: 0 <= k < |outs| ==> |outs[k]| == 1
    ensures |r| == w
  {
    seq(w, k requires 0 <= k < w => outs[|outs| - w + k][0])
  }

  /** What the key is exchanged with at the end of a pass. */
  function KeySlice(m: Mode, keyLen: nat, outs: seq<Bytes>): (r: Bytes)
    requires keyLen in {128, 192, 256} && |outs| >= 257 && Units(m, outs)
    ensures |r| == keyLen / 8
  {
    var n := |outs|;
    if m.CFB8? then LastBytes(outs, keyLen / 8)
    else if m.CFB1? then PackBits(LastBits(outs, keyLen))
    else BlockSlice(keyLen, outs[n - 2], outs[n - 1])
  }

  /** The end of the last two blocks. */
  function BlockSlice(keyLen: nat, a: Bytes, b: Bytes): (r: Bytes)
    requires keyLen in {128, 192, 256} && |a| == |b| == 16
    ensures |r| == keyLen / 8
  {
    if keyLen == 128 then b else if keyLen == 192 then a[8..] + b else a + b
  }

  function NextIv(m: Mode, iv: Bytes, outs: seq<Bytes>): (r: Bytes)
    requires |iv| == 16 && |outs| >= 257 && Units(m, outs)
    ensures |r| == 16
  {
    match m
    case ECB => iv
    case CBC | OFB | CFB128 => outs[|outs| - 1]
    case CFB8 => LastBytes(outs, 16)
    case CFB1 => PackBits(LastBits(outs, 128))
  }

  function NextFirst(m: Mode, outs: seq<Bytes>): (r: Bytes)
    requires |outs| >= 257 && Units(m, outs)
    ensures |r| == Unit(m)
  {
    match m
    case ECB => outs[|outs| - 1]
    case CBC | OFB | CFB128 => outs[|outs| - 2]
    case CFB8 => outs[|outs| - 17]
    case CFB1 => [outs[|outs| - 129][0] & 0x80]
  }

  function NextPass<S(!new)>(t: Test<S>, p: Pass): (r: Pass)
    requires ValidTest(t) && ValidPass(t, p)
    ensures ValidPass(t, r)
  {
    var outs := Outputs(t, p);
    Pass(Xor(p.key, KeySlice(t.mode, t.keyLen, outs)), NextIv(t.mode, p.iv, outs), NextFirst(t.mode, outs))
  }

  function PassAt<S(!new)>(t: Test<S>, p: Pass, i: nat): (r: Pass)
    requires ValidTest(t) && ValidPass(t, p)
    ensures ValidPass(t, r)
  {
    if i == 0 then p else NextPass(t, PassAt(t, p, i - 1))
  }

  /** One entry of the response: the IV is left out for ECB. */
  datatype Record = Record(key: Bytes, iv: Bytes, input: Bytes, output: Bytes)

  function RecordOf<S(!new)>(t: Test<S>, p: Pass): Record
    requires ValidTest(t) && ValidPass(t, p)
  {
    Record(p.key, if t.mode.ECB? then [] else p.iv, p.first, Outputs(t, p)[t.inner - 1])
  }

  function Records<S(!new)>(t: Test<S>, p: Pass, m: nat): (r: seq<Record>)
    requires ValidTest(t) && ValidPass(t, p)
    ensures |r| == m
  {
    if m == 0 then [] else Records(t, p, m - 1) + [RecordOf(t, PassAt(t, p, m - 1))]
  }

  /** How many of the first `m` passes run before the crypto module refuses a step. */
  ghost function AcceptedPasses<S(!new)>(t: Test<S>, p: Pass, m: nat): (r: nat)
    requires ValidTest(t) && ValidPass(t, p)
    ensures r <= m
    ensures forall k: nat {:trigger PassAt(t, p, k)} :: k < r ==> Accepts(t, PassAt(t, p, k), t.inner)
    ensures r < m ==> !Accepts(t, PassAt(t, p, r), t.inner)
  {
    if m == 0 then 0 else
      var r := AcceptedPasses(t, p, m - 1);
      if r == m - 1 && Accepts(t, PassAt(t, p, r), t.inner) then m else r
  }

  /** A refused pass stops every longer run. */
  lemma {:induction false} RefusalIsFinal<S(!new)>(t: Test<S>, p: Pass, k: nat, m: nat)
    requires ValidTest(t) && ValidPass(t, p) && k < m
    requires AcceptedPasses(t, p, k + 1) == k
    ensures AcceptedPasses(t, p, m) == k
  {
    if k + 1 < m {
      RefusalIsFinal(t, p, k, m - 1);
    }
  }

  // ---- the feedback stream -------------------------------------------------

  /** The IV cut into the units that the feedback window starts with. */
  function IvUnits(m: Mode, iv: Bytes): (r: seq<Bytes>)
    requires |iv| == 16
    ensures |r| == Window(m) && Units(m, r)
  {
    match m
    case ECB => []
    case CBC | OFB | CFB128 => [iv]
    case CFB8 => seq(16, k requires 0 <= k < 16 => [iv[k]])
    case CFB1 => seq(128, k requires 0 <= k < 128 => [TopBit(GetBit(iv, k))])
  }

  function SeenAll(m: Mode, outs: seq<Bytes>): (r: seq<Bytes>)
    requires Units(m, outs)
    ensures |r| == |outs| && Units(m, r)
    ensures forall k :: 0 <= k < |outs| ==> r[k] == Seen(m, outs[k])
  {
    seq(|outs|, k requires 0 <= k < |outs| => Seen(m, outs[k]))
  }

  /** In every mode, step j+1 reads unit j of the IV's units followed by the outputs. */
  lemma FeedbackStream(m: Mode, iv: Bytes, outs: seq<Bytes>)
    requires |iv| == 16 && outs != [] && Units(m, outs)
    ensures NextInput(m, iv, outs) == (IvUnits(m, iv) + SeenAll(m, outs))[|outs| - 1]
  {
    if m.CFB1? && |outs| > 128 {
      TopBitOnly(outs[|outs| - 129][0]);
    }
  }

  /**
   * Passes splice without a seam: the first text of the next pass is what a further step of
   * this pass would have read, and together with the next IV it is the last Window+1 units of
   * this pass's feedback stream, in order.
   */
  lemma PassesSplice(m: Mode, iv: Bytes, outs: seq<Bytes>)
    requires |iv| == 16 && |outs| >= 257 && Units(m, outs)
    ensures Seen(m, NextFirst(m, outs)) == NextInput(m, iv, outs)
    ensures !m.ECB? ==>
      [Seen(m, NextFirst(m, outs))] + IvUnits(m, NextIv(m, iv, outs)) == SeenAll(m, outs)[|outs| - Window(m) - 1..]
  {
    var n := |outs|;
    match m
    case ECB =>
    case CBC | OFB | CFB128 =>
      assert SeenAll(m, outs)[n - 2..] == [outs[n - 2], outs[n - 1]];
    case CFB8 =>
      PassesSpliceBytes(outs, iv);
    case CFB1 =>
      PassesSpliceBits(outs, iv);
  }

  lemma PassesSpliceBytes(outs: seq<Bytes>, iv: Bytes)
    requires |iv| == 16 && |outs| >= 257 && Units(CFB8, outs)
    ensures Seen(CFB8, NextFirst(CFB8, outs)) == NextInput(CFB8, iv, outs)
    ensures [NextFirst(CFB8, outs)] + IvUnits(CFB8, NextIv(CFB8, iv, outs)) == SeenAll(CFB8, outs)[|outs| - 17..]
  {
    var n := |outs|;
    forall k | 0 <= k < 16
      ensures IvUnits(CFB8, NextIv(CFB8, iv, outs))[k] == outs[n - 16 + k]
    {
      assert |outs[n - 16 + k]| == 1;
    }
  }

  lemma PassesSpliceBits(outs: seq<Bytes>, iv: Bytes)
    requires |iv| == 16 && |outs| >= 257 && Units(CFB1, outs)
    ensures Seen(CFB1, NextFirst(CFB1, outs)) == NextInput(CFB1, iv, outs)
    ensures [Seen(CFB1, NextFirst(CFB1, outs))] + IvUnits(CFB1, NextIv(CFB1, iv, outs))
         == SeenAll(CFB1, outs)[|outs| - 129..]
  {
    var n := |outs|;
    TopBitOnly(outs[n - 129][0]);
    TopBitOnly(outs[n - 129][0] & 0x80);
    var next := IvUnits(CFB1, NextIv(CFB1, iv, outs));
    forall k | 0 <= k < 128
      ensures next[k] == Seen(CFB1, outs[n - 128 + k])
    {
      BitCarried(outs, k);
    }
  }

  /** Unit `k` of the next IV is what is seen of one of the last outputs. */
  lemma BitCarried(outs: seq<Bytes>, k: nat)
    requires k < 128 <= |outs| && Units(CFB1, outs)
    ensures [TopBit(GetBit(PackBits(LastBits(outs, 128)), k))] == Seen(CFB1, outs[|outs| - 128 + k])
  {
    var bits := LastBits(outs, 128);
    PackBitsBit(bits, k);
    var out := outs[|outs| - 128 + k];
    assert bits[k] == GetBit(out, 0) == TestBit(out[0], 0);
    TopBitOnly(out[0]);
  }

  // ---- the key schedule ----------------------------------------------------

  function Flatten(outs: seq<Bytes>): Bytes {
    if outs == [] then [] else Flatten(outs[..|outs| - 1]) + outs[|outs| - 1]
  }

  lemma {:induction false} FlattenSingles(outs: seq<Bytes>)
    requires forall k :: 0 <= k < |outs| ==> |outs[k]| == 1
    ensures |Flatten(outs)| == |outs|
    ensures forall k :: 0 <= k < |outs| ==> Flatten(outs)[k] == outs[k][0]
  {
    if outs != [] {
      FlattenSingles(outs[..|outs| - 1]);
    }
  }

  /** In the byte modes the key slice is the last keyLen bits of all output of the pass, run together. */
  lemma KeySliceIsSuffix(m: Mode, keyLen: nat, outs: seq<Bytes>)
    requires !m.CFB1? && keyLen in {128, 192, 256} && |outs| >= 257 && Units(m, outs)
    ensures |Flatten(outs)| >= keyLen / 8
    ensures KeySlice(m, keyLen, outs) == Flatten(outs)[|Flatten(outs)| - keyLen / 8..]
  {
    if m.CFB8? {
      FlattenSingles(outs);
    } else {
      var n := |outs|;
      assert outs[..n - 1][..n - 2] == outs[..n - 2];
      assert Flatten(outs) == Flatten(outs[..n - 2]) + outs[n - 2] + outs[n - 1];
    }
  }

  function Zeros(n: nat): (r: Bytes)
    ensures |r| == n
  {
    seq(n, i requires 0 <= i < n => 0)
  }

  /** The exclusive or of the key slices of the first `m` passes. */
  function SliceSum<S(!new)>(t: Test<S>, p: Pass, m: nat): (r: Bytes)
    requires ValidTest(t) && ValidPass(t, p)
    ensures |r| == t.keyLen / 8
  {
    if m == 0 then Zeros(t.keyLen / 8)
    else Xor(SliceSum(t, p, m - 1), KeySlice(t.mode, t.keyLen, Outputs(t, PassAt(t, p, m - 1))))
  }

  /** Over any number of passes the key is the first key exchanged with every pass's slice. */
  lemma {:induction false} KeyAccumulates<S(!new)>(t: Test<S>, p: Pass, m: nat)
    requires ValidTest(t) && ValidPass(t, p)
    ensures PassAt(t, p, m).key == Xor(p.key, SliceSum(t, p, m))
  {
    if m == 0 {
      assert forall i :: 0 <= i < |p.key| ==> p.key[i] ^ 0 == p.key[i];
    } else {
      KeyAccumulates(t, p, m - 1);
      XorAssociative(p.key, SliceSum(t, p, m - 1), KeySlice(t.mode, t.keyLen, Outputs(t, PassAt(t, p, m - 1))));
    }
  }

  // ---- unrolling -----------------------------------------------------------

  /** Earlier steps are not rewritten by later ones. */
  lemma {:induction false} RunExtends<S(!new)>(t: Test<S>, p: Pass, k: nat, n: nat)
    requires ValidTest(t) && ValidPass(t, p) && k <= n
    ensures Run(t, p, n).1[..k] == Run(t, p, k).1
  {
    if k < n {
      RunExtends(t, p, k, n - 1);
      assert Run(t, p, n).1[..n - 1] == Run(t, p, n - 1).1;
    }
  }
}
