/**
 * The Monte Carlo engine of src/amvp_aes.c over its static row tables, proved against the
 * recurrence in AesMctSpec. The source writes every step once for each direction; here `In`
 * and `Out` name the plaintext and ciphertext side according to the direction.
 */
module AesMct {
  import opened Bits
  import opened AesMctSpec

  const KEY_BYTE_MAX := 64
  const IV_BYTE_MAX := 128
  const TEXT_BYTE_MAX := 16384
  const KEY_ROW_LEN := 32
  const IV_ROW_LEN := 16
  const TEXT_ROW_LEN := 32

  datatype Outcome = Success | CryptoModuleFail

  /** `dst` after memcpy of `src` to its front. */
  function Overlay(dst: Bytes, src: Bytes): (r: Bytes)
    requires |src| <= |dst|
    ensures |r| == |dst| && r[..|src|] == src
  {
    src + dst[|src|..]
  }

  method Copy(dst: array<Byte>, src: Bytes)
    requires |src| <= dst.Length
    modifies dst
    ensures dst[..] == Overlay(old(dst[..]), src)
  {
    forall k | 0 <= k < |src| {
      dst[k] := src[k];
    }
  }

  lemma FrontIs(a: Bytes, front: Bytes)
    requires |front| <= |a| && a[..|front|] == front
    ensures forall k :: 0 <= k < |front| ==> a[k] == front[k]
  {
  }

  ghost predicate Rows(a: array<Bytes>, len: nat)
    reads a
  {
    forall k :: 0 <= k < a.Length ==> |a[k]| == len
  }

  class MctEngine<S(!new)> {
    const t: Test<S>
    const encrypt: bool
    const outer: nat

    // the buffers of the test case
    const key: array<Byte>
    const iv: array<Byte>
    const pt: array<Byte>
    const ct: array<Byte>

    // the static tables, shared by all test cases
    const mkey: array<Bytes>
    const miv: array<Bytes>
    const ptext: array<Bytes>
    const ctext: array<Bytes>

    var mctIndex: nat
    var chain: S                // held by the crypto module
    var results: seq<Record>    // the response array

    /** A test case over tables that may hold anything. */
    constructor (t: Test<S>, encrypt: bool, outer: nat,
                 key: array<Byte>, iv: array<Byte>, pt: array<Byte>, ct: array<Byte>,
                 mkey: array<Bytes>, miv: array<Bytes>, ptext: array<Bytes>, ctext: array<Bytes>, chain: S)
      ensures this.t == t && this.encrypt == encrypt && this.outer == outer
      ensures this.key == key && this.iv == iv && this.pt == pt && this.ct == ct
      ensures this.mkey == mkey && this.miv == miv && this.ptext == ptext && this.ctext == ctext
      ensures results == []
    {
      this.t, this.encrypt, this.outer := t, encrypt, outer;
      this.key, this.iv, this.pt, this.ct := key, iv, pt, ct;
      this.mkey, this.miv, this.ptext, this.ctext := mkey, miv, ptext, ctext;
      this.mctIndex, this.chain, this.results := 0, chain, [];
    }

    function In(): array<Byte> { if encrypt then pt else ct }
    function Out(): array<Byte> { if encrypt then ct else pt }
    function InRows(): array<Bytes> { if encrypt then ptext else ctext }
    function OutRows(): array<Bytes> { if encrypt then ctext else ptext }
    function KeyBytes(): nat { t.keyLen / 8 }
    function U(): nat { Unit(t.mode) }

    /** A buffer is none of the tables. */
    ghost predicate Apart(buffer: array<Byte>) {
      var b: object := buffer;
      b != mkey && b != miv && b != ptext && b != ctext
    }

    ghost predicate Shape() {
      && ValidTest(t)
      && key != iv && key != pt && key != ct && iv != pt && iv != ct && pt != ct
      && mkey != miv && mkey != ptext && mkey != ctext && miv != ptext && miv != ctext && ptext != ctext
      && Apart(key) && Apart(iv) && Apart(pt) && Apart(ct)
      && key.Length == KEY_BYTE_MAX && iv.Length == IV_BYTE_MAX
      && pt.Length == TEXT_BYTE_MAX && ct.Length == TEXT_BYTE_MAX
      && mkey.Length == outer + 1 && miv.Length == outer + 1
      && ptext.Length == t.inner + 1 && ctext.Length == t.inner + 1
    }

    ghost predicate Valid()
      reads mkey, miv, ptext, ctext
    {
      && Shape()
      && Rows(mkey, KEY_ROW_LEN) && Rows(miv, IV_ROW_LEN)
      && Rows(ptext, TEXT_ROW_LEN) && Rows(ctext, TEXT_ROW_LEN)
    }

    /** The pass that the buffers are about to start. */
    ghost function Current(): (p: Pass)
      requires Shape()
      reads key, iv, In()
      ensures ValidPass(t, p)
    {
      Pass(key[..KeyBytes()], iv[..16], In()[..U()])
    }

    /** The first `n` outputs of pass `p` are in the output rows. */
    ghost predicate RowsHold(p: Pass, n: nat)
      requires Shape() && ValidPass(t, p) && n <= t.inner
      reads OutRows()
    {
      forall k :: 0 <= k < n ==> |OutRows()[k]| == TEXT_ROW_LEN && OutRows()[k][..U()] == Run(t, p, n).1[k]
    }

    /** What holds of everything but the IV and the input after `n` outputs of pass `p`, the i-th. */
    ghost predicate Progress(p: Pass, i: nat, n: nat)
      requires Shape() && ValidPass(t, p) && i < outer && n <= t.inner
      reads this`chain, key, Out(), mkey, miv, ptext, ctext
    {
      && Valid()
      && RowsHold(p, n)
      && (n > 0 ==> chain == Run(t, p, n).0 && Out()[..U()] == Run(t, p, n).1[n - 1]
                    && mkey[0][..KeyBytes()] == p.key)
      && key[..KeyBytes()] == p.key
      && (t.mode.CFB1? ==> miv[i] == p.iv)
    }

    /** The IV buffer after `j` steps of pass `p`. */
    ghost function IvAfter(p: Pass, j: nat): Bytes
      requires Shape() && ValidPass(t, p)
    {
      if t.mode in {CBC, OFB, CFB128} && j >= 2 then Run(t, p, j).1[j - 1] else p.iv
    }

    /** The state of the engine after `j` full steps of pass `p`, the i-th. */
    ghost predicate Stepped(p: Pass, i: nat, j: nat)
      requires Shape() && ValidPass(t, p) && i < outer && j <= t.inner
      reads this`chain, key, iv, pt, ct, mkey, miv, ptext, ctext
    {
      && Progress(p, i, j)
      && iv[..16] == IvAfter(p, j)
      && Seen(t.mode, In()[..U()]) == Input(t, p, Run(t, p, j).1)
    }

    /** The crypto callback: initialise at index 0, continue otherwise. */
    method CallHandler(ghost p: Pass, i: nat) returns (ok: bool)
      requires Shape() && ValidPass(t, p) && i < outer && mctIndex < t.inner
      requires Stepped(p, i, mctIndex)
      modifies this`chain, Out()
      ensures ok == AcceptsStep(t, p, mctIndex)
      ensures ok ==> chain == Run(t, p, mctIndex + 1).0 && Out()[..U()] == Run(t, p, mctIndex + 1).1[mctIndex]
    {
      if mctIndex == 0 {
        chain := t.crypto.init(key[..KeyBytes()], iv[..16]);
      }
      var input := Seen(t.mode, In()[..U()]);
      if t.crypto.refuses(chain, input) {
        return false;
      }
      var (s, out) := t.crypto.step(chain, input);
      chain := s;
      Copy(Out(), out);
      assert Out()[..U()] == Out()[..][..U()] == out;
      return true;
    }

    /** First part of amvp_aes_mct_iterate_tc: file the texts of this step in their rows. */
    method FileTexts(ghost p: Pass)
      requires Shape() && ValidPass(t, p) && mctIndex < t.inner
      requires Valid() && RowsHold(p, mctIndex) && Out()[..U()] == Run(t, p, mctIndex + 1).1[mctIndex]
      modifies InRows(), OutRows()
      ensures Valid() && RowsHold(p, mctIndex + 1)
    {
      var j := mctIndex;
      if !t.mode.CFB1? {
        OutRows()[j] := Overlay(OutRows()[j], Out()[..U()]);
        InRows()[j] := Overlay(InRows()[j], In()[..U()]);
      } else {
        OutRows()[j] := OutRows()[j][0 := Out()[0]];
        InRows()[j] := InRows()[j][0 := In()[0]];
      }
    }

    /** Second part: step 0 of every pass saves the key of that pass in row 0. */
    method SaveKey(ghost p: Pass)
      requires Valid() && ValidPass(t, p)
      requires key[..KeyBytes()] == p.key && (mctIndex > 0 ==> mkey[0][..KeyBytes()] == p.key)
      modifies mkey
      ensures Valid() && mkey[0][..KeyBytes()] == p.key
    {
      if mctIndex == 0 {
        mkey[0] := Overlay(mkey[0], key[..KeyBytes()]);
      }
    }

    /** Third part for ECB, CBC, OFB and CFB128. */
    method StageBlock(ghost p: Pass, i: nat)
      requires Shape() && ValidPass(t, p) && i < outer && mctIndex < t.inner
      requires t.mode in {ECB, CBC, OFB, CFB128}
      requires Progress(p, i, mctIndex + 1) && iv[..16] == IvAfter(p, mctIndex)
      modifies In(), iv
      ensures Stepped(p, i, mctIndex + 1)
    {
      var j := mctIndex;
      if t.mode.ECB? {
        Copy(In(), OutRows()[j][..16]);
      } else if j == 0 {
        Copy(In(), iv[..16]);
      } else {
        Copy(In(), OutRows()[j - 1][..16]);
        Copy(iv, OutRows()[j][..16]);
      }
    }

    /** Third part for CFB8: sixteen bytes are copied, of which the crypto module reads one. */
    method StageCfb8(ghost p: Pass, i: nat)
      requires Shape() && ValidPass(t, p) && i < outer && mctIndex < t.inner
      requires t.mode.CFB8?
      requires Progress(p, i, mctIndex + 1) && iv[..16] == IvAfter(p, mctIndex)
      modifies In()
      ensures Stepped(p, i, mctIndex + 1)
    {
      var j := mctIndex;
      if j < 16 {
        assert iv[j] == iv[..16][j];
        Copy(In(), iv[j..j + 16]);
      } else {
        Copy(In(), OutRows()[j - 16][..1]);
      }
    }

    /** Third part for CFB1: the bit goes through the next input row, whose other bits are stale. */
    method StageCfb1(ghost p: Pass, i: nat)
      requires Shape() && ValidPass(t, p) && i < outer && mctIndex < t.inner
      requires t.mode.CFB1?
      requires Progress(p, i, mctIndex + 1) && iv[..16] == IvAfter(p, mctIndex)
      modifies In(), InRows()
      ensures Stepped(p, i, mctIndex + 1)
    {
      var j := mctIndex;
      var bit := if j < 128 then GetBit(miv[i], j) else GetBit(OutRows()[j - 128], 0);
      assert j >= 128 ==> bit == GetBit(OutRows()[j - 128][..1], 0);
      InRows()[j + 1] := SetBit(InRows()[j + 1], 0, bit);
      In()[0] := InRows()[j + 1][0];
      GetAfterSet(old(InRows()[j + 1]), 0, bit, 0);
      TopBitOnly(In()[0]);
    }

    /** amvp_aes_mct_iterate_tc after a successful callback. */
    method Iterate(ghost p: Pass, i: nat)
      requires Shape() && ValidPass(t, p) && i < outer && mctIndex < t.inner
      requires Valid() && RowsHold(p, mctIndex) && (mctIndex > 0 ==> mkey[0][..KeyBytes()] == p.key)
      requires key[..KeyBytes()] == p.key && (t.mode.CFB1? ==> miv[i] == p.iv)
      requires chain == Run(t, p, mctIndex + 1).0 && Out()[..U()] == Run(t, p, mctIndex + 1).1[mctIndex]
      requires iv[..16] == IvAfter(p, mctIndex)
      modifies InRows(), OutRows(), mkey, In(), iv
      ensures Stepped(p, i, mctIndex + 1)
    {
      FileTexts(p);
      SaveKey(p);
      match t.mode {
        case ECB | CBC | OFB | CFB128 => StageBlock(p, i);
        case CFB8 => StageCfb8(p, i);
        case CFB1 => StageCfb1(p, i);
      }
    }

    /** Collect the key slice of a finished pass into the local buffer. */
    method SliceKey(ghost p: Pass, slice: array<Byte>)
      requires Shape() && ValidPass(t, p) && RowsHold(p, t.inner) && slice.Length >= 32
      requires slice as object != OutRows()
      modifies slice
      ensures slice[..KeyBytes()] == KeySlice(t.mode, t.keyLen, Outputs(t, p))
    {
      ghost var outs := Outputs(t, p);
      var j := t.inner - 1;
      if t.mode.CFB8? {
        for n := 0 to KeyBytes()
          invariant forall k :: 0 <= k < n ==> slice[k] == LastBytes(outs, KeyBytes())[k]
        {
          slice[n] := OutRows()[j - (KeyBytes() - 1 - n)][0];
          assert slice[n] == OutRows()[j - (KeyBytes() - 1 - n)][..1][0];
        }
      } else if t.mode.CFB1? {
        SliceKeyBits(p, slice);
      } else if t.keyLen == 128 {
        Copy(slice, OutRows()[j][..16]);
      } else if t.keyLen == 192 {
        assert OutRows()[j - 1][8..16] == OutRows()[j - 1][..16][8..];
        Copy(slice, OutRows()[j - 1][8..16] + OutRows()[j][..16]);
      } else {
        Copy(slice, OutRows()[j - 1][..16] + OutRows()[j][..16]);
      }
    }

    /** The CFB1 case: one bit of the slice from each of the last keyLen output rows. */
    method SliceKeyBits(ghost p: Pass, slice: array<Byte>)
      requires Shape() && ValidPass(t, p) && RowsHold(p, t.inner) && slice.Length >= 32
      requires slice as object != OutRows() && t.mode.CFB1?
      modifies slice
      ensures slice[..KeyBytes()] == PackBits(LastBits(Outputs(t, p), t.keyLen))
    {
      ghost var bits := LastBits(Outputs(t, p), t.keyLen);
      var j := t.inner - 1;
      for n := 0 to t.keyLen
        invariant Holds(slice[..], bits, n)
      {
        var row := OutRows()[j - (t.keyLen - 1 - n)];
        var bit := GetBit(row, 0);
        assert row[..1] == Outputs(t, p)[t.inner - t.keyLen + n];
        assert bit == GetBit(row[..1], 0) == bits[n];
        ghost var before := slice[..];
        slice[n / 8] := PutBit(slice[n / 8], n % 8, bit);
        assert slice[..] == SetBit(before, n, bits[n]);
        HoldsNext(before, bits, n);
      }
      HoldsAll(slice[..], bits, KeyBytes());
      assert slice[..][..KeyBytes()] == slice[..KeyBytes()];
    }

    /** The CFB8 case of the IV for the next pass. */
    method CarryIvBytes(ghost p: Pass)
      requires Valid() && ValidPass(t, p) && RowsHold(p, t.inner) && t.mode.CFB8?
      modifies iv, InRows()
      ensures Valid() && iv[..16] == LastBytes(Outputs(t, p), 16)
    {
      var j := t.inner - 1;
      for n := 0 to 16
        invariant forall k :: 0 <= k < n ==> iv[k] == LastBytes(Outputs(t, p), 16)[k]
        modifies iv
      {
        iv[n] := OutRows()[j - (15 - n)][0];
        assert iv[n] == OutRows()[j - (15 - n)][..1][0];
      }
      InRows()[0] := InRows()[0][0 := OutRows()[j - 16][0]];
    }

    /** The CFB1 case: the next IV is assembled bit by bit in its own row, then copied. */
    method CarryIvBits(ghost p: Pass, i: nat)
      requires Valid() && ValidPass(t, p) && RowsHold(p, t.inner) && t.mode.CFB1? && i < outer
      modifies iv, miv
      ensures Valid() && iv[..16] == miv[i + 1] == PackBits(LastBits(Outputs(t, p), 128))
    {
      ghost var bits := LastBits(Outputs(t, p), 128);
      var j := t.inner - 1;
      for n := 0 to 128
        invariant Valid() && RowsHold(p, t.inner) && Holds(miv[i + 1], bits, n)
      {
        var row := OutRows()[j - (127 - n)];
        var bit := GetBit(row, 0);
        assert row[..1] == Outputs(t, p)[t.inner - 128 + n];
        assert bit == GetBit(row[..1], 0) == bits[n];
        HoldsNext(miv[i + 1], bits, n);
        miv[i + 1] := SetBit(miv[i + 1], n, bit);
      }
      HoldsAll(miv[i + 1], bits, 16);
      assert miv[i + 1][..16] == miv[i + 1];
      Copy(iv, miv[i + 1]);
    }

    /** The CFB1 case of the first text of the next pass. */
    method CarryFirstBit(ghost p: Pass)
      requires Valid() && ValidPass(t, p) && RowsHold(p, t.inner) && t.mode.CFB1?
      modifies InRows(), In()
      ensures Valid() && In()[..1] == NextFirst(CFB1, Outputs(t, p))
    {
      var j := t.inner - 1;
      assert OutRows()[j - 128][..1][0] == OutRows()[j - 128][0];
      InRows()[0] := InRows()[0][0 := OutRows()[j - 128][0] & 0x80];
      In()[0] := InRows()[0][0];
    }

    /** The key of the next pass from the saved key of this one. */
    method ExchangeKey(ghost p: Pass, slice: array<Byte>)
      requires Valid() && ValidPass(t, p) && mkey[0][..KeyBytes()] == p.key
      requires slice.Length >= 32 && slice != key
      modifies key
      ensures key[..KeyBytes()] == Xor(p.key, slice[..KeyBytes()])
    {
      var saved, count := mkey[0], KeyBytes();
      FrontIs(saved, p.key);
      for n := 0 to count
        invariant forall k :: 0 <= k < n ==> key[k] == saved[k] ^ slice[k]
      {
        key[n] := saved[n] ^ slice[n];
      }
    }

    /** What amvp_aes_mct_tc does between the last step of one pass and the first of the next. */
    method FinishPass(ghost p: Pass, i: nat, slice: array<Byte>)
      requires Shape() && ValidPass(t, p) && i < outer && Stepped(p, i, t.inner)
      requires slice.Length >= 32 && Apart(slice) && slice !in {key, iv, pt, ct}
      modifies slice, iv, miv, InRows(), In(), key
      ensures Valid() && Current() == NextPass(t, p)
      ensures t.mode.CFB1? ==> miv[i + 1] == NextPass(t, p).iv
    {
      SliceKey(p, slice);
      if t.mode.CFB8? {
        CarryIvBytes(p);
      } else if t.mode.CFB1? {
        CarryIvBits(p, i);
        CarryFirstBit(p);
      }
      ExchangeKey(p, slice);
    }

    /** The buffers are set up for pass `p`, the i-th. */
    ghost predicate Ready(p: Pass, i: nat)
      requires i <= outer
      reads key, iv, pt, ct, mkey, miv, ptext, ctext
    {
      Valid() && ValidPass(t, p) && Current() == p && (t.mode.CFB1? ==> miv[i] == p.iv)
    }

    lemma PassStarts(p: Pass, i: nat)
      requires i < outer && Ready(p, i)
      ensures Stepped(p, i, 0)
    {
    }

    /** The body of the inner loop. */
    method OneStep(ghost p: Pass, i: nat, j: nat) returns (ok: bool)
      requires Shape() && ValidPass(t, p) && i < outer && j < t.inner && Stepped(p, i, j) && Accepts(t, p, j)
      modifies this`chain, this`mctIndex, key, iv, pt, ct, mkey, miv, ptext, ctext
      ensures Valid()
      ensures ok ==> Stepped(p, i, j + 1) && Accepts(t, p, j + 1)
      ensures !ok ==> !AcceptsStep(t, p, j) && !Accepts(t, p, t.inner)
    {
      mctIndex := j;
      ok := CallHandler(p, i);
      if ok {
        Iterate(p, i);
      } else {
        RefusedStep(t, p, j, t.inner);
      }
    }

    /** The inner loop; `false` when the crypto module refused a step. */
    method RunSteps(ghost p: Pass, i: nat) returns (ok: bool)
      requires Shape() && ValidPass(t, p) && i < outer && Stepped(p, i, 0)
      modifies this`chain, this`mctIndex, key, iv, pt, ct, mkey, miv, ptext, ctext
      ensures Valid() && ok == Accepts(t, p, t.inner)
      ensures ok ==> Stepped(p, i, t.inner)
    {
      for j := 0 to t.inner
        invariant Stepped(p, i, j) && Accepts(t, p, j)
      {
        ok := OneStep(p, i, j);
        if !ok {
          return;
        }
      }
      return true;
    }

    /** One outer pass. */
    method RunPass(ghost p: Pass, i: nat, slice: array<Byte>) returns (ok: bool)
      requires i < outer && Ready(p, i)
      requires slice.Length >= 32 && Apart(slice) && slice !in {key, iv, pt, ct}
      modifies this, slice, key, iv, pt, ct, mkey, miv, ptext, ctext
      ensures Valid() && ok == Accepts(t, p, t.inner)
      ensures results == if ok then old(results) + [RecordOf(t, p)] else old(results)
      ensures ok ==> Ready(NextPass(t, p), i + 1)
    {
      var entry := (key[..KeyBytes()], if t.mode.ECB? then [] else iv[..16], In()[..U()]);
      PassStarts(p, i);
      ok := RunSteps(p, i);
      if ok {
        results := results + [Record(entry.0, entry.1, entry.2, Out()[..U()])];
        FinishPass(p, i, slice);
      }
    }

    /** After `i` accepted passes from `p` on, with `base` the response array before them. */
    ghost predicate Passed(p: Pass, base: seq<Record>, i: nat)
      requires ValidTest(t) && ValidPass(t, p) && i <= outer
      reads this, key, iv, pt, ct, mkey, miv, ptext, ctext
    {
      && Ready(PassAt(t, p, i), i)
      && results == base + Records(t, p, i)
      && AcceptedPasses(t, p, i) == i
    }

    /** The body of the outer loop. */
    method OnePass(ghost p: Pass, ghost base: seq<Record>, i: nat, slice: array<Byte>) returns (ok: bool)
      requires ValidTest(t) && ValidPass(t, p) && i < outer && Passed(p, base, i)
      requires slice.Length >= 32 && Apart(slice) && slice !in {key, iv, pt, ct}
      modifies this, slice, key, iv, pt, ct, mkey, miv, ptext, ctext
      ensures Valid()
      ensures if ok then Passed(p, base, i + 1) else
        AcceptedPasses(t, p, outer) == i && results == base + Records(t, p, i)
    {
      ghost var q := PassAt(t, p, i);
      ok := RunPass(q, i, slice);
      if ok {
        assert PassAt(t, p, i + 1) == NextPass(t, q);
        assert base + Records(t, p, i) + [RecordOf(t, q)] == base + Records(t, p, i + 1);
      } else {
        RefusalIsFinal(t, p, i, outer);
      }
    }

    /** The outer loop of amvp_aes_mct_tc. */
    method RunPasses(ghost p: Pass, slice: array<Byte>) returns (rv: Outcome)
      requires Ready(p, 0)
      requires slice.Length >= 32 && Apart(slice) && slice !in {key, iv, pt, ct}
      modifies this, slice, key, iv, pt, ct, mkey, miv, ptext, ctext
      ensures Valid() && results == old(results) + Records(t, p, AcceptedPasses(t, p, outer))
      ensures rv == Success <==> AcceptedPasses(t, p, outer) == outer
      ensures rv == Success ==> Ready(PassAt(t, p, outer), outer)
    {
      ghost var base := results;
      for i := 0 to outer
        invariant Passed(p, base, i)
      {
        var ok := OnePass(p, base, i, slice);
        if !ok {
          return CryptoModuleFail;
        }
      }
      return Success;
    }

    /** amvp_aes_mct_tc, whatever the tables hold on entry. */
    method RunTest() returns (rv: Outcome)
      requires Valid()
      modifies this, key, iv, pt, ct, mkey, miv, ptext, ctext
      ensures Valid()
      ensures results == old(results) + Records(t, old(Current()), AcceptedPasses(t, old(Current()), outer))
      ensures rv == Success <==> AcceptedPasses(t, old(Current()), outer) == outer
      ensures rv == Success ==> Current() == PassAt(t, old(Current()), outer)
    {
      ghost var p := Current();
      var slice := new Byte[68](_ => 0);
      miv[0] := Overlay(miv[0], iv[..16]);
      rv := RunPasses(p, slice);
    }
  }

  /** Two runs of one test case agree, however the tables were left by earlier test cases. */
  method RunTwice<S(!new)>(first: MctEngine<S>, second: MctEngine<S>) returns (a: Outcome, b: Outcome)
    requires first.Valid() && second.Valid() && first.t == second.t && first.outer == second.outer
    requires first.Current() == second.Current() && first.results == second.results == []
    requires first != second
    requires {first.key, first.iv, first.pt, first.ct} !! {second.key, second.iv, second.pt, second.ct}
    requires first.mkey == second.mkey && first.miv == second.miv
    requires first.ptext == second.ptext && first.ctext == second.ctext
    modifies first, first.key, first.iv, first.pt, first.ct, second, second.key, second.iv, second.pt, second.ct
    modifies first.mkey, first.miv, first.ptext, first.ctext
    ensures a == b && first.results == second.results
  {
    a := first.RunTest();
    b := second.RunTest();
  }
}
