/** What a registration contains, and how the expected number of vector sets follows the calls. */
module RegistrationSpec {
  import opened Ciphers

  /** The part of an enabled capability that decides how often it is registered. */
  datatype Cap = Cap(cipher: Cipher, ivgen: IvgenSrc, component: Component)

  datatype Built<+J> = Object(json: J) | BuildFail(code: int)
  datatype Registration<+J> = Registered(objects: seq<J>) | RegistrationFail(code: int)

  /** The capabilities, one per object, that an enabled capability stands for. */
  function Pieces(c: Cap): (r: seq<Cap>)
    ensures 1 <= |r| <= 2
  {
    if SplitsOnIv(c.cipher) && c.ivgen.IvEither? then [c.(ivgen := IvInternal), c.(ivgen := IvExternal)]
    else if SplitsOnComponent(c.cipher) && c.component.ComponentBoth? then
      [c.(component := ComponentNo), c.(component := ComponentYes)]
    else [c]
  }

  predicate IsSplit(c: Cap) {
    |Pieces(c)| == 2
  }

  function AllPieces(caps: seq<Cap>): seq<Cap> {
    if caps == [] then [] else AllPieces(caps[..|caps| - 1]) + Pieces(caps[|caps| - 1])
  }

  /** Building the pieces one after the other, up to the first failure. */
  function Compile<J>(pieces: seq<Cap>, build: Cap -> Built<J>): Registration<J> {
    if pieces == [] then Registered([])
    else
      match Compile(pieces[..|pieces| - 1], build)
      case RegistrationFail(code) => RegistrationFail(code)
      case Registered(objects) =>
        match build(pieces[|pieces| - 1])
        case BuildFail(code) => RegistrationFail(code)
        case Object(json) => Registered(objects + [json])
  }

  /** A successful registration holds the object of every piece, in order; a failure is that of the first bad one. */
  lemma {:induction false} CompileMeaning<J>(pieces: seq<Cap>, build: Cap -> Built<J>)
    ensures match Compile(pieces, build)
      case Registered(objects) =>
        |objects| == |pieces| && forall k :: 0 <= k < |pieces| ==> build(pieces[k]) == Object(objects[k])
      case RegistrationFail(code) =>
        exists k :: 0 <= k < |pieces| && build(pieces[k]) == BuildFail(code)
          && forall m :: 0 <= m < k ==> build(pieces[m]).Object?
  {
    if pieces != [] {
      var front := pieces[..|pieces| - 1];
      CompileMeaning(front, build);
      if Compile(front, build).RegistrationFail? {
        var code := Compile(front, build).code;
        var k :| 0 <= k < |front| && build(front[k]) == BuildFail(code)
          && forall m :: 0 <= m < k ==> build(front[m]).Object?;
        assert build(pieces[k]) == BuildFail(code) && forall m :: 0 <= m < k ==> build(pieces[m]).Object?;
      }
    }
  }

  /** A failure ends the registration, whatever follows. */
  lemma {:induction false} CompileFails<J>(a: seq<Cap>, b: seq<Cap>, build: Cap -> Built<J>)
    requires Compile(a, build).RegistrationFail?
    ensures Compile(a + b, build) == Compile(a, build)
  {
    if b == [] {
      assert a + b == a;
    } else {
      CompileFails(a, b[..|b| - 1], build);
      assert (a + b)[..|a + b| - 1] == a + b[..|b| - 1];
    }
  }

  function Splits(caps: seq<Cap>): nat {
    if caps == [] then 0 else Splits(caps[..|caps| - 1]) + if IsSplit(caps[|caps| - 1]) then 1 else 0
  }

  /** One object per capability and one more per split. */
  lemma {:induction false} PiecesCounted(caps: seq<Cap>)
    ensures |AllPieces(caps)| == |caps| + Splits(caps)
  {
    if caps != [] {
      PiecesCounted(caps[..|caps| - 1]);
    }
  }

  /** Which capabilities are registered twice. */
  lemma SplitIff(c: Cap)
    ensures IsSplit(c) <==>
      || (c.cipher in {AesGcm, AesXpn, AesGmac, AesCtr} && c.ivgen == IvEither)
      || (c.cipher in {EcdsaSiggen, EcdsaSigver} && c.component == ComponentBoth)
  {
  }

  /** At position `n` stand the pieces of a capability: internal then external, without then with, or itself. */
  ghost predicate StandsAt(pieces: seq<Cap>, n: nat, c: Cap) {
    if c.cipher in {AesGcm, AesXpn, AesGmac, AesCtr} && c.ivgen == IvEither then
      n + 1 < |pieces| && pieces[n] == c.(ivgen := IvInternal) && pieces[n + 1] == c.(ivgen := IvExternal)
    else if c.cipher in {EcdsaSiggen, EcdsaSigver} && c.component == ComponentBoth then
      n + 1 < |pieces| && pieces[n] == c.(component := ComponentNo) && pieces[n + 1] == c.(component := ComponentYes)
    else
      n < |pieces| && pieces[n] == c
  }

  /** Every capability has its pieces, behind those of the capabilities ahead of it, and there are no others. */
  lemma {:induction false} PiecesStand(caps: seq<Cap>, k: nat)
    requires k < |caps|
    ensures StandsAt(AllPieces(caps), k + Splits(caps[..k]), caps[k])
  {
    var last := |caps| - 1;
    PiecesCounted(caps[..last]);
    if k < last {
      PiecesStand(caps[..last], k);
      assert caps[..last][..k] == caps[..k];
    }
  }

  // ---- the calls and the count ---------------------------------------------

  /** The calls that bear on the number of vector sets; `value` 0 or an unknown one is refused. */
  datatype Call =
    | Enable(cipher: Cipher)
    | SetIvgen(cipher: Cipher, src: IvgenSrc)
    | SetComponent(cipher: Cipher, mode: Component)

  datatype State = State(caps: seq<Cap>, vsCount: nat)

  /** Position of a cipher on the list of capabilities, or its length. */
  function Locate(caps: seq<Cap>, c: Cipher): (k: nat)
    ensures k <= |caps| && (k < |caps| ==> caps[k].cipher == c)
    ensures forall m :: 0 <= m < k ==> caps[m].cipher != c
  {
    if caps == [] || caps[0].cipher == c then 0 else Locate(caps[1..], c) + 1
  }

  /**
   * Component mode NO has the value 0, which amvp_cap_ecdsa_set_parm takes for a missing argument:
   * it can never be set.
   */
  predicate Accepted(caps: seq<Cap>, call: Call) {
    var k := Locate(caps, call.cipher);
    match call
    case Enable(_) => k == |caps|
    case SetIvgen(c, src) => k < |caps| && IsSymmetric(c) && !src.IvUnset?
    case SetComponent(c, mode) => k < |caps| && SplitsOnComponent(c) && !mode.ComponentNo?
  }

  /** A call that announces a second registration. */
  predicate Announces(call: Call) {
    (call.SetIvgen? && call.src.IvEither?) || (call.SetComponent? && call.mode.ComponentBoth?)
  }

  function Change(c: Cap, call: Call): Cap {
    match call
    case Enable(_) => c
    case SetIvgen(_, src) => c.(ivgen := src)
    case SetComponent(_, mode) => c.(component := mode)
  }

  function Step(s: State, call: Call): State {
    if !Accepted(s.caps, call) then s
    else if call.Enable? then State(s.caps + [Cap(call.cipher, IvUnset, ComponentNo)], s.vsCount + 1)
    else
      var k := Locate(s.caps, call.cipher);
      State(s.caps[k := Change(s.caps[k], call)], s.vsCount + if Announces(call) then 1 else 0)
  }

  function Replay(calls: seq<Call>): State {
    if calls == [] then State([], 0) else Step(Replay(calls[..|calls| - 1]), calls[|calls| - 1])
  }

  // ---- the state in the terms of the calls ----------------------------------

  /** The IV source that the last effective call set, behind the one that enabled the cipher. */
  function LastIvgen(calls: seq<Call>, c: Cipher): IvgenSrc {
    if calls == [] then IvUnset
    else
      var before, last := calls[..|calls| - 1], calls[|calls| - 1];
      if last.SetIvgen? && last.cipher == c && IsSymmetric(c) && last.src != IvUnset
        && Enable(c) in before then last.src
      else LastIvgen(before, c)
  }

  function LastComponent(calls: seq<Call>, c: Cipher): Component {
    if calls == [] then ComponentNo
    else
      var before, last := calls[..|calls| - 1], calls[|calls| - 1];
      if last.SetComponent? && last.cipher == c && c in {EcdsaSiggen, EcdsaSigver} && last.mode != ComponentNo
        && Enable(c) in before then last.mode
      else LastComponent(before, c)
  }

  /** The ciphers in the order in which they were first enabled. */
  function FirstEnabled(calls: seq<Call>): seq<Cipher> {
    if calls == [] then []
    else
      var before, last := FirstEnabled(calls[..|calls| - 1]), calls[|calls| - 1];
      if last.Enable? && last.cipher !in before then before + [last.cipher] else before
  }

  function CiphersOf(caps: seq<Cap>): (r: seq<Cipher>)
    ensures |r| == |caps| && forall k :: 0 <= k < |caps| ==> r[k] == caps[k].cipher
  {
    seq(|caps|, k requires 0 <= k < |caps| => caps[k].cipher)
  }

  lemma {:induction false} UnsetBefore(calls: seq<Call>, c: Cipher)
    requires Enable(c) !in calls
    ensures LastIvgen(calls, c) == IvUnset && LastComponent(calls, c) == ComponentNo
  {
    if calls != [] {
      UnsetBefore(calls[..|calls| - 1], c);
    }
  }

  lemma LocateIs(caps: seq<Cap>, c: Cipher, k: nat)
    requires k < |caps| && caps[k].cipher == c && forall m :: 0 <= m < k ==> caps[m].cipher != c
    ensures Locate(caps, c) == k
  {
  }

  /** What a call does to the capability of cipher `c`. */
  lemma StepAt(s: State, call: Call, c: Cipher)
    ensures var (t, k, k') := (Step(s, call), Locate(s.caps, c), Locate(Step(s, call).caps, c));
      && (k' < |t.caps| <==> k < |s.caps| || call == Enable(c))
      && (k < |s.caps| ==> k' == k < |t.caps|)
      && (k < |s.caps| ==>
            t.caps[k] == if call.cipher == c && Accepted(s.caps, call) then Change(s.caps[k], call) else s.caps[k])
      && (k == |s.caps| && k' < |t.caps| ==> t.caps[k'] == Cap(c, IvUnset, ComponentNo))
  {
    var t, k := Step(s, call), Locate(s.caps, c);
    SameCiphers(s, call);
    if k < |s.caps| || call == Enable(c) {
      LocateIs(t.caps, c, k);
    }
  }

  /** A call keeps every cipher in its place, and adds at most one behind them. */
  lemma SameCiphers(s: State, call: Call)
    ensures var (t, n) := (Step(s, call), |s.caps|);
      && n <= |t.caps| <= n + 1
      && (forall m :: 0 <= m < n ==> t.caps[m].cipher == s.caps[m].cipher)
      && (|t.caps| > n <==> call.Enable? && Accepted(s.caps, call))
      && (|t.caps| > n ==> t.caps[n] == Cap(call.cipher, IvUnset, ComponentNo))
  {
  }

  /** An enabled cipher has the settings of the last calls that were accepted for it. */
  lemma {:induction false} SettingsAreLast(calls: seq<Call>, c: Cipher)
    ensures var (caps, k) := (Replay(calls).caps, Locate(Replay(calls).caps, c));
      && (k < |caps| <==> Enable(c) in calls)
      && (k < |caps| ==> caps[k] == Cap(c, LastIvgen(calls, c), LastComponent(calls, c)))
  {
    if calls != [] {
      var n := |calls| - 1;
      SettingsAreLast(calls[..n], c);
      StepAt(Replay(calls[..n]), calls[n], c);
      assert Enable(c) in calls <==> Enable(c) in calls[..n] || calls[n] == Enable(c);
      if Enable(c) !in calls[..n] {
        UnsetBefore(calls[..n], c);
      }
    }
  }

  /** Which calls are accepted, by what was called before. */
  lemma AcceptedByHistory(calls: seq<Call>, call: Call)
    ensures var c := call.cipher;
      Accepted(Replay(calls).caps, call) <==>
        match call
        case Enable(_) => Enable(c) !in calls
        case SetIvgen(_, src) => Enable(c) in calls && IsSymmetric(c) && src != IvUnset
        case SetComponent(_, mode) => Enable(c) in calls && c in {EcdsaSiggen, EcdsaSigver} && mode != ComponentNo
  {
    SettingsAreLast(calls, call.cipher);
  }

  /** The capabilities stand in the order in which their ciphers were first enabled. */
  lemma {:induction false} EnabledInOrder(calls: seq<Call>)
    ensures CiphersOf(Replay(calls).caps) == FirstEnabled(calls)
  {
    if calls != [] {
      var n := |calls| - 1;
      var s, c := Replay(calls[..n]), calls[n].cipher;
      EnabledInOrder(calls[..n]);
      assert c in CiphersOf(s.caps) <==> Locate(s.caps, c) < |s.caps|;
      assert calls[n].Enable? && Accepted(s.caps, calls[n]) ==>
        CiphersOf(Replay(calls).caps) == CiphersOf(s.caps) + [c];
      assert !(calls[n].Enable? && Accepted(s.caps, calls[n])) ==> CiphersOf(Replay(calls).caps) == CiphersOf(s.caps);
    }
  }

  /** A call after which the count is one too high: it announces without splitting, or takes a split back. */
  predicate Wasteful(caps: seq<Cap>, call: Call) {
    Accepted(caps, call) && !call.Enable? &&
    var c := caps[Locate(caps, call.cipher)];
    if Announces(call) then IsSplit(c) || !IsSplit(Change(c, call)) else IsSplit(c) && !IsSplit(Change(c, call))
  }

  function Waste(calls: seq<Call>): nat {
    if calls == [] then 0
    else
      var before := calls[..|calls| - 1];
      Waste(before) + if Wasteful(Replay(before).caps, calls[|calls| - 1]) then 1 else 0
  }

  lemma {:induction false} SplitsOfUpdate(caps: seq<Cap>, k: nat, c: Cap)
    requires k < |caps|
    ensures Splits(caps[k := c]) == Splits(caps) - (if IsSplit(caps[k]) then 1 else 0) + (if IsSplit(c) then 1 else 0)
  {
    var n := |caps| - 1;
    if k < n {
      SplitsOfUpdate(caps[..n], k, c);
      assert caps[k := c][..n] == caps[..n][k := c];
    } else {
      assert caps[k := c][..n] == caps[..n];
    }
  }

  function One(b: bool): nat {
    if b then 1 else 0
  }

  /** What a call adds to the splits and to the waste is what it adds to the count. */
  lemma SplitBalance(caps: seq<Cap>, call: Call)
    requires Accepted(caps, call) && !call.Enable?
    ensures var c := caps[Locate(caps, call.cipher)];
      One(IsSplit(Change(c, call))) + One(Wasteful(caps, call)) == One(IsSplit(c)) + One(Announces(call))
  {
  }

  lemma StepBalance(s: State, call: Call)
    requires s.vsCount >= |s.caps| + Splits(s.caps)
    ensures var t := Step(s, call);
      t.vsCount - |t.caps| - Splits(t.caps) == s.vsCount - |s.caps| - Splits(s.caps) + One(Wasteful(s.caps, call))
  {
    if Accepted(s.caps, call) && call.Enable? {
      assert Step(s, call).caps[..|s.caps|] == s.caps;
    } else if Accepted(s.caps, call) {
      var k := Locate(s.caps, call.cipher);
      SplitsOfUpdate(s.caps, k, Change(s.caps[k], call));
      SplitBalance(s.caps, call);
    }
  }

  /** The count exceeds the length of the registration by the number of wasteful calls, for every history. */
  lemma {:induction false} CountIsLengthPlusWaste(calls: seq<Call>)
    ensures Replay(calls).vsCount == |AllPieces(Replay(calls).caps)| + Waste(calls)
  {
    PiecesCounted(Replay(calls).caps);
    if calls != [] {
      var before, call := calls[..|calls| - 1], calls[|calls| - 1];
      CountIsLengthPlusWaste(before);
      PiecesCounted(Replay(before).caps);
      StepBalance(Replay(before), call);
    }
  }

  /** The expected count is the length of the registration exactly when no call was wasteful. */
  lemma CountExactly(calls: seq<Call>)
    ensures Replay(calls).vsCount == |AllPieces(Replay(calls).caps)| <==> Waste(calls) == 0
  {
    CountIsLengthPlusWaste(calls);
  }

  lemma CountTooHigh()
    ensures Replay([Enable(AesCcm), SetIvgen(AesCcm, IvEither)]).vsCount == 2
    ensures |AllPieces(Replay([Enable(AesCcm), SetIvgen(AesCcm, IvEither)]).caps)| == 1
  {
    var a, b := Enable(AesCcm), SetIvgen(AesCcm, IvEither);
    ReplayNext([], a);
    assert [] + [a] == [a];
    assert Replay([a]) == State([Cap(AesCcm, IvUnset, ComponentNo)], 1);
    ReplayNext([a], b);
    assert [a] + [b] == [a, b];
    OnePieceEach([Cap(AesCcm, IvEither, ComponentNo)]);
  }

  lemma OnePieceEach(caps: seq<Cap>)
    requires |caps| == 1 && !IsSplit(caps[0])
    ensures |AllPieces(caps)| == 1
  {
    assert caps[..0] == [];
  }

  lemma ReplayNext(calls: seq<Call>, call: Call)
    ensures Replay(calls + [call]) == Step(Replay(calls), call)
  {
    assert (calls + [call])[..|calls|] == calls;
  }
}
