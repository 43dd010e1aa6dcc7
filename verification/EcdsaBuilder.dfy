/**
 * The builder of ECDSA signature capabilities as a part of a whole registration: it changes the
 * curves of the capability, and that makes no difference to what is built afterwards.
 */
module EcdsaBuilder {
  import opened Ciphers
  import opened RegistrationSpec
  import opened Registration
  import opened EcdsaSpec
  import E = Ecdsa
  import C = EcdsaCalls
  import D = EcdsaDuplicates

  /** The curves and hash algorithms of a signature capability. */
  type Settings = s: C.State | C.Shaped(s) witness C.FRESH

  datatype Store = Store(siggen: Settings, sigver: Settings)

  /** The object of a signature capability, or that of any other one. */
  datatype Json<J> = Signature(cap: Cap, groups: seq<Group>) | Other(json: J)

  /** The object of a signature capability, as `Ecdsa.EcdsaCap.BuildGroups` computes its groups. */
  function SignatureObject<J>(c: Cap, s: Settings, named: nat -> bool): Built<Json<J>> {
    match E.GroupingResult(Merge(s.curves, s.universal), named)
    case (Success, groups) => Object(Signature(c, groups))
    case (MissingArg, _) => BuildFail(1)
    case (_, _) => BuildFail(2)
  }

  /** What building leaves behind. */
  function Settled(s: Settings): Settings {
    C.State(Merge(s.curves, s.universal), s.universal)
  }

  /** The builder of all capabilities, over an arbitrary one for those that are no signatures. */
  function BuildAny<J>(other: Cap -> Built<J>, named: nat -> bool): Builder<Store, Json<J>> {
    (s: Store, c: Cap) =>
      match c.cipher
      case EcdsaSiggen => (SignatureObject(c, s.siggen, named), s.(siggen := Settled(s.siggen)))
      case EcdsaSigver => (SignatureObject(c, s.sigver, named), s.(sigver := Settled(s.sigver)))
      case _ =>
        (match other(c)
         case Object(json) => Object(Other(json))
         case BuildFail(code) => BuildFail(code), s)
  }

  /**
   * The object of capability `c`, with groups that cover its curves and say what the calls asked
   * for unless a curve is swallowed; or a failure, for want of curves or of the name of one.
   */
  ghost predicate Expected<J>(r: Built<Json<J>>, c: Cap, calls: seq<C.Call>, named: nat -> bool) {
    var list := D.Merged(calls);
    if r.BuildFail? then
      if list == [] then r.code == 1 else r.code == 2 && exists k :: 0 <= k < |list| && !named(list[k].id)
    else
      && r.json.Signature? && r.json.cap == c && list != [] && Covers(r.json.groups, list, {})
      && (D.SayMeant(r.json.groups, calls) <==> !D.Lossy(list, C.Replay(calls).universal[..HASH_ALG_MAX]))
  }

  /** What is built for a signature capability behind any calls on it. */
  lemma SignatureMeans<J>(other: Cap -> Built<J>, named: nat -> bool, store: Store, c: Cap, calls: seq<C.Call>)
    requires c.cipher in {EcdsaSiggen, EcdsaSigver}
    requires (if c.cipher.EcdsaSiggen? then store.siggen else store.sigver) == C.Replay(calls)
    ensures Expected(BuildAny(other, named)(store, c).0, c, calls, named)
  {
    E.ResultMeans(calls, named);
    assert D.Merged(calls) == Merge(C.Replay(calls).curves, C.Replay(calls).universal);
    assert BuildAny(other, named)(store, c).0 == SignatureObject<J>(c, C.Replay(calls), named);
  }

  /** A signature capability leaves the curves of the other one alone, and any other capability both. */
  lemma OthersUntouched<J>(other: Cap -> Built<J>, named: nat -> bool, store: Store, c: Cap)
    ensures var after := BuildAny(other, named)(store, c).1;
      && (c.cipher != EcdsaSiggen ==> after.siggen == store.siggen)
      && (c.cipher != EcdsaSigver ==> after.sigver == store.sigver)
  {
  }

  lemma SameObject<J>(c: Cap, s: Settings, named: nat -> bool)
    ensures SignatureObject<J>(c, Settled(s), named) == SignatureObject<J>(c, s, named)
  {
    MergeIdempotent(s.curves, s.universal);
  }

  /** So a registration with ECDSA capabilities is the same when it is built again. */
  lemma BuilderSettles<J>(other: Cap -> Built<J>, named: nat -> bool)
    ensures Settles(BuildAny(other, named))
  {
    var build := BuildAny(other, named);
    forall s: Store, c, c'
      ensures build(build(s, c).1, c').0 == build(s, c').0
    {
      var t := build(s, c).1;
      assert t.siggen == s.siggen || t.siggen == Settled(s.siggen);
      assert t.sigver == s.sigver || t.sigver == Settled(s.sigver);
      SameObject<J>(c', s.siggen, named);
      SameObject<J>(c', s.sigver, named);
      if c'.cipher.EcdsaSiggen? {
      } else if c'.cipher.EcdsaSigver? {
      } else {
        assert build(t, c').0 == build(s, c').0;
      }
    }
  }
}
