/**
 * The list of enabled capabilities of src/amvp_capabilities.c and the building of the registration
 * in src/amvp_build_register.c, which changes a capability while it registers it twice.
 */
module Registration {
  import opened Ciphers
  import opened RegistrationSpec

  datatype Rv = Success | DupCipher | NoCap | InvalidArg | MissingArg

  const NO_CAP := -1

  /** An element of the list of capabilities. */
  class Entry {
    const cipher: Cipher
    var ivgen: IvgenSrc
    var component: Component

    constructor (cipher: Cipher)
      ensures this.cipher == cipher && Value() == Cap(cipher, IvUnset, ComponentNo)
    {
      this.cipher, this.ivgen, this.component := cipher, IvUnset, ComponentNo;
    }

    function Value(): Cap
      reads this
    {
      Cap(cipher, ivgen, component)
    }

    /**
     * Register this capability: once, or twice with the deciding field changed meanwhile. The
     * builder may change its own `data`, which was `d0` when the registration began.
     */
    method BuildInto<D(!new), J>(build: Builder<D, J>, data: D, ghost d0: D, objects: seq<J>)
      returns (r: RegistrationSpec.Registration<J>, data': D)
      requires Settles(build) && Alike(build, d0, data)
      modifies this
      ensures Value() == old(Value()) && Alike(build, d0, data')
      ensures forall pieces {:trigger Compile(pieces, At(build, d0))} ::
        Compile(pieces, At(build, d0)) == Registered(objects) ==>
          r == Compile(pieces + Pieces(old(Value())), At(build, d0))
    {
      ghost var c := Value();
      var second := false;
      if SplitsOnIv(cipher) && ivgen.IvEither? {
        second, ivgen := true, IvInternal;
      } else if SplitsOnComponent(cipher) && component.ComponentBoth? {
        second, component := true, ComponentNo;
      }
      var first := build(data, Value());
      data' := first.1;
      r := Append(first.0, objects);
      if !second {
        OnePiece(c, At(build, d0), objects, r);
        return;
      }
      if first.0.Object? {
        if SplitsOnIv(cipher) {
          ivgen := IvExternal;
        } else {
          component := ComponentYes;
        }
        var next := build(data', Value());
        data' := next.1;
        r := Append(next.0, objects + [first.0.json]);
      }
      if SplitsOnIv(cipher) {
        ivgen := IvEither;
      } else {
        component := ComponentBoth;
      }
      TwoPieces(c, At(build, d0), objects, r);
    }
  }

  // ---- builders that change their data -------------------------------------

  /** A builder of single objects, which may change data of its own as it goes. */
  type Builder<!D, !J> = (D, Cap) -> (Built<J>, D)

  /** What a builder has changed makes no difference to any object it builds afterwards. */
  ghost predicate Settles<D(!new), J>(build: Builder<D, J>) {
    forall d, c, c' {:trigger build(build(d, c).1, c')} :: build(build(d, c).1, c').0 == build(d, c').0
  }

  /** Two states of the data from which the same objects are built. */
  ghost predicate Alike<D(!new), J>(build: Builder<D, J>, d: D, d': D) {
    forall c {:trigger build(d', c)} :: build(d', c).0 == build(d, c).0
  }

  function At<D, J>(build: Builder<D, J>, d: D): Cap -> Built<J> {
    c => build(d, c).0
  }

  lemma {:induction false} CompileAlike<D(!new), J>(pieces: seq<Cap>, build: Builder<D, J>, d: D, d': D)
    requires Alike(build, d, d')
    ensures Compile(pieces, At(build, d')) == Compile(pieces, At(build, d))
  {
    if pieces != [] {
      CompileAlike(pieces[..|pieces| - 1], build, d, d');
    }
  }

  function Append<J>(b: Built<J>, objects: seq<J>): RegistrationSpec.Registration<J> {
    match b
    case Object(json) => Registered(objects + [json])
    case BuildFail(code) => RegistrationFail(code)
  }

  lemma CompileNext<J>(pieces: seq<Cap>, c: Cap, build: Cap -> Built<J>, objects: seq<J>)
    requires Compile(pieces, build) == Registered(objects)
    ensures Compile(pieces + [c], build) == Append(build(c), objects)
  {
    assert (pieces + [c])[..|pieces|] == pieces;
  }

  lemma OnePiece<J>(c: Cap, build: Cap -> Built<J>, objects: seq<J>, r: RegistrationSpec.Registration<J>)
    requires Pieces(c) == [c] && r == Append(build(c), objects)
    ensures forall pieces {:trigger Compile(pieces, build)} :: Compile(pieces, build) == Registered(objects) ==>
      r == Compile(pieces + Pieces(c), build)
  {
    forall pieces | Compile(pieces, build) == Registered(objects)
      ensures r == Compile(pieces + Pieces(c), build)
    {
      CompileNext(pieces, c, build, objects);
    }
  }

  lemma TwoPieces<J>(c: Cap, build: Cap -> Built<J>, objects: seq<J>, r: RegistrationSpec.Registration<J>)
    requires |Pieces(c)| == 2
    requires var (a, b) := (build(Pieces(c)[0]), build(Pieces(c)[1]));
      r == if a.Object? then Append(b, objects + [a.json]) else Append(a, objects)
    ensures forall pieces {:trigger Compile(pieces, build)} :: Compile(pieces, build) == Registered(objects) ==>
      r == Compile(pieces + Pieces(c), build)
  {
    var p := Pieces(c);
    forall pieces | Compile(pieces, build) == Registered(objects)
      ensures r == Compile(pieces + p, build)
    {
      CompileNext(pieces, p[0], build, objects);
      assert pieces + p == pieces + [p[0]] + [p[1]];
      if build(p[0]).Object? {
        CompileNext(pieces + [p[0]], p[1], build, objects + [build(p[0]).json]);
      } else {
        CompileFails(pieces + [p[0]], [p[1]], build);
      }
    }
  }

  function Values(caps: seq<Entry>): (r: seq<Cap>)
    reads caps
    ensures |r| == |caps| && forall k :: 0 <= k < |caps| ==> r[k] == caps[k].Value()
  {
    seq(|caps|, k requires 0 <= k < |caps| reads caps => caps[k].Value())
  }

  class Context {
    var caps: seq<Entry>
    var vsCount: nat

    constructor ()
      ensures Valid() && caps == [] && vsCount == 0
    {
      caps, vsCount := [], 0;
    }

    ghost predicate Valid()
      reads this
    {
      forall i, j :: 0 <= i < j < |caps| ==> caps[i] != caps[j]
    }

    ghost function Abstract(): State
      reads this, caps
    {
      State(Values(caps), vsCount)
    }

    /** amvp_locate_cap_entry */
    method Find(cipher: Cipher) returns (k: nat)
      ensures k == Locate(Values(caps), cipher)
    {
      k := 0;
      ghost var values := Values(caps);
      while k < |caps| && caps[k].cipher != cipher
        invariant k <= |caps| && forall m :: 0 <= m < k ==> values[m].cipher != cipher
      {
        k := k + 1;
      }
      assert k < |caps| ==> values[k].cipher == cipher;
    }

    /** amvp_cap_list_append */
    method EnableCap(cipher: Cipher) returns (rv: Rv)
      requires Valid()
      modifies this
      ensures Valid() && Abstract() == Step(old(Abstract()), Enable(cipher))
      ensures rv == (if Accepted(old(Abstract()).caps, Enable(cipher)) then Success else DupCipher)
    {
      var k := Find(cipher);
      if k < |caps| {
        return DupCipher;
      }
      var e := new Entry(cipher);
      caps, vsCount := caps + [e], vsCount + 1;
      assert Values(caps) == Values(old(caps)) + [Cap(cipher, IvUnset, ComponentNo)];
      return Success;
    }

    /** amvp_cap_sym_cipher_set_parm with AMVP_SYM_CIPH_PARM_IVGEN_SRC */
    method SetIvgenSrc(cipher: Cipher, src: IvgenSrc) returns (rv: Rv)
      requires Valid()
      modifies this`vsCount, caps
      ensures Valid() && Abstract() == Step(old(Abstract()), SetIvgen(cipher, src))
      ensures rv == Success <==> Accepted(old(Abstract()).caps, SetIvgen(cipher, src))
      ensures rv == NoCap <==> IsSymmetric(cipher) && Locate(old(Abstract()).caps, cipher) == |caps|
    {
      if !IsSymmetric(cipher) {
        return InvalidArg;
      }
      var k := Find(cipher);
      if k == |caps| {
        return NoCap;
      }
      if src.IvUnset? {
        return InvalidArg;
      }
      if src.IvEither? {
        vsCount := vsCount + 1;
      }
      PutIvgen(k, src);
      return Success;
    }

    method PutIvgen(k: nat, src: IvgenSrc)
      requires Valid() && k < |caps|
      modifies caps[k]
      ensures Values(caps) == old(Values(caps))[k := old(caps[k].Value()).(ivgen := src)]
    {
      caps[k].ivgen := src;
    }

    method PutComponent(k: nat, mode: Component)
      requires Valid() && k < |caps|
      modifies caps[k]
      ensures Values(caps) == old(Values(caps))[k := old(caps[k].Value()).(component := mode)]
    {
      caps[k].component := mode;
    }

    /** amvp_cap_ecdsa_set_parm with AMVP_ECDSA_COMPONENT_TEST */
    method SetComponentTest(cipher: Cipher, mode: Component) returns (rv: Rv)
      requires Valid()
      modifies this`vsCount, caps
      ensures Valid() && Abstract() == Step(old(Abstract()), SetComponent(cipher, mode))
      ensures rv == Success <==> Accepted(old(Abstract()).caps, SetComponent(cipher, mode))
      ensures rv == NoCap <==> Locate(old(Abstract()).caps, cipher) == |caps|
    {
      var k := Find(cipher);
      if k == |caps| {
        return NoCap;
      }
      if mode.ComponentNo? {
        return MissingArg;
      }
      if !SplitsOnComponent(cipher) {
        return InvalidArg;
      }
      if mode.ComponentBoth? {
        vsCount := vsCount + 1;
      }
      PutComponent(k, mode);
      return Success;
    }

    /** amvp_build_registration_json over any builder of single objects. */
    method BuildRegistration<D(!new), J>(build: Builder<D, J>, data: D)
      returns (r: RegistrationSpec.Registration<J>, data': D)
      requires Valid() && Settles(build)
      modifies caps
      ensures Values(caps) == old(Values(caps)) && Alike(build, data, data')
      ensures r == if caps == [] then RegistrationFail(NO_CAP) else Compile(AllPieces(Values(caps)), At(build, data))
      ensures r.Registered? ==> Announced(Values(caps), r.objects, build, data)
      ensures r.RegistrationFail? && caps != [] ==>
        exists c :: c in AllPieces(Values(caps)) && build(data, c).0 == BuildFail(r.code)
    {
      data' := data;
      if caps == [] {
        return RegistrationFail(NO_CAP), data';
      }
      ghost var values := Values(caps);
      var objects := [];
      for i := 0 to |caps|
        invariant Values(caps) == values && Alike(build, data, data')
        invariant Compile(AllPieces(values[..i]), At(build, data)) == Registered(objects)
      {
        r, data' := BuildNext(i, build, data', data, objects, values);
        if r.RegistrationFail? {
          FailureIsFinal(values, i + 1, At(build, data));
          CompileMeaning(AllPieces(values), At(build, data));
          return;
        }
        objects := r.objects;
      }
      assert values[..|caps|] == values;
      r := Registered(objects);
      ObjectsAnnounce(values, objects, build, data);
    }

    /** One turn of the loop. */
    method BuildNext<D(!new), J>(i: nat, build: Builder<D, J>, data: D, ghost d0: D, objects: seq<J>,
                                 ghost values: seq<Cap>)
      returns (r: RegistrationSpec.Registration<J>, data': D)
      requires Valid() && Settles(build) && Alike(build, d0, data)
      requires i < |caps| && Values(caps) == values
      requires Compile(AllPieces(values[..i]), At(build, d0)) == Registered(objects)
      modifies caps
      ensures Values(caps) == values && Alike(build, d0, data')
      ensures r == Compile(AllPieces(values[..i + 1]), At(build, d0))
    {
      PiecesNext(values, i);
      r, data' := caps[i].BuildInto(build, data, d0, objects);
    }

    /** The second registration equals the first, and its length is the count when no call was wasteful. */
    method BuildTwice<D(!new), J>(build: Builder<D, J>, data: D, ghost calls: seq<Call>)
      returns (a: RegistrationSpec.Registration<J>, b: RegistrationSpec.Registration<J>)
      requires Valid() && Settles(build) && Abstract() == Replay(calls)
      modifies caps
      ensures a == b && Abstract() == Replay(calls)
      ensures a.Registered? ==> (vsCount == |a.objects| <==> Waste(calls) == 0)
    {
      var data', data'';
      a, data' := BuildRegistration(build, data);
      b, data'' := BuildRegistration(build, data');
      CompileAlike(AllPieces(Values(caps)), build, data, data');
      CountExactly(calls);
      CompileMeaning(AllPieces(Values(caps)), At(build, data));
    }
  }

  /**
   * The objects of a registration: behind those of the capabilities ahead of it, each capability
   * has one built with internal and one with external IVs, one without and one with the component
   * test, or one that is built as it stands.
   */
  ghost predicate Announced<D, J>(caps: seq<Cap>, objects: seq<J>, build: Builder<D, J>, d: D) {
    && |objects| == |caps| + Splits(caps)
    && forall k {:trigger caps[k]} :: 0 <= k < |caps| ==> AnnouncedAt(caps[k], k + Splits(caps[..k]), objects, build, d)
  }

  ghost predicate AnnouncedAt<D, J>(c: Cap, n: nat, objects: seq<J>, build: Builder<D, J>, d: D) {
    if c.cipher in {AesGcm, AesXpn, AesGmac, AesCtr} && c.ivgen == IvEither then
      && n + 1 < |objects|
      && build(d, c.(ivgen := IvInternal)).0 == Object(objects[n])
      && build(d, c.(ivgen := IvExternal)).0 == Object(objects[n + 1])
    else if c.cipher in {EcdsaSiggen, EcdsaSigver} && c.component == ComponentBoth then
      && n + 1 < |objects|
      && build(d, c.(component := ComponentNo)).0 == Object(objects[n])
      && build(d, c.(component := ComponentYes)).0 == Object(objects[n + 1])
    else
      n < |objects| && build(d, c).0 == Object(objects[n])
  }

  lemma ObjectsAnnounce<D(!new), J>(caps: seq<Cap>, objects: seq<J>, build: Builder<D, J>, d: D)
    requires Compile(AllPieces(caps), At(build, d)) == Registered(objects)
    ensures Announced(caps, objects, build, d)
  {
    CompileMeaning(AllPieces(caps), At(build, d));
    PiecesCounted(caps);
    forall k {:trigger caps[k]} | 0 <= k < |caps|
      ensures AnnouncedAt(caps[k], k + Splits(caps[..k]), objects, build, d)
    {
      PiecesStand(caps, k);
    }
  }

  lemma PiecesNext(caps: seq<Cap>, i: nat)
    requires i < |caps|
    ensures AllPieces(caps[..i + 1]) == AllPieces(caps[..i]) + Pieces(caps[i])
  {
    assert caps[..i + 1][..i] == caps[..i];
  }

  /** A capability that fails ends the registration of every longer list. */
  lemma {:induction false} FailureIsFinal<J>(caps: seq<Cap>, i: nat, build: Cap -> Built<J>)
    requires i <= |caps| && Compile(AllPieces(caps[..i]), build).RegistrationFail?
    ensures Compile(AllPieces(caps), build) == Compile(AllPieces(caps[..i]), build)
  {
    if i == |caps| {
      assert caps[..i] == caps;
    } else {
      var front := caps[..|caps| - 1];
      assert front[..i] == caps[..i];
      FailureIsFinal(front, i, build);
      CompileFails(AllPieces(front), Pieces(caps[|caps| - 1]), build);
    }
  }
}
