/** The setters of a symmetric cipher capability, which change its lists and domains in place. */
module SymCap {
  import opened Ciphers
  import opened SymCapSpec

  datatype Rv = Success | InvalidArg

  class SymCap {
    const cipher: Cipher
    const valid: ValueCheck

    var keylen: seq<int>
    var taglen: seq<int>
    var tweak: seq<int>
    var ivlen: seq<int>
    var ptlen: seq<int>
    var aadlen: seq<int>
    var ivDomain: Domain
    var payloadDomain: Domain
    var aadDomain: Domain
    var duDomain: Domain
    var dulenMatchesPaylen: bool

    ghost var calls: seq<Call>   // every call made on this capability

    constructor (cipher: Cipher, valid: ValueCheck)
      ensures this.cipher == cipher && this.valid == valid && Value() == FRESH && calls == [] && Valid()
    {
      this.cipher, this.valid := cipher, valid;
      keylen, taglen, tweak, ivlen, ptlen, aadlen := [], [], [], [], [], [];
      ivDomain, payloadDomain, aadDomain, duDomain := UNSET, UNSET, UNSET, UNSET;
      dulenMatchesPaylen, calls := true, [];
    }

    function Value(): Lengths
      reads this
    {
      Lengths(keylen, taglen, tweak, ivlen, ptlen, aadlen,
              ivDomain, payloadDomain, aadDomain, duDomain, dulenMatchesPaylen)
    }

    /** The fields are what the calls so far make of a fresh capability. */
    ghost predicate Valid()
      reads this
    {
      Value() == After(cipher, valid, FRESH, calls)
    }

    /** In every state no length has both forms, and every domain is sound. */
    lemma NeverBoth()
      requires Valid()
      ensures Inv(Value())
    {
      ReachableInv(cipher, valid, calls);
    }

    /** amvp_cap_sym_cipher_set_domain, behind the lookup of the capability */
    method SetDomain(parm: DomainParm, min: CInt, max: CInt, increment: CInt) returns (rv: Rv)
      requires Valid()
      modifies this
      ensures Valid() && calls == old(calls) + [Call.SetDomain(parm, min, max, increment)]
      ensures rv == Success <==> Accepted(cipher, valid, old(Value()), Call.SetDomain(parm, min, max, increment))
    {
      AfterNext(cipher, valid, FRESH, calls, Call.SetDomain(parm, min, max, increment));
      calls := calls + [Call.SetDomain(parm, min, max, increment)];
      rv := StoreDomain(parm, min, max, increment);
    }

    method StoreDomain(parm: DomainParm, min: CInt, max: CInt, increment: CInt) returns (rv: Rv)
      modifies this`ivDomain, this`payloadDomain, this`aadDomain, this`duDomain
      ensures Value() == Step(cipher, valid, old(Value()), Call.SetDomain(parm, min, max, increment))
      ensures rv == Success <==> Accepted(cipher, valid, old(Value()), Call.SetDomain(parm, min, max, increment))
    {
      match parm {
        case DomainIv =>
          if ivlen != [] || !DomainAllowed(cipher, parm, min, max, increment) {
            return InvalidArg;
          }
          ivDomain := Domain(min, max, increment);
        case DomainPt =>
          if ptlen != [] || !DomainAllowed(cipher, parm, min, max, increment) {
            return InvalidArg;
          }
          payloadDomain := Domain(min, max, increment);
        case DomainAad =>
          if aadlen != [] || !DomainAllowed(cipher, parm, min, max, increment) {
            return InvalidArg;
          }
          aadDomain := Domain(min, max, increment);
        case DomainDu =>
          if dulenMatchesPaylen || cipher != AesXts || !DomainAllowed(cipher, parm, min, max, increment) {
            return InvalidArg;
          }
          duDomain := Domain(min, max, increment);
      }
      return Success;
    }

    /** amvp_cap_sym_cipher_set_parm for the lengths and the data-unit flag */
    method SetParm(parm: Parm, value: CInt) returns (rv: Rv)
      requires Valid()
      modifies this
      ensures Valid() && calls == old(calls) + [Call.SetParm(parm, value)]
      ensures rv == Success <==> Accepted(cipher, valid, old(Value()), Call.SetParm(parm, value))
    {
      AfterNext(cipher, valid, FRESH, calls, Call.SetParm(parm, value));
      calls := calls + [Call.SetParm(parm, value)];
      rv := StoreValue(parm, value);
    }

    method StoreValue(parm: Parm, value: CInt) returns (rv: Rv)
      modifies this`keylen, this`taglen, this`tweak, this`ivlen, this`ptlen, this`aadlen, this`dulenMatchesPaylen
      ensures Value() == Step(cipher, valid, old(Value()), Call.SetParm(parm, value))
      ensures rv == Success <==> Accepted(cipher, valid, old(Value()), Call.SetParm(parm, value))
    {
      if parm.DulenMatchesPayload? {
        if cipher != AesXts || duDomain.max != 0 || duDomain.increment != 0 || (value != 0 && value != 1) {
          return InvalidArg;
        }
        dulenMatchesPaylen := value == 1;
        return Success;
      }
      if !valid(cipher, parm, value) {
        return InvalidArg;
      }
      match parm {
        case KeyLen => keylen := keylen + [value];
        case TagLen => taglen := taglen + [value];
        case Tweak => tweak := tweak + [value];
        case IvLen =>
          if IsSet(ivDomain) {
            return InvalidArg;
          }
          ivlen := ivlen + [value];
        case PtLen =>
          if IsSet(payloadDomain) {
            return InvalidArg;
          }
          ptlen := ptlen + [value];
        case AadLen =>
          if IsSet(aadDomain) {
            return InvalidArg;
          }
          aadlen := aadlen + [value];
      }
      return Success;
    }
  }
}
