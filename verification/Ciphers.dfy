/** The ciphers that the capability store and the registration tell apart. */
module Ciphers {
  datatype Cipher =
    | AesGcm | AesGcmSiv | AesCcm | AesEcb | AesCbc | AesCbcCs1 | AesCbcCs2 | AesCbcCs3
    | AesCfb1 | AesCfb8 | AesCfb128 | AesOfb | AesCtr | AesXts | AesKw | AesKwp | AesGmac | AesXpn
    | TdesCtr | TdesKw | TdesOther(mode: nat)
    | EcdsaKeygen | EcdsaKeyver | EcdsaSiggen | EcdsaSigver
    | OtherCipher(id: nat)

  datatype IvgenSrc = IvUnset | IvInternal | IvExternal | IvEither | IvNa
  datatype Component = ComponentNo | ComponentYes | ComponentBoth

  predicate IsSymmetric(c: Cipher) {
    !(c.EcdsaKeygen? || c.EcdsaKeyver? || c.EcdsaSiggen? || c.EcdsaSigver? || c.OtherCipher?)
  }

  /** Registered twice when the IV may be generated on either side. */
  predicate SplitsOnIv(c: Cipher) {
    c in {AesGcm, AesXpn, AesGmac, AesCtr}
  }

  /** Registered twice when both component modes are tested. */
  predicate SplitsOnComponent(c: Cipher) {
    c in {EcdsaSiggen, EcdsaSigver}
  }
}
