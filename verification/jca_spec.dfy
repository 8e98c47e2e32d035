/**
 Value models of the JCA parameter objects the registry hands to signers and
 verifiers, together with the naming convention of JCA signature algorithms.
 The JCA classes themselves are foreign; only the data they carry is modelled.
 */
module JcaSpec {
  import opened Wrappers
  import opened Digests

  /** Mask-generation-function parameters: MGF1 names only its hash. */
  datatype Mgf1ParameterSpec = Mgf1ParameterSpec(digestAlgorithm: string)

  /** MGF1 over SHA-256, as the JCA constant of that name. */
  function Mgf1Sha256(): Mgf1ParameterSpec {
    Mgf1ParameterSpec("SHA-256")
  }

  /** MGF1 over SHA-512, as the JCA constant of that name. */
  function Mgf1Sha512(): Mgf1ParameterSpec {
    Mgf1ParameterSpec("SHA-512")
  }

  /** The RSASSA-PSS parameter set: message hash, MGF and its hash, salt length in bytes, trailer field. */
  datatype PssParameterSpec = PssParameterSpec(
    mdName: string,
    mgfName: string,
    mgfSpec: Mgf1ParameterSpec,
    saltLen: int,
    trailerField: int)

  /**
   Signature parameters. Schemes without configurable parameters carry
   `NoParams` (the source's null), never a defaulted parameter object.
   */
  datatype AlgorithmParams = NoParams | Pss(spec: PssParameterSpec)

  /** The pair (JCA signature algorithm name, parameters). */
  datatype SignatureAlgAndParams = SignatureAlgAndParams(name: string, params: AlgorithmParams)

  /**
   The trailer byte a trailer-field value denotes. Appendix A.2.3 of RFC 8017
   defines only trailerFieldBC(1), the byte 0xBC; every other value denotes none.
   */
  function TrailerByte(trailerField: int): Option<int> {
    if trailerField == 1 then Some(0xBC) else None
  }

  /**
   PSS parameters consistent with hash `h`, as section 9.1 of RFC 8017 uses
   them: the message is hashed with `h`, the mask is generated by MGF1 with
   the same hash, the salt is as long as the hash output, and the trailer is 0xBC.
   */
  predicate PssConsistentWith(p: PssParameterSpec, h: HashAlgorithm) {
    && p.mdName == h.JcaName()
    && p.mgfName == "MGF1"
    && p.mgfSpec.digestAlgorithm == p.mdName
    && p.saltLen == h.OutputSizeBytes()
    && TrailerByte(p.trailerField) == Some(0xBC)
  }

  /** The signing schemes the registry uses. */
  datatype SignatureScheme = RsaPkcs1V15 | RsaPss | Ecdsa | Dsa {

    /** The part of a JCA signature algorithm name after "with". */
    function NameSuffix(): string {
      match this
      case RsaPkcs1V15 => "RSA"
      case RsaPss => "RSA/PSS"
      case Ecdsa => "ECDSA"
      case Dsa => "DSA"
    }

    /** The JCA key algorithm the scheme signs and verifies with. */
    function KeyAlgorithm(): string {
      match this
      case RsaPkcs1V15 => "RSA"
      case RsaPss => "RSA"
      case Ecdsa => "EC"
      case Dsa => "DSA"
    }
  }

  /** The JCA standard signature algorithm name of scheme `s` over hash `h`, e.g. "SHA256withRSA/PSS". */
  function JcaSignatureName(h: HashAlgorithm, s: SignatureScheme): string {
    h.SignatureToken() + "with" + s.NameSuffix()
  }

  /** The JCA standard names of the SHA-256 signature algorithms. */
  lemma Sha256SignatureNames()
    ensures JcaSignatureName(Sha256, RsaPkcs1V15) == "SHA256withRSA"
    ensures JcaSignatureName(Sha256, RsaPss) == "SHA256withRSA/PSS"
    ensures JcaSignatureName(Sha256, Ecdsa) == "SHA256withECDSA"
    ensures JcaSignatureName(Sha256, Dsa) == "SHA256withDSA"
  {
  }

  /** The JCA standard names of the SHA-512 signature algorithms. */
  lemma Sha512SignatureNames()
    ensures JcaSignatureName(Sha512, RsaPkcs1V15) == "SHA512withRSA"
    ensures JcaSignatureName(Sha512, RsaPss) == "SHA512withRSA/PSS"
    ensures JcaSignatureName(Sha512, Ecdsa) == "SHA512withECDSA"
    ensures JcaSignatureName(Sha512, Dsa) == "SHA512withDSA"
  {
  }

  /** A JCA signature algorithm name determines both its hash and its scheme. */
  lemma JcaSignatureNameInjective(h1: HashAlgorithm, s1: SignatureScheme, h2: HashAlgorithm, s2: SignatureScheme)
    requires JcaSignatureName(h1, s1) == JcaSignatureName(h2, s2)
    ensures h1 == h2 && s1 == s2
  {
    var n := JcaSignatureName(h1, s1);
    assert n[3] == h1.SignatureToken()[3] && n[3] == h2.SignatureToken()[3];
    var suffix1 := n[10..];
    assert suffix1 == s1.NameSuffix();
    assert suffix1 == s2.NameSuffix();
    assert |suffix1| == |s1.NameSuffix()| && suffix1[0] == s1.NameSuffix()[0];
  }
}
