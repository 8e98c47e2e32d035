/**
 The APK Signing Block signature-algorithm registry: a closed table binding
 each wire-format algorithm ID to its content-digest kind, JCA key algorithm,
 JCA signature algorithm with parameters, and minimum Android API level.
 */
module SignatureAlgorithms {
  import opened Wrappers
  import opened Digests
  import opened JcaSpec
  import AndroidSdkVersion

  /** The ten algorithms, in declaration order. */
  datatype SignatureAlgorithm =
    | RsaPssWithSha256
    | RsaPssWithSha512
    | RsaPkcs1V15WithSha256
    | RsaPkcs1V15WithSha512
    | EcdsaWithSha256
    | EcdsaWithSha512
    | DsaWithSha256
    | VerityRsaPkcs1V15WithSha256
    | VerityEcdsaWithSha256
    | VerityDsaWithSha256

  /** The signing scheme named by the constant ("RSA_PSS", "RSA_PKCS1_V1_5", "ECDSA", "DSA"). */
  function NamedScheme(a: SignatureAlgorithm): SignatureScheme {
    match a
    case RsaPssWithSha256 | RsaPssWithSha512 => RsaPss
    case RsaPkcs1V15WithSha256 | RsaPkcs1V15WithSha512 | VerityRsaPkcs1V15WithSha256 => RsaPkcs1V15
    case EcdsaWithSha256 | EcdsaWithSha512 | VerityEcdsaWithSha256 => Ecdsa
    case DsaWithSha256 | VerityDsaWithSha256 => Dsa
  }

  /** The hash named by the constant's "_WITH_SHA256" / "_WITH_SHA512" suffix. */
  function NamedHash(a: SignatureAlgorithm): HashAlgorithm {
    match a
    case RsaPssWithSha512 | RsaPkcs1V15WithSha512 | EcdsaWithSha512 => Sha512
    case _ => Sha256
  }

  /** The constant's name starts with "VERITY_": content is digested in 4 KB chunks. */
  predicate NamedVerity(a: SignatureAlgorithm) {
    a.VerityRsaPkcs1V15WithSha256? || a.VerityEcdsaWithSha256? || a.VerityDsaWithSha256?
  }

  /** Everything an algorithm is constructed with; every field is always supplied. */
  datatype Descriptor = Descriptor(
    id: int,
    contentDigestAlgorithm: ContentDigestAlgorithm,
    jcaKeyAlgorithm: string,
    jcaSignatureAlgAndParams: SignatureAlgAndParams,
    minSdkVersion: int)

  /**
   The wire-format ID space of the APK Signing Block, written out on its own:
   each assigned ID and the algorithm it denotes.
   */
  function WireIds(): map<int, SignatureAlgorithm> {
    map[
      0x0101 := RsaPssWithSha256,
      0x0102 := RsaPssWithSha512,
      0x0103 := RsaPkcs1V15WithSha256,
      0x0104 := RsaPkcs1V15WithSha512,
      0x0201 := EcdsaWithSha256,
      0x0202 := EcdsaWithSha512,
      0x0301 := DsaWithSha256,
      0x0421 := VerityRsaPkcs1V15WithSha256,
      0x0423 := VerityEcdsaWithSha256,
      0x0425 := VerityDsaWithSha256
    ]
  }

  /** The constructor arguments of each algorithm; the ID is the one the wire format assigns to it. */
  function DescriptorOf(a: SignatureAlgorithm): (d: Descriptor)
    ensures d.id in WireIds() && WireIds()[d.id] == a
  {
    match a
    case RsaPssWithSha256 =>
      Descriptor(0x0101, ChunkedSha256, "RSA",
        SignatureAlgAndParams("SHA256withRSA/PSS",
          Pss(PssParameterSpec("SHA-256", "MGF1", Mgf1Sha256(), 256 / 8, 1))),
        AndroidSdkVersion.N)
    case RsaPssWithSha512 =>
      Descriptor(0x0102, ChunkedSha512, "RSA",
        SignatureAlgAndParams("SHA512withRSA/PSS",
          Pss(PssParameterSpec("SHA-512", "MGF1", Mgf1Sha512(), 512 / 8, 1))),
        AndroidSdkVersion.N)
    case RsaPkcs1V15WithSha256 =>
      Descriptor(0x0103, ChunkedSha256, "RSA",
        SignatureAlgAndParams("SHA256withRSA", NoParams), AndroidSdkVersion.N)
    case RsaPkcs1V15WithSha512 =>
      Descriptor(0x0104, ChunkedSha512, "RSA",
        SignatureAlgAndParams("SHA512withRSA", NoParams), AndroidSdkVersion.N)
    case EcdsaWithSha256 =>
      Descriptor(0x0201, ChunkedSha256, "EC",
        SignatureAlgAndParams("SHA256withECDSA", NoParams), AndroidSdkVersion.N)
    case EcdsaWithSha512 =>
      Descriptor(0x0202, ChunkedSha512, "EC",
        SignatureAlgAndParams("SHA512withECDSA", NoParams), AndroidSdkVersion.N)
    case DsaWithSha256 =>
      Descriptor(0x0301, ChunkedSha256, "DSA",
        SignatureAlgAndParams("SHA256withDSA", NoParams), AndroidSdkVersion.N)
    case VerityRsaPkcs1V15WithSha256 =>
      Descriptor(0x0421, VerityChunkedSha256, "RSA",
        SignatureAlgAndParams("SHA256withRSA", NoParams), AndroidSdkVersion.P)
    case VerityEcdsaWithSha256 =>
      Descriptor(0x0423, VerityChunkedSha256, "EC",
        SignatureAlgAndParams("SHA256withECDSA", NoParams), AndroidSdkVersion.P)
    case VerityDsaWithSha256 =>
      Descriptor(0x0425, VerityChunkedSha256, "DSA",
        SignatureAlgAndParams("SHA256withDSA", NoParams), AndroidSdkVersion.P)
  }

  /** The wire-format ID: the one assigned to `a`; it fits in 16 bits and 0x0000 is never used. */
  function Id(a: SignatureAlgorithm): (r: int)
    ensures r in WireIds() && WireIds()[r] == a
    ensures 0 < r < 0x1_0000
  {
    DescriptorOf(a).id
  }

  /** The content-digest kind: over the constant's hash, in 4 KB chunks exactly for the verity constants. */
  function DigestOf(a: SignatureAlgorithm): (r: ContentDigestAlgorithm)
    ensures r.Hash() == NamedHash(a)
    ensures r.IsVerity() <==> NamedVerity(a)
  {
    DescriptorOf(a).contentDigestAlgorithm
  }

  /** The JCA key algorithm: the one the constant's scheme uses, so one of "RSA", "EC", "DSA". */
  function JcaKeyAlgorithm(a: SignatureAlgorithm): (r: string)
    ensures r == NamedScheme(a).KeyAlgorithm()
    ensures r in {"RSA", "EC", "DSA"}
  {
    DescriptorOf(a).jcaKeyAlgorithm
  }

  /**
   The JCA signature algorithm name and its parameters. The name is the
   constant's scheme over the content digest's hash; parameters are present
   exactly for RSASSA-PSS and then match that same hash.
   */
  function JcaSignatureAlgorithmAndParams(a: SignatureAlgorithm): (r: SignatureAlgAndParams)
    ensures r.name == JcaSignatureName(DigestOf(a).Hash(), NamedScheme(a))
    ensures r.params.Pss? <==> NamedScheme(a) == RsaPss
    ensures r.params.Pss? ==> PssConsistentWith(r.params.spec, DigestOf(a).Hash())
  {
    var r := DescriptorOf(a).jcaSignatureAlgAndParams;
    assert r.name == JcaSignatureName(DigestOf(a).Hash(), NamedScheme(a)) by {
      Sha256SignatureNames();
      Sha512SignatureNames();
    }
    r
  }

  /** The minimum API level: Android P for the verity kinds, Android N for the 1 MB-chunk kinds. */
  function MinSdkVersion(a: SignatureAlgorithm): (r: int)
    ensures DigestOf(a).IsVerity() ==> r == AndroidSdkVersion.P
    ensures !DigestOf(a).IsVerity() ==> r == AndroidSdkVersion.N
  {
    DescriptorOf(a).minSdkVersion
  }

  /** No two different algorithms in `t` share an ID. */
  predicate IdsDistinct(t: seq<SignatureAlgorithm>) {
    forall a, b :: a in t && b in t && Id(a) == Id(b) ==> a == b
  }

  /** Position of the constant in declaration order. */
  function Ordinal(a: SignatureAlgorithm): nat {
    match a
    case RsaPssWithSha256 => 0
    case RsaPssWithSha512 => 1
    case RsaPkcs1V15WithSha256 => 2
    case RsaPkcs1V15WithSha512 => 3
    case EcdsaWithSha256 => 4
    case EcdsaWithSha512 => 5
    case DsaWithSha256 => 6
    case VerityRsaPkcs1V15WithSha256 => 7
    case VerityEcdsaWithSha256 => 8
    case VerityDsaWithSha256 => 9
  }

  /** All algorithms in declaration order: ten entries, each constant at its own position. */
  function Values(): (r: seq<SignatureAlgorithm>)
    ensures |r| == 10
    ensures forall a: SignatureAlgorithm :: Ordinal(a) < |r| && r[Ordinal(a)] == a
  {
    [ RsaPssWithSha256, RsaPssWithSha512, RsaPkcs1V15WithSha256, RsaPkcs1V15WithSha512,
      EcdsaWithSha256, EcdsaWithSha512, DsaWithSha256,
      VerityRsaPkcs1V15WithSha256, VerityEcdsaWithSha256, VerityDsaWithSha256 ]
  }

  /** No two entries of the table share an ID. */
  lemma TableIdsDistinct()
    ensures IdsDistinct(Values())
  {
    forall a, b | Id(a) == Id(b) ensures a == b {
      IdsUnique(a, b);
    }
  }

  /**
   Scan `t` front to back and return the first algorithm whose ID is `id`,
   or `None` when no element of `t` has that ID.
   */
  function FindIn(t: seq<SignatureAlgorithm>, id: int): (r: Option<SignatureAlgorithm>)
    ensures r.Some? ==> r.value in t && Id(r.value) == id
    ensures r.None? <==> forall a :: a in t ==> Id(a) != id
    ensures r.Some? ==>
      exists i :: 0 <= i < |t| && t[i] == r.value && forall j :: 0 <= j < i ==> Id(t[j]) != id
    decreases |t|
  {
    if |t| == 0 then None
    else if Id(t[0]) == id then Some(t[0])
    else
      var rest := FindIn(t[1..], id);
      assert rest.Some? ==> exists i :: 0 < i < |t| && t[i] == rest.value && forall j :: 0 <= j < i ==> Id(t[j]) != id by {
        if rest.Some? {
          var k :| 0 <= k < |t[1..]| && t[1..][k] == rest.value && forall j :: 0 <= j < k ==> Id(t[1..][j]) != id;
          assert t[k + 1] == rest.value;
          assert forall j :: 0 <= j < k + 1 ==> Id(t[j]) != id by {
            forall j | 0 <= j < k + 1 ensures Id(t[j]) != id {
              if j > 0 { assert t[j] == t[1..][j - 1]; }
            }
          }
        }
      }
      rest
  }

  /**
   Look up an algorithm by wire ID: the algorithm the wire format assigns to
   `id`, or `None` exactly for unassigned IDs.
   */
  function FindById(id: int): (r: Option<SignatureAlgorithm>)
    ensures r.Some? ==> Id(r.value) == id
    ensures r == (if id in WireIds() then Some(WireIds()[id]) else None)
  {
    var r := FindIn(Values(), id);
    assert r == (if id in WireIds() then Some(WireIds()[id]) else None) by {
      WireIdsAreTableIds(id);
    }
    r
  }

  /**
   An ID is assigned exactly when some algorithm in the table carries it, and
   the algorithm assigned to it carries it.
   */
  lemma WireIdsAreTableIds(id: int)
    ensures id in WireIds() <==> exists a :: a in Values() && Id(a) == id
    ensures id in WireIds() ==> Id(WireIds()[id]) == id
  {
    if id in WireIds() {
      var a :=
        if id == 0x0101 then RsaPssWithSha256
        else if id == 0x0102 then RsaPssWithSha512
        else if id == 0x0103 then RsaPkcs1V15WithSha256
        else if id == 0x0104 then RsaPkcs1V15WithSha512
        else if id == 0x0201 then EcdsaWithSha256
        else if id == 0x0202 then EcdsaWithSha512
        else if id == 0x0301 then DsaWithSha256
        else if id == 0x0421 then VerityRsaPkcs1V15WithSha256
        else if id == 0x0423 then VerityEcdsaWithSha256
        else VerityDsaWithSha256;
      assert Id(a) == id;
      assert WireIds()[id] == a;
      assert Values()[Ordinal(a)] == a;
    } else {
      forall a | a in Values() ensures Id(a) != id {
        assert Id(a) in WireIds();
      }
    }
  }

  /** Distinct algorithms have distinct wire IDs. */
  lemma IdsUnique(a: SignatureAlgorithm, b: SignatureAlgorithm)
    ensures Id(a) == Id(b) ==> a == b
  {
  }

  /**
   In a table where no two algorithms share an ID, scanning for an element's
   ID returns that element: the scan finds some element with the ID, and that
   can only be the element itself.
   */
  lemma FindInRoundTrip(t: seq<SignatureAlgorithm>, a: SignatureAlgorithm)
    requires IdsDistinct(t)
    requires a in t
    ensures FindIn(t, Id(a)) == Some(a)
  {
  }

  /** Every algorithm is found again by its own ID. */
  lemma FindByIdRoundTrip(a: SignatureAlgorithm)
    ensures FindById(Id(a)) == Some(a)
  {
    TableIdsDistinct();
    FindInRoundTrip(Values(), a);
  }

  /**
   The reserved ID 0x0000, the gaps 0x0422 and 0x0424, and 0xFFFFFFFF name no
   algorithm, whether 0xFFFFFFFF is read as unsigned or as the Java `int` -1.
   */
  lemma UnassignedIdsAbsent()
    ensures FindById(0x0000) == None
    ensures FindById(0x0422) == None
    ensures FindById(0x0424) == None
    ensures FindById(0xFFFF_FFFF) == None
    ensures FindById(-1) == None
  {
    assert 0x0000 !in WireIds();
    assert 0x0422 !in WireIds();
    assert 0x0424 !in WireIds();
    assert 0xFFFF_FFFF !in WireIds();
    assert -1 !in WireIds();
  }

  /**
   The two RSASSA-PSS algorithms are exactly the ones with parameters; every
   PKCS #1 v1.5, ECDSA and DSA algorithm carries none.
   */
  lemma PssExactlyTwo(a: SignatureAlgorithm)
    ensures JcaSignatureAlgorithmAndParams(a).params.Pss? <==> a == RsaPssWithSha256 || a == RsaPssWithSha512
    ensures NamedScheme(a) != RsaPss ==> JcaSignatureAlgorithmAndParams(a).params == NoParams
  {
  }

  /**
   The PSS parameters of 0x0101 and 0x0102: SHA-256 / MGF1-SHA-256 / 32-byte
   salt and SHA-512 / MGF1-SHA-512 / 64-byte salt, both with trailer 0xBC.
   */
  lemma PssParameters()
    ensures JcaSignatureAlgorithmAndParams(RsaPssWithSha256).params
      == Pss(PssParameterSpec("SHA-256", "MGF1", Mgf1ParameterSpec("SHA-256"), 32, 1))
    ensures JcaSignatureAlgorithmAndParams(RsaPssWithSha512).params
      == Pss(PssParameterSpec("SHA-512", "MGF1", Mgf1ParameterSpec("SHA-512"), 64, 1))
    ensures TrailerByte(1) == Some(0xBC)
  {
  }

  /**
   A JCA signature name determines the key algorithm and the content digest's
   hash: two algorithms with the same name agree on both.
   */
  lemma NameDeterminesKeyAndHash(a: SignatureAlgorithm, b: SignatureAlgorithm)
    requires JcaSignatureAlgorithmAndParams(a).name == JcaSignatureAlgorithmAndParams(b).name
    ensures JcaKeyAlgorithm(a) == JcaKeyAlgorithm(b)
    ensures DigestOf(a).Hash() == DigestOf(b).Hash()
  {
    JcaSignatureNameInjective(DigestOf(a).Hash(), NamedScheme(a), DigestOf(b).Hash(), NamedScheme(b));
  }

  /**
   A SHA-256 signature name goes with SHA-256 1 MB-chunk or verity content
   digests, a SHA-512 name with SHA-512 1 MB-chunk content digests; the name's
   "with..." suffix fixes the key algorithm.
   */
  lemma NameMatchesDigestAndKey(a: SignatureAlgorithm, h: HashAlgorithm, s: SignatureScheme)
    requires JcaSignatureAlgorithmAndParams(a).name == JcaSignatureName(h, s)
    ensures h == Sha256 ==> DigestOf(a) == ChunkedSha256 || DigestOf(a) == VerityChunkedSha256
    ensures h == Sha512 ==> DigestOf(a) == ChunkedSha512
    ensures JcaKeyAlgorithm(a) == s.KeyAlgorithm()
  {
    JcaSignatureNameInjective(DigestOf(a).Hash(), NamedScheme(a), h, s);
  }

  /**
   A verity algorithm needs a strictly later platform than the 1 MB-chunk
   algorithm with the same key family and hash, and such a counterpart, with
   the same signature algorithm and parameters, exists.
   */
  lemma VerityLaterThanChunked(v: SignatureAlgorithm)
    requires DigestOf(v).IsVerity()
    ensures forall c ::
      (!DigestOf(c).IsVerity() && JcaKeyAlgorithm(c) == JcaKeyAlgorithm(v)
       && DigestOf(c).Hash() == DigestOf(v).Hash()) ==> MinSdkVersion(v) > MinSdkVersion(c)
    ensures exists c ::
      && !DigestOf(c).IsVerity()
      && JcaKeyAlgorithm(c) == JcaKeyAlgorithm(v)
      && DigestOf(c).Hash() == DigestOf(v).Hash()
      && JcaSignatureAlgorithmAndParams(c) == JcaSignatureAlgorithmAndParams(v)
  {
    AndroidSdkVersion.NBeforeP();
    var c := match v
      case VerityRsaPkcs1V15WithSha256 => RsaPkcs1V15WithSha256
      case VerityEcdsaWithSha256 => EcdsaWithSha256
      case _ => DsaWithSha256;
    assert JcaSignatureAlgorithmAndParams(c) == JcaSignatureAlgorithmAndParams(v);
  }

  /** Lookup of 0x0101 yields RSASSA-PSS over SHA-256. */
  lemma LookupRsaPssSha256()
    ensures FindById(0x0101) == Some(RsaPssWithSha256)
  {
    assert 0x0101 in WireIds() && WireIds()[0x0101] == RsaPssWithSha256;
  }

  /** Lookup of 0x0201 yields ECDSA over SHA-256. */
  lemma LookupEcdsaSha256()
    ensures FindById(0x0201) == Some(EcdsaWithSha256)
  {
    assert 0x0201 in WireIds() && WireIds()[0x0201] == EcdsaWithSha256;
  }

  /** Lookup of 0x0423 yields ECDSA over SHA-256 with verity chunks. */
  lemma LookupVerityEcdsaSha256()
    ensures FindById(0x0423) == Some(VerityEcdsaWithSha256)
  {
    assert 0x0423 in WireIds() && WireIds()[0x0423] == VerityEcdsaWithSha256;
  }

  /**
   The key algorithms and content digests of the algorithms behind 0x0101,
   0x0201 and 0x0423: RSA keys for RSASSA-PSS, EC keys for both ECDSA entries,
   1 MB SHA-256 chunks for the first two and verity chunks for the last.
   */
  lemma LookupDescriptors()
    ensures JcaKeyAlgorithm(RsaPssWithSha256) == "RSA" && DigestOf(RsaPssWithSha256) == ChunkedSha256
    ensures JcaKeyAlgorithm(EcdsaWithSha256) == "EC" && DigestOf(EcdsaWithSha256) == ChunkedSha256
    ensures JcaKeyAlgorithm(VerityEcdsaWithSha256) == "EC" && DigestOf(VerityEcdsaWithSha256) == VerityChunkedSha256
  {
  }

  /**
   The signature algorithms and platform levels of 0x0101, 0x0201 and 0x0423:
   RSASSA-PSS over SHA-256 with its parameters at level N, parameterless ECDSA
   over SHA-256 at level N, and the same ECDSA at the strictly later level P.
   */
  lemma LookupSignatureAlgorithms()
    ensures JcaSignatureAlgorithmAndParams(RsaPssWithSha256)
      == SignatureAlgAndParams("SHA256withRSA/PSS",
           Pss(PssParameterSpec("SHA-256", "MGF1", Mgf1ParameterSpec("SHA-256"), 32, 1)))
    ensures JcaSignatureAlgorithmAndParams(EcdsaWithSha256) == SignatureAlgAndParams("SHA256withECDSA", NoParams)
    ensures JcaSignatureAlgorithmAndParams(VerityEcdsaWithSha256) == SignatureAlgAndParams("SHA256withECDSA", NoParams)
    ensures MinSdkVersion(RsaPssWithSha256) == MinSdkVersion(EcdsaWithSha256) == AndroidSdkVersion.N
    ensures MinSdkVersion(VerityEcdsaWithSha256) == AndroidSdkVersion.P
    ensures MinSdkVersion(VerityEcdsaWithSha256) > MinSdkVersion(EcdsaWithSha256)
  {
  }
}
