# APK Signing Block signature-algorithm registry, in Dafny

This project models the signature-algorithm registry of apksig: the closed
table of the ten algorithms that may appear in an APK Signing Block. Each
algorithm binds a wire-format ID to four things:

- a content-digest kind (SHA-256 or SHA-512 over 1 MB chunks, or SHA-256 over
  4 KB chunks as fs-verity does);
- a JCA key algorithm ("RSA", "EC" or "DSA");
- a JCA signature algorithm name with optional RSASSA-PSS parameters;
- a minimum Android API level.

The registry's one lookup, `findById`, scans the table in declaration order. It
returns the first algorithm with the requested ID, or nothing.

Files:

- `signature_algorithm.dfy` (module `SignatureAlgorithms`) holds the following:
  - the ten constants as an enumeration;
  - the wire-ID assignment written out on its own (`WireIds`), the
    constructor arguments (`DescriptorOf`) that must agree with it, and the
    five accessors;
  - the table in declaration order (`Values`);
  - the first-match scan (`FindIn`) and `FindById`, which returns an `Option`
    instead of null;
  - the lemmas about the table.
- `jca_spec.dfy` (module `JcaSpec`) holds value models of the JCA parameter
  objects: `PSSParameterSpec`, `MGF1ParameterSpec`, and the (name, parameters)
  pair, where a null parameter object becomes `NoParams`. It also holds the JCA
  signature-name convention `<hash>with<scheme>` and the trailer-field meaning
  from Appendix A.2.3 of RFC 8017, where trailer field 1 denotes the byte 0xBC.
- `content_digest.dfy` (module `Digests`) holds the three content-digest kinds
  and the SHA-2 hash under each.
- `sdk_version.dfy` (module `AndroidSdkVersion`) fixes the API levels as
  N = 24 and P = 28.
- `wrappers.dfy` (module `Wrappers`) holds `Option`.

The cross-field checks use an independent reference: what each constant's own
name promises.

- `NamedScheme`, `NamedHash` and `NamedVerity` read the scheme, the hash and
  the `VERITY_` prefix off the constant's name.
- The accessors' contracts state that the stored data agrees with that
  reference.
- `JcaSpec.JcaSignatureNameInjective` shows that a JCA signature name determines
  its hash and its scheme. So the name alone fixes the key algorithm and the
  digest hash.

## Model

| member | source | states |
|---|---|---|
| SignatureAlgorithms.DescriptorOf | src/main/java/com/android/apksig/internal/apk/SignatureAlgorithm.java:34-157 | each constant's constructor arguments carry the wire ID that the APK Signing Block format assigns to that constant, as listed in `WireIds` (0x0101 for RSA-PSS with SHA-256, ..., 0x0425 for verity DSA with SHA-256) |
| SignatureAlgorithms.Id | src/main/java/com/android/apksig/internal/apk/SignatureAlgorithm.java:34-164 | `getId` returns the wire ID assigned to the constant in `WireIds`, never another constant's; every wire ID is non-zero and fits in 16 bits |
| SignatureAlgorithms.DigestOf | src/main/java/com/android/apksig/internal/apk/SignatureAlgorithm.java:34-171 | the content digest uses the hash the constant's name gives, and is the 4 KB verity kind exactly for the VERITY_ constants |
| SignatureAlgorithms.JcaKeyAlgorithm | src/main/java/com/android/apksig/internal/apk/SignatureAlgorithm.java:34-178 | the key algorithm is the one the constant's scheme signs with (RSA for PKCS #1 v1.5 and PSS, EC for ECDSA, DSA for DSA), so always one of "RSA", "EC", "DSA" |
| SignatureAlgorithms.JcaSignatureAlgorithmAndParams | src/main/java/com/android/apksig/internal/apk/SignatureAlgorithm.java:34-186 | the signature name is the JCA name of the constant's scheme over the content digest's hash; parameters are present exactly for RSASSA-PSS, and then the message hash is the digest's hash, MGF1 uses that same hash, the salt length equals the hash output length, and the trailer is 0xBC |
| SignatureAlgorithms.MinSdkVersion | src/main/java/com/android/apksig/internal/apk/SignatureAlgorithm.java:34-190 | the minimum API level is P for every verity algorithm and N for every 1 MB-chunk algorithm |
| SignatureAlgorithms.Values | src/main/java/com/android/apksig/internal/apk/SignatureAlgorithm.java:28-139 | the table has ten entries and lists every constant at its declaration position |
| SignatureAlgorithms.TableIdsDistinct | src/main/java/com/android/apksig/internal/apk/SignatureAlgorithm.java:34-139 | no two different entries of the table share a wire ID |
| SignatureAlgorithms.FindIn | src/main/java/com/android/apksig/internal/apk/SignatureAlgorithm.java:192-200 | the scan returns an element of the table carrying the requested ID, and no earlier element carries it; it returns nothing exactly when no element carries the ID |
| SignatureAlgorithms.FindById | src/main/java/com/android/apksig/internal/apk/SignatureAlgorithm.java:192-200 | a found algorithm carries the requested ID; lookup yields exactly the algorithm `WireIds` assigns to the ID, and nothing for every ID outside the ten assigned ones; it never fails in any other way |
| SignatureAlgorithms.WireIdsAreTableIds | src/main/java/com/android/apksig/internal/apk/SignatureAlgorithm.java:34-139 | the ten assigned IDs 0x0101, 0x0102, 0x0103, 0x0104, 0x0201, 0x0202, 0x0301, 0x0421, 0x0423, 0x0425 are exactly the IDs carried by the table, and the algorithm assigned to an ID carries it |
| SignatureAlgorithms.IdsUnique | src/main/java/com/android/apksig/internal/apk/SignatureAlgorithm.java:34-139 | distinct algorithms have distinct wire IDs; the ten IDs are pairwise different |
| SignatureAlgorithms.FindInRoundTrip | src/main/java/com/android/apksig/internal/apk/SignatureAlgorithm.java:192-200 | in any table whose IDs are distinct, scanning for an element's ID returns that element |
| SignatureAlgorithms.FindByIdRoundTrip | src/main/java/com/android/apksig/internal/apk/SignatureAlgorithm.java:192-200 | every algorithm is found again by its own ID |
| SignatureAlgorithms.UnassignedIdsAbsent | src/main/java/com/android/apksig/internal/apk/SignatureAlgorithm.java:29-200 | lookup of the reserved ID 0x0000, of the gaps 0x0422 and 0x0424, and of 0xFFFFFFFF yields nothing, whether 0xFFFFFFFF is read as unsigned or as the Java `int` -1 |
| SignatureAlgorithms.PssExactlyTwo | src/main/java/com/android/apksig/internal/apk/SignatureAlgorithm.java:34-139 | only the two RSASSA-PSS algorithms carry parameters; every PKCS #1 v1.5, ECDSA and DSA algorithm carries none, not a default |
| SignatureAlgorithms.PssParameters | src/main/java/com/android/apksig/internal/apk/SignatureAlgorithm.java:30-55 | 0x0101 uses SHA-256, MGF1 with SHA-256, a 32-byte salt and trailer field 1; 0x0102 uses SHA-512, MGF1 with SHA-512, a 64-byte salt and trailer field 1; trailer field 1 means 0xBC |
| SignatureAlgorithms.NameDeterminesKeyAndHash | src/main/java/com/android/apksig/internal/apk/SignatureAlgorithm.java:34-139 | two algorithms with the same JCA signature name have the same key algorithm and the same digest hash |
| SignatureAlgorithms.NameMatchesDigestAndKey | src/main/java/com/android/apksig/internal/apk/SignatureAlgorithm.java:34-139 | a SHA-256 signature name goes with a CHUNKED_SHA256 or VERITY_CHUNKED_SHA256 digest, a SHA-512 name goes with CHUNKED_SHA512, and the name's "with..." suffix fixes the key algorithm |
| SignatureAlgorithms.VerityLaterThanChunked | src/main/java/com/android/apksig/internal/apk/SignatureAlgorithm.java:75-139 | every verity algorithm requires a strictly later API level than any 1 MB-chunk algorithm with the same key algorithm and hash, and such a counterpart exists with the same signature name and parameters |
| SignatureAlgorithms.LookupRsaPssSha256 | src/main/java/com/android/apksig/internal/apk/SignatureAlgorithm.java:30-41 | lookup of 0x0101 returns RSA-PSS with SHA-256 |
| SignatureAlgorithms.LookupEcdsaSha256 | src/main/java/com/android/apksig/internal/apk/SignatureAlgorithm.java:75-82 | lookup of 0x0201 returns ECDSA with SHA-256 |
| SignatureAlgorithms.LookupVerityEcdsaSha256 | src/main/java/com/android/apksig/internal/apk/SignatureAlgorithm.java:115-126 | lookup of 0x0423 returns verity ECDSA with SHA-256 |
| SignatureAlgorithms.LookupDescriptors | src/main/java/com/android/apksig/internal/apk/SignatureAlgorithm.java:30-126 | RSA-PSS with SHA-256 uses RSA keys and CHUNKED_SHA256; ECDSA with SHA-256 uses EC keys and CHUNKED_SHA256; verity ECDSA with SHA-256 uses EC keys and VERITY_CHUNKED_SHA256 |
| SignatureAlgorithms.LookupSignatureAlgorithms | src/main/java/com/android/apksig/internal/apk/SignatureAlgorithm.java:30-126 | RSA-PSS with SHA-256 signs as SHA256withRSA/PSS with SHA-256, MGF1 over SHA-256, a 32-byte salt and trailer field 1, at level N; both ECDSA with SHA-256 entries sign as SHA256withECDSA with no parameters, the plain one at level N and the verity one at level P, strictly later |
| JcaSpec.JcaSignatureNameInjective | src/main/java/com/android/apksig/internal/apk/SignatureAlgorithm.java:34-139 | a JCA signature name of the form `<hash>with<scheme>` determines both its hash and its scheme |
| AndroidSdkVersion.NBeforeP | src/main/java/com/android/apksig/internal/apk/SignatureAlgorithm.java:107-113 | the 1 MB-chunk level N is earlier than the verity level P |

## Left out

- The definitions of `ContentDigestAlgorithm` and `AndroidSdkVersion` are not part of this model. The model keeps only the three digest kinds with their hashes, and the two levels N = 24 and P = 28. These are the real platform values; only N < P is relied on.
- The JCA classes `PSSParameterSpec`, `MGF1ParameterSpec` and `AlgorithmParameterSpec`, and the `Pair` utility, are foreign. They are modelled as plain records with the same fields. A null parameter object becomes `NoParams`.
- Hashing, signing and verification are not modelled, including how chunked and verity digests are computed. The registry only describes these operations.
- Java enum machinery beyond the declaration order is not modelled: ordinal lookup, `valueOf` and reflection. The table is the sequence `Values`, and the for-each loop of `findById` is the recursive scan `FindIn` over it.
- Java `int` signedness and width are not modelled. The code stores IDs in a Java `int`, and the model follows the code rather than treating IDs as unsigned 32-bit values. `FindById` accepts any integer, and every assigned ID fits in 16 bits.
