/**
 Content-digest kinds referenced by the signature-algorithm table, and the
 message-digest (hash) each of them is built on. The full definition of the
 content-digest enumeration is not part of this model: only the three kinds
 the table names, and the hash underlying each, are modelled.
 */
module Digests {

  /** The SHA-2 hash functions the table relies on. */
  datatype HashAlgorithm = Sha256 | Sha512 {

    /** The JCA standard name of the hash ("SHA-256", "SHA-512"). */
    function JcaName(): string {
      match this
      case Sha256 => "SHA-256"
      case Sha512 => "SHA-512"
    }

    /** The token naming the hash inside JCA signature algorithm names ("SHA256withRSA"). */
    function SignatureToken(): string {
      match this
      case Sha256 => "SHA256"
      case Sha512 => "SHA512"
    }

    /** Output length of the hash in bytes: its bit length divided by eight. */
    function OutputSizeBytes(): nat {
      match this
      case Sha256 => 256 / 8
      case Sha512 => 512 / 8
    }
  }

  /**
   How the signed content is digested: SHA-256 or SHA-512 over 1 MB chunks,
   or SHA-256 over 4 KB chunks as fs-verity does (the verity kind).
   */
  datatype ContentDigestAlgorithm = ChunkedSha256 | ChunkedSha512 | VerityChunkedSha256 {

    /** The hash every chunk (and the top-level digest) is computed with. */
    function Hash(): HashAlgorithm {
      match this
      case ChunkedSha256 => Sha256
      case ChunkedSha512 => Sha512
      case VerityChunkedSha256 => Sha256
    }

    /** True for the fs-verity style 4 KB chunking. */
    predicate IsVerity() {
      VerityChunkedSha256?
    }
  }
}
