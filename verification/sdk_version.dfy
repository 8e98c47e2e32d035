/**
 The Android platform API levels the table refers to. The defining class is
 not part of this model; the two levels used are fixed here to their platform
 values (Android N = API level 24, Android P = API level 28).
 */
module AndroidSdkVersion {

  /** Android 7.0: APK Signature Scheme v2 and the 1 MB-chunk algorithms. */
  const N: int := 24

  /** Android 9: the fs-verity style 4 KB-chunk algorithms. */
  const P: int := 28

  /** The only ordering fact the table relies on: N is older than P. */
  lemma NBeforeP()
    ensures N < P
  {
  }
}
