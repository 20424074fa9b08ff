/** The per-photo record kept in the preferences store (app/.../PhotoMetadata.kt) and how a capture fills it. */
module Metadata {
  import opened Wrappers

  /** `aperture` is a Kotlin Float and `shutterSpeed` a Long of nanoseconds. */
  datatype PhotoMetadata = PhotoMetadata(
    imagePath: string,
    aspectRatio: string,
    iso: int,
    aperture: real,
    shutterSpeed: int,
    notes: string)

  /** Records are stored under this prefix followed by the photo's path. */
  const MetadataKeyPrefix: string := "metadata_"

  function MetadataKey(path: string): string {
    MetadataKeyPrefix + path
  }

  /** The record the detail screen creates when a photo has none: format "N/A", no exposure data, no notes. */
  function DefaultFor(path: string): (m: PhotoMetadata)
    ensures m.imagePath == path && m.notes == ""
    ensures m.aspectRatio == "N/A" && m.iso == 0 && m.aperture == 0.0 && m.shutterSpeed == 0
  {
    PhotoMetadata(path, "N/A", 0, 0.0, 0, "")
  }

  /**
   * What the capture reads from the file's EXIF block: the ISO speed (0 when absent), and
   * the exposure time in seconds and the f-number as parsed from their text (None when the
   * text does not parse; an absent exposure time reads as the text "0.0").
   */
  datatype ExifReading = ExifReading(iso: int, exposureSeconds: Option<real>, fNumber: Option<real>)

  const NanosPerSecond: int := 1000000000

  /** Kotlin's Float.toLong: the integer part, rounding toward zero. */
  function Truncate(x: real): (n: int)
    ensures x >= 0.0 ==> n as real <= x < n as real + 1.0
    ensures x < 0.0 ==> n as real - 1.0 < x <= n as real
  {
    if x >= 0.0 then x.Floor else -((-x).Floor)
  }

  /**
   * The exposure in nanoseconds as the capture code computes it: the scale factor binds to
   * the fallback only, so a parsed time is truncated to whole seconds.
   */
  function ExposureNanosAsWritten(seconds: Option<real>): (n: int)
    ensures seconds.None? ==> n == 0
    ensures seconds.Some? ==> n == Truncate(seconds.value)
  {
    match seconds
    case None => Truncate(0.0 * NanosPerSecond as real)
    case Some(s) => Truncate(s)
  }

  /** The exposure in nanoseconds as evidently intended: the parsed time scaled, then truncated. */
  function ExposureNanos(seconds: Option<real>): (n: int)
    ensures seconds.None? ==> n == 0
    ensures seconds.Some? && seconds.value >= 0.0 ==>
      n as real <= seconds.value * NanosPerSecond as real < n as real + 1.0
  {
    match seconds
    case None => 0
    case Some(s) => Truncate(s * NanosPerSecond as real)
  }

  /** As written, every exposure shorter than a second is recorded as zero nanoseconds. */
  lemma SubSecondExposureLost(s: real)
    requires 0.0 <= s < 1.0
    ensures ExposureNanosAsWritten(Some(s)) == 0
  {
  }

  /** A 1/125 s exposure: 0 ns as written, 8,000,000 ns as intended. */
  lemma EighthOfMillisecondExample()
    ensures ExposureNanosAsWritten(Some(0.008)) == 0
    ensures ExposureNanos(Some(0.008)) == 8000000
  {
    assert 0.008 * NanosPerSecond as real == 8000000.0;
  }

  /**
   * `savePhotoMetadata`'s record: the file's path, the format selected at capture, the
   * EXIF values (0 for an unparsable f-number) and no notes.
   */
  function CapturedMetadata(path: string, format: string, exif: ExifReading): (m: PhotoMetadata)
    ensures m.imagePath == path && m.aspectRatio == format && m.iso == exif.iso && m.notes == ""
    ensures m.aperture == exif.fNumber.GetOr(0.0)
    ensures m.shutterSpeed == ExposureNanos(exif.exposureSeconds)
  {
    PhotoMetadata(path, format, exif.iso, exif.fNumber.GetOr(0.0), ExposureNanos(exif.exposureSeconds), "")
  }
}
