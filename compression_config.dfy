/** The four image-compression presets: target resolution, default JPEG
    quality, the size limits and quality for the logo, the checkbox images
    and the report photos, and the image load timeout. Presets built with an
    object spread take the default's values for the fields they do not set. */
module CompressionConfig {

  /** A size limit and the JPEG quality used with it. */
  datatype Dimensions = Dimensions(width: int, height: int, quality: real)

  datatype Config = Config(
    targetDPI: int,
    defaultQuality: real,
    logoMaxDimensions: Dimensions,
    checkboxMaxDimensions: Dimensions,
    reportImageDimensions: Dimensions,
    loadTimeout: int)

  const DefaultConfig: Config := Config(
    250, 0.85,
    Dimensions(50, 50, 0.9),
    Dimensions(16, 16, 0.8),
    Dimensions(1200, 900, 1.0),
    10000)

  /** The high-quality preset: the default with its resolution, quality, logo
      and checkbox limits replaced. */
  const HighQualityConfig: Config := DefaultConfig.(
    targetDPI := 200,
    defaultQuality := 0.9,
    logoMaxDimensions := DefaultConfig.logoMaxDimensions.(width := 160, height := 160, quality := 0.95),
    checkboxMaxDimensions := DefaultConfig.checkboxMaxDimensions.(width := 32, height := 32, quality := 0.9))

  /** The ultra-compact preset, written out in full. */
  const UltraCompactConfig: Config := Config(
    250, 0.75,
    Dimensions(40, 40, 0.85),
    Dimensions(12, 12, 0.75),
    Dimensions(800, 600, 0.8),
    10000)

  /** The compact preset: the default with everything but the timeout replaced. */
  const CompactConfig: Config := DefaultConfig.(
    targetDPI := 250,
    defaultQuality := 0.8,
    logoMaxDimensions := Dimensions(45, 45, 0.85),
    checkboxMaxDimensions := Dimensions(14, 14, 0.8),
    reportImageDimensions := Dimensions(1000, 750, 0.9))

  const Presets: seq<Config> := [DefaultConfig, HighQualityConfig, UltraCompactConfig, CompactConfig]

  predicate ValidQuality(q: real)
  {
    0.0 < q <= 1.0
  }

  predicate ValidDimensions(d: Dimensions)
  {
    d.width > 0 && d.height > 0 && ValidQuality(d.quality)
  }

  /** A usable preset: qualities in (0, 1], every size, resolution and timeout positive. */
  predicate ValidConfig(c: Config)
  {
    c.targetDPI > 0 && ValidQuality(c.defaultQuality) && c.loadTimeout > 0
    && ValidDimensions(c.logoMaxDimensions) && ValidDimensions(c.checkboxMaxDimensions)
    && ValidDimensions(c.reportImageDimensions)
  }

  /** Every preset is usable. */
  lemma PresetsValid()
    ensures forall c :: c in Presets ==> ValidConfig(c)
  {
  }

  /** Report photos are limited to a 4:3 box in every preset. */
  lemma ReportFourByThree()
    ensures forall c :: c in Presets ==> 3 * c.reportImageDimensions.width == 4 * c.reportImageDimensions.height
  {
  }

  /** What the spreads carry over: the high-quality preset keeps the
      default's report limits and timeout, the compact one its timeout. */
  lemma SpreadInheritance()
    ensures HighQualityConfig.reportImageDimensions == DefaultConfig.reportImageDimensions
    ensures HighQualityConfig.loadTimeout == DefaultConfig.loadTimeout
    ensures CompactConfig.loadTimeout == DefaultConfig.loadTimeout
    ensures HighQualityConfig.logoMaxDimensions != DefaultConfig.logoMaxDimensions
  {
  }
}
