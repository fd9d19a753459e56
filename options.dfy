/**
 * The option defaulting at the top of `go` (routines/img.mjs): each option
 * starts at its default and is overwritten when the command line gives a
 * usable value.
 */
module Options {
  import opened Wrappers

  /** What `parseInt` yields for an option's text: NaN or an integer. */
  datatype Parsed = NaN | Int(v: int)

  /**
   * The options as they reach `go`: `None` for an absent or falsy value; for a
   * numeric option, `Some` holds what `parseInt` makes of the value.
   */
  datatype Argv = Argv(
    width: Option<Parsed>,
    quality: Option<Parsed>,
    pattern: Option<string>,
    fileName: Option<string>,
    maxFileSize: Option<Parsed>,
    minFileSize: Option<Parsed>)

  datatype Config = Config(
    targetWidth: int,
    quality: int,
    pattern: string,
    targetFileName: string,
    maxFileSize: int,
    minFileSize: int)

  const DefaultWidth := 1024
  const DefaultQuality := 80
  const DefaultPattern := "**/*.jpg"
  const DefaultFileName := "atlas.jpg"
  const DefaultMaxFileSize := 3 * 1024 * 1024
  const DefaultMinFileSize := 3 * 1024

  /** `parseInt(arg) || default` picks the parsed value: it is a number and not zero. */
  predicate Overrides(arg: Option<Parsed>)
  {
    arg.Some? && arg.value.Int? && arg.value.v != 0
  }

  /** A string option replaces its default when it is present and not the (falsy) empty string. */
  predicate Replaces(arg: Option<string>)
  {
    arg.Some? && arg.value != ""
  }

  /** The value a numeric option ends up with. */
  predicate NumberOption(arg: Option<Parsed>, default: int, value: int)
  {
    && (Overrides(arg) ==> value == arg.value.v)
    && (!Overrides(arg) ==> value == default)
  }

  /** `cfg` is the configuration `go` derives from `argv`. */
  predicate ConfigFrom(argv: Argv, cfg: Config)
  {
    && NumberOption(argv.width, DefaultWidth, cfg.targetWidth)
    && NumberOption(argv.quality, DefaultQuality, cfg.quality)
    && cfg.pattern == (if Replaces(argv.pattern) then argv.pattern.value else DefaultPattern)
    && cfg.targetFileName == (if Replaces(argv.fileName) then argv.fileName.value else DefaultFileName)
    && NumberOption(argv.maxFileSize, DefaultMaxFileSize, cfg.maxFileSize)
    && NumberOption(argv.minFileSize, DefaultMinFileSize, cfg.minFileSize)
  }

  /** `parseInt(arg) || current`. */
  function OrCurrent(parsed: Parsed, current: int): int
  {
    match parsed
    case Int(v) => if v != 0 then v else current
    case NaN => current
  }

  /**
   * The `let` declarations and conditional reassignments of `go`. A NaN or a
   * zero falls back to the default; any other integer is kept as it is, so a
   * negative width or a quality above 100 passes through.
   */
  method ReadOptions(argv: Argv) returns (cfg: Config)
    ensures ConfigFrom(argv, cfg)
    ensures argv.width == Some(NaN) || argv.width == Some(Int(0)) ==> cfg.targetWidth == 1024
    ensures argv.quality == Some(Int(150)) ==> cfg.quality == 150
    ensures argv.minFileSize == Some(Int(-1)) ==> cfg.minFileSize == -1
  {
    var targetWidth := DefaultWidth;
    if argv.width.Some? {
      targetWidth := OrCurrent(argv.width.value, targetWidth);
    }

    var quality := DefaultQuality;
    if argv.quality.Some? {
      quality := OrCurrent(argv.quality.value, quality);
    }

    var pattern := DefaultPattern;
    if argv.pattern.Some? && argv.pattern.value != "" {
      pattern := argv.pattern.value;
    }

    var targetFileName := DefaultFileName;
    if argv.fileName.Some? && argv.fileName.value != "" {
      targetFileName := argv.fileName.value;
    }

    var maxFileSize := DefaultMaxFileSize;
    if argv.maxFileSize.Some? {
      maxFileSize := OrCurrent(argv.maxFileSize.value, maxFileSize);
    }

    var minFileSize := DefaultMinFileSize;
    if argv.minFileSize.Some? {
      minFileSize := OrCurrent(argv.minFileSize.value, minFileSize);
    }

    cfg := Config(targetWidth, quality, pattern, targetFileName, maxFileSize, minFileSize);
  }
}
