// The configuration of src/config.rs: its default values and `validate`.

module Settings {
  import opened Wrappers
  import opened Text

  newtype i32 = x: int | -0x8000_0000 <= x < 0x8000_0000
  newtype u64 = x: int | 0 <= x < 0x1_0000_0000_0000_0000
  /** `usize` on a 64-bit target. */
  newtype usize = x: int | 0 <= x < 0x1_0000_0000_0000_0000

  datatype UiConfig = UiConfig(theme: string, defaultExpandedDepth: i32)
  datatype StreamingConfig = StreamingConfig(thresholdBytes: u64, enabled: bool)
  datatype NavigationConfig = NavigationConfig(pageScrollLines: usize)
  datatype Config = Config(ui: UiConfig, streaming: StreamingConfig, navigation: NavigationConfig)

  function DefaultTheme(): string { "dark" }
  function DefaultExpandedDepth(): i32 { 0 }
  function DefaultStreamingThreshold(): u64 { 100 * 1024 * 1024 }
  function DefaultStreamingEnabled(): bool { true }
  function DefaultPageScrollLines(): usize { 10 }

  /** The `Default` impls: every field takes its default value function. */
  function DefaultConfig(): (c: Config)
    ensures c.ui.theme == "dark" && c.ui.defaultExpandedDepth == 0
    ensures c.streaming.thresholdBytes as int == 104_857_600 && c.streaming.enabled
    ensures c.navigation.pageScrollLines == 10
  {
    Config.Config(
      UiConfig(DefaultTheme(), DefaultExpandedDepth()),
      StreamingConfig(DefaultStreamingThreshold(), DefaultStreamingEnabled()),
      NavigationConfig(DefaultPageScrollLines()))
  }

  predicate ThemeOk(c: Config) {
    c.ui.theme == "dark" || c.ui.theme == "light"
  }

  predicate DepthOk(c: Config) {
    c.ui.defaultExpandedDepth >= -1
  }

  predicate ThresholdOk(c: Config) {
    c.streaming.thresholdBytes != 0
  }

  predicate PageScrollOk(c: Config) {
    c.navigation.pageScrollLines != 0
  }

  function ThemeError(c: Config): XtvError {
    XtvError.Config("Invalid theme '" + c.ui.theme + "'. Must be 'dark' or 'light'")
  }

  function DepthError(c: Config): XtvError {
    XtvError.Config("Invalid default_expanded_depth " + IntToString(c.ui.defaultExpandedDepth as int) + ". Must be >= -1")
  }

  const ThresholdError: XtvError := XtvError.Config("Invalid streaming threshold: must be > 0")
  const PageScrollError: XtvError := XtvError.Config("Invalid page_scroll_lines: must be > 0")

  /** `validate`: the config passes exactly when all four checks do; the
      checks run in the order theme, depth, threshold, page scroll and the
      first that fails names the error. */
  function Validate(c: Config): (r: Result<(), XtvError>)
    ensures r.Ok? <==> ThemeOk(c) && DepthOk(c) && ThresholdOk(c) && PageScrollOk(c)
    ensures r.Err? ==> r.error.Config?
    ensures !ThemeOk(c) ==> r == Err(ThemeError(c))
    ensures ThemeOk(c) && !DepthOk(c) ==> r == Err(DepthError(c))
    ensures ThemeOk(c) && DepthOk(c) && !ThresholdOk(c) ==> r == Err(ThresholdError)
    ensures ThemeOk(c) && DepthOk(c) && ThresholdOk(c) && !PageScrollOk(c) ==> r == Err(PageScrollError)
  {
    if c.ui.theme != "dark" && c.ui.theme != "light" then Err(ThemeError(c))
    else if c.ui.defaultExpandedDepth < -1 then Err(DepthError(c))
    else if c.streaming.thresholdBytes == 0 then Err(ThresholdError)
    else if c.navigation.pageScrollLines == 0 then Err(PageScrollError)
    else Ok(())
  }

  /** The default configuration is valid. */
  lemma DefaultIsValid()
    ensures Validate(DefaultConfig()) == Ok(())
  {
  }

  /** Depth -1 ("fully expanded") is the smallest accepted depth. */
  lemma DepthBoundary(c: Config)
    requires ThemeOk(c) && ThresholdOk(c) && PageScrollOk(c)
    ensures Validate(c.(ui := c.ui.(defaultExpandedDepth := -1))).Ok?
    ensures Validate(c.(ui := c.ui.(defaultExpandedDepth := -2))).Err?
  {
  }

  /** Changing one field of the default to a value its check rejects is
      reported as that check's error. */
  lemma DefaultWithOneBadField(theme: string)
    requires theme != "dark" && theme != "light"
    ensures var d := DefaultConfig();
      && Validate(d.(ui := d.ui.(theme := theme))) == Err(XtvError.Config("Invalid theme '" + theme + "'. Must be 'dark' or 'light'"))
      && Validate(d.(streaming := d.streaming.(thresholdBytes := 0))) == Err(ThresholdError)
      && Validate(d.(navigation := NavigationConfig(0))) == Err(PageScrollError)
  {
  }

  /** The four error messages differ, so the error tells which check
      failed. */
  lemma ErrorsDistinct(c: Config)
    ensures ThemeError(c) != ThresholdError && ThemeError(c) != PageScrollError
    ensures DepthError(c) != ThresholdError && DepthError(c) != PageScrollError
    ensures ThresholdError != PageScrollError
    ensures ThemeError(c) != DepthError(c)
  {
    var t, d := ThemeError(c).message, DepthError(c).message;
    assert t[8] == 't' && d[8] == 'd';
    assert ThresholdError.message[8] == 's' && PageScrollError.message[8] == 'p';
  }
}
