/** The configuration snapshot of src/config.rs: window origin and geometry
    parsing, style rules, application colours and per-urgency settings. */
module Config {
  import opened Wrappers
  import opened Integers
  import opened Text
  import opened Glob

  /** The error kinds the modelled operations return. */
  datatype Error = ConfigError(message: string) | ScanfError

  // ----- Origin -----

  /** The screen corner from which the window offsets are measured. */
  datatype Origin = TopLeft | TopRight | BottomLeft | BottomRight

  /** `Display for Origin`: the hyphenated name, never the compact spelling. */
  function OriginName(o: Origin): (name: string)
    ensures '-' in name && name != CompactName(o)
  {
    match o
    case TopLeft => "top-left"
    case TopRight => "top-right"
    case BottomLeft => "bottom-left"
    case BottomRight => "bottom-right"
  }

  /** The spelling without the hyphen that parsing also accepts. */
  function CompactName(o: Origin): string
  {
    match o
    case TopLeft => "topleft"
    case TopRight => "topright"
    case BottomLeft => "bottomleft"
    case BottomRight => "bottomright"
  }

  /** The origin a lower-cased spelling names, if any: the `match` of
      `FromStr for Origin`. */
  function OriginNamed(l: string): (r: Option<Origin>)
    ensures forall o :: r == Some(o) <==> l == OriginName(o) || l == CompactName(o)
  {
    if l == "top-left" || l == "topleft" then Some(TopLeft)
    else if l == "top-right" || l == "topright" then Some(TopRight)
    else if l == "bottom-left" || l == "bottomleft" then Some(BottomLeft)
    else if l == "bottom-right" || l == "bottomright" then Some(BottomRight)
    else None
  }

  /** `FromStr for Origin`. */
  function ParseOrigin(s: string): (r: Result<Origin, Error>)
    ensures forall o :: r == Ok(o) <==> Lower(s) == OriginName(o) || Lower(s) == CompactName(o)
    ensures r.Err? ==> r.error == ConfigError("invalid origin: " + s)
  {
    match OriginNamed(Lower(s))
    case Some(o) => Ok(o)
    case None => Err(ConfigError("invalid origin: " + s))
  }

  /** Parsing the displayed name of an origin gives that origin back. */
  lemma OriginRoundTrip(o: Origin)
    ensures ParseOrigin(OriginName(o)) == Ok(o)
  {
    var name := OriginName(o);
    assert forall i :: 0 <= i < |name| ==> !('A' <= name[i] <= 'Z');
    LowerOfLowercase(name);
  }

  /** Parsing ignores case: a string and its lower-case form parse alike. */
  lemma ParseOriginCaseInsensitive(s: string)
    ensures ParseOrigin(Lower(s)).Ok? == ParseOrigin(s).Ok?
    ensures ParseOrigin(s).Ok? ==> ParseOrigin(Lower(s)) == ParseOrigin(s)
  {
    LowerIdempotent(s);
  }

  // ----- Geometry -----

  /** Window geometry: size and the offsets from the origin corner. */
  datatype Geometry = Geometry(width: U32, height: U32, x: U32, y: U32)

  predicate IsDigit(c: char)
  {
    '0' <= c <= '9'
  }

  /** A non-empty run of decimal digits. */
  predicate IsDigits(s: string)
  {
    |s| > 0 && forall i :: 0 <= i < |s| ==> IsDigit(s[i])
  }

  /** The value of a decimal digit string. */
  function DigitsValue(s: string): nat
    requires forall i :: 0 <= i < |s| ==> IsDigit(s[i])
  {
    if s == [] then 0
    else
      assert IsDigit(s[|s| - 1]);
      DigitsValue(s[..|s| - 1]) * 10 + (s[|s| - 1] as int - '0' as int)
  }

  /** The length of the digit run at the start of `s`. */
  function DigitRun(s: string): (n: nat)
    ensures n <= |s|
    ensures forall i :: 0 <= i < n ==> IsDigit(s[i])
    ensures n < |s| ==> !IsDigit(s[n])
  {
    if s == [] || !IsDigit(s[0]) then 0 else 1 + DigitRun(s[1..])
  }

  /** One `{u32}` field of the scanner: a digit run whose value fits in 32
      bits, and the text after it. */
  function ScanU32(s: string): Option<(U32, string)>
  {
    var n := DigitRun(s);
    if n == 0 then None
    else
      var v := DigitsValue(s[..n]);
      if v < TWO_32 then Some((v, s[n..])) else None
  }

  /** A `{u32}` field followed by the literal character `sep`. */
  function ScanU32Then(s: string, sep: char): Option<(U32, string)>
  {
    match ScanU32(s)
    case None => None
    case Some((v, rest)) => if rest != [] && rest[0] == sep then Some((v, rest[1..])) else None
  }

  /** `FromStr for Geometry`: the whole string must be `{u32}x{u32}+{u32}+{u32}`. */
  function ParseGeometry(s: string): (r: Result<Geometry, Error>)
    ensures r.Err? ==> r.error == ScanfError
    ensures r.Ok? ==> ScanU32Then(s, 'x').Some? && ScanU32Then(s, 'x').value.0 == r.value.width
  {
    match ScanU32Then(s, 'x')
    case None => Err(ScanfError)
    case Some((width, r1)) =>
      match ScanU32Then(r1, '+')
      case None => Err(ScanfError)
      case Some((height, r2)) =>
        match ScanU32Then(r2, '+')
        case None => Err(ScanfError)
        case Some((x, r3)) =>
          match ScanU32(r3)
          case None => Err(ScanfError)
          case Some((y, r4)) => if r4 == [] then Ok(Geometry(width, height, x, y)) else Err(ScanfError)
  }

  /** `s` is the text `W x H + X + Y` of `g`, with `w`, `h`, `x`, `y` the four
      digit strings. */
  predicate DescribesGeometry(s: string, g: Geometry, w: string, h: string, x: string, y: string)
  {
    && IsDigits(w) && IsDigits(h) && IsDigits(x) && IsDigits(y)
    && s == w + "x" + h + "+" + x + "+" + y
    && g.width == DigitsValue(w) && g.height == DigitsValue(h)
    && g.x == DigitsValue(x) && g.y == DigitsValue(y)
  }

  lemma {:induction false} DigitRunOfDigits(w: string, t: string)
    requires forall i :: 0 <= i < |w| ==> IsDigit(w[i])
    requires t == [] || !IsDigit(t[0])
    ensures DigitRun(w + t) == |w|
  {
    if w != [] {
      assert (w + t)[1..] == w[1..] + t;
      DigitRunOfDigits(w[1..], t);
    }
  }

  /** Scanning a digit string followed by a non-digit reads exactly that string. */
  lemma ScanDigits(w: string, t: string)
    requires IsDigits(w) && DigitsValue(w) < TWO_32
    requires t == [] || !IsDigit(t[0])
    ensures ScanU32(w + t) == Some((DigitsValue(w), t))
  {
    DigitRunOfDigits(w, t);
    assert (w + t)[..|w|] == w;
    assert (w + t)[|w|..] == t;
  }

  /** A field followed by its separator is read up to the separator. */
  lemma ScanDigitsThen(w: string, sep: char, rest: string)
    requires IsDigits(w) && DigitsValue(w) < TWO_32 && !IsDigit(sep)
    ensures ScanU32Then(w + [sep] + rest, sep) == Some((DigitsValue(w), rest))
  {
    assert w + [sep] + rest == w + ([sep] + rest);
    ScanDigits(w, [sep] + rest);
    assert ([sep] + rest)[1..] == rest;
  }

  /** What a successful scan of a field and its separator consumed. */
  lemma ScanU32ThenSound(s: string, sep: char)
    requires ScanU32Then(s, sep).Some?
    ensures IsDigits(s[..DigitRun(s)])
    ensures ScanU32Then(s, sep).value.0 == DigitsValue(s[..DigitRun(s)])
    ensures s == s[..DigitRun(s)] + [sep] + ScanU32Then(s, sep).value.1
  {
    var rest := ScanU32(s).value.1;
    assert s == s[..DigitRun(s)] + rest;
    assert rest == [sep] + rest[1..];
  }

  /** The parse result is determined by the four scans. */
  lemma ParseGeometryOfScans(s: string, g: Geometry, r1: string, r2: string, y: string)
    requires ScanU32Then(s, 'x') == Some((g.width, r1))
    requires ScanU32Then(r1, '+') == Some((g.height, r2))
    requires ScanU32Then(r2, '+') == Some((g.x, y))
    requires ScanU32(y) == Some((g.y, []))
    ensures ParseGeometry(s) == Ok(g)
  {
  }

  /** The first two scans of a `W x H + ...` text. */
  lemma ScanWidthHeight(s: string, g: Geometry, w: string, h: string, r2: string)
    requires IsDigits(w) && IsDigits(h) && g.width == DigitsValue(w) && g.height == DigitsValue(h)
    requires s == w + ['x'] + (h + ['+'] + r2)
    ensures ScanU32Then(s, 'x') == Some((g.width, h + ['+'] + r2))
    ensures ScanU32Then(h + ['+'] + r2, '+') == Some((g.height, r2))
  {
    ScanDigitsThen(w, 'x', h + ['+'] + r2);
    ScanDigitsThen(h, '+', r2);
  }

  /** Every string of the shape `W x H + X + Y` whose numbers fit in 32 bits
      parses into exactly those four numbers, in that order. */
  lemma ParseGeometryComplete(s: string, g: Geometry, w: string, h: string, x: string, y: string)
    requires DescribesGeometry(s, g, w, h, x, y)
    ensures ParseGeometry(s) == Ok(g)
  {
    var r2 := x + ['+'] + y;
    assert s == w + ['x'] + (h + ['+'] + r2);
    ScanWidthHeight(s, g, w, h, r2);
    ScanDigitsThen(x, '+', y);
    ScanDigits(y, []);
    assert y + [] == y;
    ParseGeometryOfScans(s, g, h + ['+'] + r2, r2, y);
  }

  lemma ConcatFields(s: string, w: string, r1: string, h: string, r2: string, x: string, y: string)
    requires s == w + ['x'] + r1 && r1 == h + ['+'] + r2 && r2 == x + ['+'] + y
    ensures s == w + "x" + h + "+" + x + "+" + y
  {
  }

  /** The four scans of a text that parses. */
  predicate ScannedAs(s: string, r1: string, r2: string, y: string)
  {
    && ScanU32Then(s, 'x').Some? && ScanU32Then(s, 'x').value.1 == r1
    && ScanU32Then(r1, '+').Some? && ScanU32Then(r1, '+').value.1 == r2
    && ScanU32Then(r2, '+').Some? && ScanU32Then(r2, '+').value.1 == y
    && ScanU32(y).Some? && ScanU32(y).value.1 == []
  }

  lemma ScannedValues(s: string, r1: string, r2: string, y: string)
    requires ScannedAs(s, r1, r2, y)
    ensures ParseGeometry(s) == Ok(Geometry(ScanU32Then(s, 'x').value.0, ScanU32Then(r1, '+').value.0,
                                            ScanU32Then(r2, '+').value.0, ScanU32(y).value.0))
  {
    var g := Geometry(ScanU32Then(s, 'x').value.0, ScanU32Then(r1, '+').value.0,
                      ScanU32Then(r2, '+').value.0, ScanU32(y).value.0);
    ParseGeometryOfScans(s, g, r1, r2, y);
  }

  lemma ScannedText(s: string, r1: string, r2: string, y: string)
    requires ScannedAs(s, r1, r2, y)
    ensures s == s[..DigitRun(s)] + "x" + r1[..DigitRun(r1)] + "+" + r2[..DigitRun(r2)] + "+" + y
  {
    ScanU32ThenSound(s, 'x');
    ScanU32ThenSound(r1, '+');
    ScanU32ThenSound(r2, '+');
    ConcatFields(s, s[..DigitRun(s)], r1, r1[..DigitRun(r1)], r2, r2[..DigitRun(r2)], y);
  }

  lemma LastFieldDigits(y: string)
    requires ScanU32(y).Some? && ScanU32(y).value.1 == []
    ensures IsDigits(y) && ScanU32(y).value.0 == DigitsValue(y)
  {
    assert DigitRun(y) == |y|;
    assert y[..DigitRun(y)] == y;
  }

  /** Every string that parses has the shape `W x H + X + Y` and gives its
      four numbers; anything else is rejected. */
  lemma ParseGeometrySound(s: string)
    requires ParseGeometry(s).Ok?
    ensures exists w, h, x, y :: DescribesGeometry(s, ParseGeometry(s).value, w, h, x, y)
  {
    var r1 := ScanU32Then(s, 'x').value.1;
    var r2 := ScanU32Then(r1, '+').value.1;
    var y := ScanU32Then(r2, '+').value.1;
    assert ScannedAs(s, r1, r2, y);
    ScannedValues(s, r1, r2, y);
    ScannedText(s, r1, r2, y);
    ScanU32ThenSound(s, 'x');
    ScanU32ThenSound(r1, '+');
    ScanU32ThenSound(r2, '+');
    LastFieldDigits(y);
    var w, h, x := s[..DigitRun(s)], r1[..DigitRun(r1)], r2[..DigitRun(r2)];
    assert DescribesGeometry(s, ParseGeometry(s).value, w, h, x, y);
  }

  /** A digit run too large for 32 bits, followed by a non-digit, is not a field. */
  lemma ScanRejectsWide(w: string, t: string)
    requires IsDigits(w) && DigitsValue(w) >= TWO_32
    requires t == [] || !IsDigit(t[0])
    ensures ScanU32(w + t).None?
    ensures ScanU32Then(w + t, 'x').None? && ScanU32Then(w + t, '+').None?
  {
    DigitRunOfDigits(w, t);
    assert (w + t)[..|w|] == w;
  }

  /** A field that does not fit in 32 bits makes parsing fail with the scanner
      error, whatever follows it, in each of the four positions (the fields
      before it being well-formed): the width, ... */
  lemma RejectsWideWidth(wide: string, t: string)
    requires IsDigits(wide) && DigitsValue(wide) >= TWO_32
    requires t == [] || !IsDigit(t[0])
    ensures ParseGeometry(wide + t) == Err(ScanfError)
  {
    ScanRejectsWide(wide, t);
  }

  /** ... the height, ... */
  lemma RejectsWideHeight(w: string, wide: string, t: string)
    requires IsDigits(w) && DigitsValue(w) < TWO_32
    requires IsDigits(wide) && DigitsValue(wide) >= TWO_32
    requires t == [] || !IsDigit(t[0])
    ensures ParseGeometry(w + "x" + wide + t) == Err(ScanfError)
  {
    ScanRejectsWide(wide, t);
    ScanDigitsThen(w, 'x', wide + t);
    assert w + "x" + wide + t == w + ['x'] + (wide + t);
  }

  /** Parsing fails when the third scan fails after two that succeed. */
  lemma FailsAtThirdScan(s: string, r1: string, r2: string)
    requires ScanU32Then(s, 'x').Some? && ScanU32Then(s, 'x').value.1 == r1
    requires ScanU32Then(r1, '+').Some? && ScanU32Then(r1, '+').value.1 == r2
    requires ScanU32Then(r2, '+').None?
    ensures ParseGeometry(s) == Err(ScanfError)
  {
  }

  /** Parsing fails when the last scan fails after three that succeed. */
  lemma FailsAtFourthScan(s: string, r1: string, r2: string, r3: string)
    requires ScanU32Then(s, 'x').Some? && ScanU32Then(s, 'x').value.1 == r1
    requires ScanU32Then(r1, '+').Some? && ScanU32Then(r1, '+').value.1 == r2
    requires ScanU32Then(r2, '+').Some? && ScanU32Then(r2, '+').value.1 == r3
    requires ScanU32(r3).None?
    ensures ParseGeometry(s) == Err(ScanfError)
  {
  }

  lemma ThreeFieldShape(w: string, h: string, r: string)
    ensures w + "x" + h + "+" + r == w + ['x'] + (h + ['+'] + r)
  {
  }

  lemma FourFieldShape(w: string, h: string, x: string, r: string)
    ensures w + "x" + h + "+" + x + "+" + r == w + ['x'] + (h + ['+'] + (x + ['+'] + r))
  {
  }

  /** ... the horizontal offset, ... */
  lemma RejectsWideX(w: string, h: string, wide: string, t: string)
    requires IsDigits(w) && DigitsValue(w) < TWO_32
    requires IsDigits(h) && DigitsValue(h) < TWO_32
    requires IsDigits(wide) && DigitsValue(wide) >= TWO_32
    requires t == [] || !IsDigit(t[0])
    ensures ParseGeometry(w + "x" + h + "+" + (wide + t)) == Err(ScanfError)
  {
    var r2 := wide + t;
    ScanRejectsWide(wide, t);
    ScanWidthHeightThen(w, h, r2);
    ThreeFieldShape(w, h, r2);
    FailsAtThirdScan(w + "x" + h + "+" + r2, h + ['+'] + r2, r2);
  }

  /** ... and the vertical offset. */
  lemma RejectsWideY(w: string, h: string, x: string, wide: string, t: string)
    requires IsDigits(w) && DigitsValue(w) < TWO_32
    requires IsDigits(h) && DigitsValue(h) < TWO_32
    requires IsDigits(x) && DigitsValue(x) < TWO_32
    requires IsDigits(wide) && DigitsValue(wide) >= TWO_32
    requires t == [] || !IsDigit(t[0])
    ensures ParseGeometry(w + "x" + h + "+" + x + "+" + (wide + t)) == Err(ScanfError)
  {
    var r3 := wide + t;
    var r2 := x + ['+'] + r3;
    ScanRejectsWide(wide, t);
    ScanWidthHeightThen(w, h, r2);
    ScanDigitsThen(x, '+', r3);
    FourFieldShape(w, h, x, r3);
    FailsAtFourthScan(w + "x" + h + "+" + x + "+" + r3, h + ['+'] + r2, r2, r3);
  }

  /** The first two scans of `W x H + rest`. */
  lemma ScanWidthHeightThen(w: string, h: string, rest: string)
    requires IsDigits(w) && DigitsValue(w) < TWO_32
    requires IsDigits(h) && DigitsValue(h) < TWO_32
    ensures ScanU32Then(w + ['x'] + (h + ['+'] + rest), 'x') == Some((DigitsValue(w), h + ['+'] + rest))
    ensures ScanU32Then(h + ['+'] + rest, '+') == Some((DigitsValue(h), rest))
  {
    ScanDigitsThen(w, 'x', h + ['+'] + rest);
    ScanDigitsThen(h, '+', rest);
  }

  // ----- style rules -----

  /** A styling rule: optional patterns on the three text fields and the
      colours it supplies. */
  datatype NotificationRule = NotificationRule(
    appName: Option<string>,
    summary: Option<string>,
    body: Option<string>,
    foreground: Option<string>,
    background: Option<string>)

  /** An absent pattern accepts anything; a present one must glob-match. */
  predicate PatternAccepts(pattern: Option<string>, field: string)
  {
    pattern.None? || GlobMatches(pattern.value, field)
  }

  /** `NotificationRule::matches`: every pattern the rule specifies must match. */
  function RuleMatches(rule: NotificationRule, appName: string, summary: string, body: string): (r: bool)
    ensures r <==> (PatternAccepts(rule.appName, appName)
                    && PatternAccepts(rule.summary, summary)
                    && PatternAccepts(rule.body, body))
  {
    if rule.appName.Some? && !GlobMatches(rule.appName.value, appName) then false
    else if rule.summary.Some? && !GlobMatches(rule.summary.value, summary) then false
    else if rule.body.Some? && !GlobMatches(rule.body.value, body) then false
    else true
  }

  /** A rule without patterns styles every notification. */
  lemma RuleWithoutPatternsMatchesAll(rule: NotificationRule, appName: string, summary: string, body: string)
    requires rule.appName.None? && rule.summary.None? && rule.body.None?
    ensures RuleMatches(rule, appName, summary, body)
  {
  }

  /** `iter().find`: the first rule of `rules` that matches. */
  function FirstMatchingRule(rules: seq<NotificationRule>, appName: string, summary: string, body: string)
    : (r: Option<NotificationRule>)
    ensures r.None? <==> forall i :: 0 <= i < |rules| ==> !RuleMatches(rules[i], appName, summary, body)
    ensures r.Some? ==> exists i :: 0 <= i < |rules| && rules[i] == r.value
                                  && RuleMatches(rules[i], appName, summary, body)
                                  && forall j :: 0 <= j < i ==> !RuleMatches(rules[j], appName, summary, body)
  {
    if rules == [] then None
    else if RuleMatches(rules[0], appName, summary, body) then Some(rules[0])
    else
      var r := FirstMatchingRule(rules[1..], appName, summary, body);
      assert forall i :: 1 <= i < |rules| ==> rules[i] == rules[1..][i - 1];
      r
  }

  // ----- urgency settings -----

  /** Urgency levels of a notification. */
  datatype Urgency = Low | Normal | Critical

  /** A custom command with its optional filter, kept as the filter's source text. */
  datatype CustomCommand = CustomCommand(filter: Option<string>, command: string)

  /** Per-urgency settings; colours are kept as their hex strings. */
  datatype UrgencyConfig = UrgencyConfig(
    background: string,
    foreground: string,
    timeout: U32,
    autoClear: Option<bool>,
    text: Option<string>,
    customCommands: Option<seq<CustomCommand>>)

  /** Global settings. */
  datatype GlobalConfig = GlobalConfig(
    startupNotification: bool,
    geometry: Geometry,
    origin: Origin,
    wrapContent: bool,
    font: string,
    template: string,
    displayLimit: nat,
    minWidth: Option<U32>,
    refreshIntervalMs: nat)

  /** The configuration snapshot. */
  datatype Config = Config(
    global: GlobalConfig,
    urgencyLow: UrgencyConfig,
    urgencyNormal: UrgencyConfig,
    urgencyCritical: UrgencyConfig,
    appColors: map<string, string>,
    rules: seq<NotificationRule>)

  /** `Config::get_matching_rule`: the first rule in declared order that matches. */
  function GetMatchingRule(config: Config, appName: string, summary: string, body: string)
    : (r: Option<NotificationRule>)
    ensures r.None? <==> forall i :: 0 <= i < |config.rules| ==> !RuleMatches(config.rules[i], appName, summary, body)
    ensures r.Some? ==> exists i :: 0 <= i < |config.rules| && config.rules[i] == r.value
                                  && RuleMatches(config.rules[i], appName, summary, body)
                                  && forall j :: 0 <= j < i ==> !RuleMatches(config.rules[j], appName, summary, body)
  {
    FirstMatchingRule(config.rules, appName, summary, body)
  }

  /** `Config::get_urgency_config`: the settings section of the given urgency. */
  function GetUrgencyConfig(config: Config, urgency: Urgency): (r: UrgencyConfig)
    ensures urgency == Low ==> r == config.urgencyLow
    ensures urgency == Normal ==> r == config.urgencyNormal
    ensures urgency == Critical ==> r == config.urgencyCritical
  {
    match urgency
    case Low => config.urgencyLow
    case Normal => config.urgencyNormal
    case Critical => config.urgencyCritical
  }

  /** `config` with the settings section of `urgency` replaced by `u`. */
  function WithUrgencyConfig(config: Config, urgency: Urgency, u: UrgencyConfig): Config
  {
    match urgency
    case Low => config.(urgencyLow := u)
    case Normal => config.(urgencyNormal := u)
    case Critical => config.(urgencyCritical := u)
  }

  /** The three sections are independent: replacing one changes the lookup of
      that urgency only. */
  lemma UrgencySectionsIndependent(config: Config, changed: Urgency, u: UrgencyConfig, other: Urgency)
    ensures GetUrgencyConfig(WithUrgencyConfig(config, changed, u), changed) == u
    ensures other != changed ==> GetUrgencyConfig(WithUrgencyConfig(config, changed, u), other) == GetUrgencyConfig(config, other)
  {
  }

  /** `Config::get_app_color`: the colour of the exact key if there is one, else
      that of some key whose pattern matches. A hash map's iteration order is
      unspecified, so the loop picks the next key arbitrarily. */
  method GetAppColor(config: Config, appName: string) returns (color: Option<string>)
    ensures appName in config.appColors ==> color == Some(config.appColors[appName])
    ensures color.Some? ==> exists k :: k in config.appColors && GlobMatches(k, appName) && color.value == config.appColors[k]
    ensures color.None? <==> forall k :: k in config.appColors ==> !GlobMatches(k, appName)
  {
    var colors := config.appColors;
    if appName in colors {
      GlobMatchesItself(appName);
      return Some(colors[appName]);
    }
    var unvisited := colors.Keys;
    while unvisited != {}
      invariant unvisited <= colors.Keys
      invariant forall k :: k in colors && k !in unvisited ==> !GlobMatches(k, appName)
      decreases |unvisited|
    {
      var pattern :| pattern in unvisited;
      var matched := GlobMatch(pattern, appName);
      if matched {
        return Some(colors[pattern]);
      }
      unvisited := unvisited - {pattern};
    }
    return None;
  }

  /** The expiry gate of `UrgencyConfig::run_commands`: a command is skipped when
      the notification's timestamp plus its expiry timeout in seconds (zero when it
      has none) lies before `now`; a present filter must also accept the
      notification. */
  function CommandDue(command: CustomCommand, filterAccepts: bool, timestamp: nat, expireSecs: Option<nat>, now: nat)
    : (due: bool)
    ensures due <==> (command.filter.None? || filterAccepts)
                     && now <= timestamp + (if expireSecs.Some? then expireSecs.value else 0)
  {
    if command.filter.Some? && !filterAccepts then false
    else if timestamp + (if expireSecs.Some? then expireSecs.value else 0) < now then false
    else true
  }

  /** Without an expiry timeout a command is due only while the clock has not
      passed the notification's timestamp; once closed, the gate stays closed;
      and a longer expiry never closes a gate that a shorter one (or none)
      leaves open. */
  lemma CommandGateCloses(command: CustomCommand, filterAccepts: bool, timestamp: nat, expireSecs: Option<nat>, now: nat, later: nat)
    requires now <= later
    ensures expireSecs.None? && timestamp < now ==> !CommandDue(command, filterAccepts, timestamp, expireSecs, now)
    ensures !CommandDue(command, filterAccepts, timestamp, expireSecs, now) ==> !CommandDue(command, filterAccepts, timestamp, expireSecs, later)
    ensures forall longer: nat ::
              ((expireSecs.None? || expireSecs.value <= longer)
               && CommandDue(command, filterAccepts, timestamp, expireSecs, now))
              ==> CommandDue(command, filterAccepts, timestamp, Some(longer), now)
  {
  }
}
