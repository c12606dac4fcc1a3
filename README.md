# runst core, modelled in Dafny

runst is a notification daemon for X11. This project models the parts of it
that decide things without touching the outside world:

- **Glob matching** (`glob_match`). Matching is case-insensitive and `*` is
  the only wildcard. Five pattern shapes have fixed tests:
  - no `*`: equality;
  - `*suffix`: ends-with;
  - `prefix*`: starts-with;
  - `prefix*suffix`: both;
  - `*middle*`: contains.

  Any other shape is a greedy left-to-right search for its non-empty pieces.
  `Glob.GlobMatches` states what the function answers. `Glob.GlobMatch` is
  the imperative search, proved equal to it.
- **The configuration snapshot** (`Config`):
  - the window origin's display and parsing;
  - the `WxH+X+Y` geometry parser;
  - style rules (every specified pattern must match; the first matching rule
    in declared order wins);
  - application colours (an exact key wins over a pattern key);
  - the per-urgency settings lookup;
  - the expiry gate of custom commands.
- **The in-memory notification history** (`History.History`), a class
  whose entry sequence is updated in place. `add` appends and then drops the
  oldest entries until the buffer is within its limit. `recent` reads newest
  first and `search` filters case-insensitively. Three of the four in-line
  tests of `src/history.rs` (limit enforcement, search and recent) are stated
  as scenario methods; `test_history_entry_creation` is not, because
  `HistoryEntry::new` is left out.
- **Window placement** (`X11`). Offsets are measured from the chosen screen
  corner. The source's integer casts are written out:
  - `u32 as i32` and `i32 as i16` keep the low bits;
  - `i32` subtraction wraps.

The modules are `Wrappers`, `Integers`, `Text`, `Glob`, `Config`, `History`
and `X11`, one file each. `Text` holds the standard-library string operations
the source relies on, each specified on its own:
- lower-casing;
- `starts_with`, `ends_with` and `contains`;
- `find` (the first occurrence);
- `split` (always at least one piece; joining the pieces gives the input back).

A reader may expect a placed window never to get a negative coordinate,
since each coordinate is clamped to 0. But the code clamps in `i32` and only
then casts to `i16`, so a coordinate can still come out negative:
- on a screen more than 32767 pixels wide (`X11.WideScreenWraps`);
- when a window size of 2^31 or more wraps in the cast to `i32` (`X11.HugeWidthWraps`).

`X11.PlacementOnScreen` proves the coordinates non-negative when:
- screen sizes and offsets are below 2^15;
- each offset plus the window's size in that direction is below 2^31.

## Model

| member | source | states |
|---|---|---|
| Text.Lower | src/config.rs:113-114 | lower-casing keeps the length and maps every character by ASCII case folding |
| Text.Find | src/config.rs:133 | `find` returns the first index at which the piece occurs, and nothing exactly when it does not occur |
| Text.Split | src/config.rs:120 | `split('*')` yields at least one piece, no piece holds the separator, and joining the pieces with it restores the input |
| Text.SplitJoin | src/config.rs:120 | splitting a join of separator-free pieces gives those pieces back |
| Text.LowerIdempotent | src/config.rs:113-114 | lower-casing twice is lower-casing once |
| Glob.GlobMatch | src/config.rs:112-142 | the method, with its shape tests and then the greedy search, answers exactly `GlobMatches` |
| Glob.SearchInOrder | src/config.rs:127-140 | the greedy loop, each search starting after the previous find, succeeds exactly when the non-empty pieces occur in order |
| Glob.FirstOccurrenceSuffices | src/config.rs:133-134 | committing to the first occurrence of a piece loses no in-order match, which is why the greedy search is complete |
| Glob.GlobLiteral | src/config.rs:116-118 | a pattern without `*` matches exactly the values equal to it up to case |
| Glob.GlobOneStar | src/config.rs:123-125 | `prefix*suffix` (either side may be empty) matches exactly the values that start with the prefix and end with the suffix, case-insensitively |
| Glob.GlobInfix | src/config.rs:126 | `*middle*` matches exactly the values that contain the middle, case-insensitively |
| Glob.GlobStarMatchesAll | src/config.rs:123-126 | `*` and `**` match every value |
| Glob.GlobSegments | src/config.rs:127-140 | every other pattern of three or more pieces matches exactly when its non-empty lower-cased pieces occur in the value in order, without overlapping |
| Glob.GlobSegmentsUnanchored | src/config.rs:127-140 | such a pattern is anchored at neither end: text added in front of or behind a matching value keeps it matching |
| Glob.InOrderPrepend | src/config.rs:127-140 | pieces found in order in a text are still found after text is added in front of it |
| Glob.InOrderAppend | src/config.rs:127-140 | pieces found in order in a text are still found after text is added behind it |
| Glob.GlobMatchesItself | src/config.rs:112-142 | every pattern matches its own text |
| Glob.GlobCaseInsensitive | src/config.rs:113-114 | lower-casing the pattern, the value, or both changes no answer |
| Glob.PrefixExample | src/config.rs:207-208 | the documented example `Claude*` matches `Claude Code` |
| Glob.InfixExample | src/config.rs:207-208 | the documented example `*bash*` matches `my-bash-script` |
| Glob.OverlapExample | src/config.rs:125 | `ab*ba` matches `aba`: the prefix and suffix tests may overlap |
| Glob.UnanchoredExample | src/config.rs:127-140 | `a*b*c` matches `xabcx` |
| Glob.AnchoredExample | src/config.rs:125 | `a*c` does not match `xabcx`, since two pieces are anchored at both ends |
| Config.OriginName | src/config.rs:36-45 | the displayed name of an origin is its hyphenated spelling, never the compact one; with `Config.OriginRoundTrip`, parsing it gives back that origin |
| Config.OriginNamed | src/config.rs:49-55 | a lower-cased spelling names an origin exactly when it is that origin's hyphenated or compact name |
| Config.ParseOrigin | src/config.rs:47-58 | an origin parses exactly from its hyphenated or compact name in any case; anything else fails with `invalid origin: ` followed by the input |
| Config.OriginRoundTrip | src/config.rs:36-58 | parsing the displayed name of an origin gives back that origin |
| Config.ParseOriginCaseInsensitive | src/config.rs:49 | a string and its lower-case form parse alike |
| Config.DigitRun | src/config.rs:311 | a scanned number field is the longest run of leading digits |
| Config.ParseGeometry | src/config.rs:308-319 | every failure is the scanner error, and an accepted text begins with its width followed by `x`; `Config.ParseGeometryComplete` and `Config.ParseGeometrySound` state which texts are accepted and what they yield |
| Config.ParseGeometryComplete | src/config.rs:308-321 | every text `W x H + X + Y` whose four digit strings fit in 32 bits parses into exactly those numbers, in that order |
| Config.ParseGeometrySound | src/config.rs:308-321 | every text that parses has the shape `W x H + X + Y`, and the result holds its four numbers |
| Config.RejectsWideWidth | src/config.rs:311-312 | a width too large for `u32`, whatever follows it, makes parsing fail with the scanner error |
| Config.RejectsWideHeight | src/config.rs:311-312 | after a well-formed width, a height too large for `u32` makes parsing fail with the scanner error |
| Config.RejectsWideX | src/config.rs:311-312 | after well-formed width and height, a horizontal offset too large for `u32` makes parsing fail with the scanner error |
| Config.RejectsWideY | src/config.rs:311-312 | after three well-formed fields, a vertical offset too large for `u32` makes parsing fail with the scanner error |
| Config.RuleMatches | src/config.rs:144-164 | a rule matches exactly when each of its present patterns glob-matches its field; absent patterns accept anything |
| Config.RuleWithoutPatternsMatchesAll | src/config.rs:146-163 | a rule without patterns matches every notification |
| Config.FirstMatchingRule | src/config.rs:232-235 | `find` gives nothing exactly when no rule matches; otherwise it gives a matching rule with no matching rule before it |
| Config.GetMatchingRule | src/config.rs:226-236 | the first rule in declared order that matches the notification, or nothing when none does |
| Config.GetUrgencyConfig | src/config.rs:198-204 | each urgency selects its own settings section |
| Config.UrgencySectionsIndependent | src/config.rs:198-204 | the three sections are independent: replacing the section of any one urgency changes the lookup of that urgency only |
| Config.GetAppColor | src/config.rs:209-223 | an exact key gives its colour; otherwise the colour comes from some key whose pattern matches; nothing is returned exactly when no key matches |
| Config.CommandDue | src/config.rs:366-378 | a command runs exactly when its filter (if any) accepts and the timestamp plus the expiry in seconds (zero when absent) is not before now |
| Config.CommandGateCloses | src/config.rs:373-378 | with no expiry, a notification older than now gets no command; once the gate has closed it stays closed as the clock moves on; a longer expiry never closes a gate that a shorter one or none leaves open |
| History.KeepLast | src/history.rs:125-128 | the result is the last `min(n, len)` entries of the input, in order |
| History.Reverse | src/history.rs:157-159 | position `i` of the result holds the input's entry `len - 1 - i` |
| History.MatchingEntries | src/history.rs:167-176 | the filter keeps exactly the entries whose application name, summary or body contains the query, case-insensitively |
| History.MatchingEntriesAppend | src/history.rs:167-176 | filtering keeps stored order: it distributes over concatenation |
| History.MatchingEntriesEmptyQuery | src/history.rs:167-176 | the empty query returns every entry |
| History.KeepLastAppend | src/history.rs:122-131 | adding to a buffer already cut to its limit and cutting again equals one cut of everything added |
| History.History.constructor | src/history.rs:76-91 | a history starts with the loaded entries and the given limit |
| History.History.Add | src/history.rs:122-131 | after `add`, the entries are the last `limit` of the old entries plus the new one; the limit is unchanged; nothing is evicted while under the limit |
| History.History.Len | src/history.rs:147-149 | the number of stored entries |
| History.History.IsEmpty | src/history.rs:152-154 | empty exactly when the length is zero |
| History.History.Recent | src/history.rs:157-159 | the newest `min(count, len)` entries, newest first |
| History.History.All | src/history.rs:162-164 | every stored entry, oldest first |
| History.History.Search | src/history.rs:167-176 | the stored entries that match the query case-insensitively, in stored order; the empty query returns all |
| History.History.Clear | src/history.rs:180-183 | clearing leaves no entries and keeps the limit |
| History.LimitEnforcementScenario | src/history.rs:217-238 | with limit 3, adding ids 0 to 4 leaves 3 entries with ids 2, 3, 4 |
| History.SearchScenario | src/history.rs:241-267 | of the three test entries, `firefox` finds two, and `message` finds exactly one, the `slack` entry |
| History.RecentScenario | src/history.rs:270-291 | after ids 0 to 9, `recent(3)` gives ids 9, 8, 7 |
| Integers.WrapI32 | src/x11.rs:75-80 | the cast to `i32` is the value in range that is congruent modulo 2^32, and it leaves in-range values unchanged |
| Integers.WrapI16 | src/x11.rs:89 | the cast to `i16` is the value in range that is congruent modulo 2^16, and it leaves in-range values unchanged |
| Integers.WrapI32Sub | src/x11.rs:84-86 | wrapping subtraction of the cast operands equals the exact difference wrapped once |
| X11.FarEdgeDistance | src/x11.rs:338-341 | `screen - size - offset` in wrapping `i32` equals the exact distance wrapped once |
| X11.CalculatePosition | src/x11.rs:328-342 | left anchors give the horizontal offset and right anchors `screen_width - width - offset_x`, wrapped to `i32`; top and bottom likewise |
| X11.CalculatePositionFromOrigin | src/x11.rs:66-90 | the unclamped placement of `calculate_position`, each coordinate raised to at least 0 and then cast to `i16` |
| X11.PlacementOnScreen | src/x11.rs:66-90 | when screen sizes and offsets are below 2^15 and each offset plus the window size is below 2^31, coordinates are never negative; left and top anchors keep their offset; right and bottom anchors give the far-edge distance pinned at 0 |
| X11.FarAnchorGap | src/x11.rs:82-86 | for right and bottom anchors, when the window fits, the offset is exactly the gap between the window's far edge and the screen's |
| X11.PlacementExamples | src/x11.rs:66-90 | on 1920x1080 with offset (10, 20) and size 200x100, bottom-right gives (1710, 960) and top-left gives (10, 20) |
| X11.HugeOffsetPinned | src/x11.rs:77-89 | for left anchors an offset_x of 2^31 or more, and for top anchors an offset_y of 2^31 or more, turns negative in the cast and pins that coordinate to 0, whatever the other inputs |
| X11.HugeWidthWraps | src/x11.rs:79-89 | a width of 2^31 or more wraps in the cast: a top-right window on a 100-pixel-wide screen lands at x = -25436 |
| X11.WideScreenWraps | src/x11.rs:89 | on a screen 65535 pixels wide, a zero-width top-right window lands at x = -1 after the `i16` cast |

## Left out

- Persistence of the history (`save`, `load_from_path`, `default_path`, `path`, the JSON format): it is file I/O. `History.History.Add` and `Clear` return nothing because the error they can return comes only from saving. The constructor takes the loaded entries as a parameter.
- `HistoryEntry::new`: its date-time text comes from a calendar formatter the model does not include, so an entry carries its formatted date-time as a given string. The urgency's display text is a plain string too, because `notification.rs` is not part of this model.
- Configuration loading (`Config::parse`, the TOML and serde machinery, the embedded default file): it is file I/O and deserialisation. The log level (`log_verbosity`) is left out, since logging is not modelled. Colours are kept as their hex strings and the refresh interval as a plain number.
- `UrgencyConfig::run_commands`: only its decision whether a command runs is modelled (`Config.CommandDue`), with the clock reading and the notification filter's verdict as parameters. Template rendering and process spawning are external actions.
- Config.CommandDue: the sum of the timestamp and the expiry is unbounded here; the source adds two `u64` values, which cannot overflow for realistic clocks.
- `X11::init` and the drawing, event handling, `show`/`hide` and the notification manager: they drive the X server, or they belong to `notification.rs`, which is not part of this model.
- Text.Lower: lower-cases ASCII letters only, whereas Rust's `to_lowercase` is Unicode-aware and can change a string's length.
- Text.Find: indexes by character, whereas Rust indexes strings by byte. The two agree on ASCII text.
- Config.ParseGeometryComplete: a field is a run of decimal digits whose value fits in 32 bits. The scanner's own pattern details, such as a leading `+` sign or its limit on the number of digits, are not modelled.
- Config.ParseGeometrySound: a text is accepted only under the same digit-run reading of a field, so texts the scanner accepts through those pattern details are not covered.
- Config.ParseGeometry: its scanner error carries no message; the source wraps the scanner's error text (`Error::Scanf(e.to_string())`), which comes from the `scanf` crate, not part of this model.
- X11.CalculatePosition: `i32` subtraction is modelled as wrapping, as in a release build; a debug build panics on overflow instead.
- Config.GetAppColor: Rust's hash map visits its keys in an unspecified order, so the model chooses the next key arbitrarily. It states only that some matching key's colour is returned, not which one.
- History.LimitEnforcementScenario: the test's summaries `summary {i}` are a constant summary here; no assertion of the test depends on them.
