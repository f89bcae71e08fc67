# TripCraft front end: itinerary rendering and planner wizard, in Dafny

This project models the decision logic of the TripCraft day-trip planner's React front end, with its properties proved.

**Itinerary view** (`ItineraryDisplay.jsx`). The generated itinerary is one text blob, which the view processes in three steps:

- It splits the text on `\n`.
- It drops every empty line whose predecessor is also empty.
- It classifies each remaining line by an ordered cascade of pattern tests into one of seven blocks:
  - section heading;
  - sub-heading;
  - bullet;
  - numbered item;
  - bold-only time label;
  - plain line;
  - spacer.

Bullet, numbered and plain text then goes through `renderText`. That function makes two global regular-expression replacements: `**x**` becomes `<strong>x</strong>`, then `*z*` becomes `<em>z</em>`. The model writes each replacement as an explicit left-to-right scanner that cuts the string into pieces (a copied character, or a matched span). It then proves the scanners against declarative statements of what a leftmost, lazy regular-expression match is.

**Interest picker** (`InterestSelector.jsx`):

- toggling a chip;
- adding a trimmed custom interest;
- the preset-label lookup of the summary row.

**Destination box** (`CityInput.jsx`):

- the case-insensitive suggestion filter over eighteen cities, capped at six (or the first eight for an empty query);
- the query and dropdown state: select, clear, type, focus, outside press;
- the dropdown-visibility rule.

**Wizard** (`App.jsx`):

- the step indicator's active index, circles and connectors;
- the five-field state machine (destination, interests, loading, result), driven by Continue, Generate, the server reply, Reset and Back;
- which request a reply answers: each call of `generate` is its own pending continuation, so the model numbers the requests it sends and tags every reply with its request's number;
- the quick-pick buttons, which drop the icon word from their label.

The itinerary request is a network call. `App.Wizard.Generate` returns the request body, and the reply is a separate input to `App.Wizard.Receive`, so actions taken while loading can be expressed.

Files:

- `Wrappers.dfy`: `Option`.
- `JsString.dfy`: JavaScript's `\s`, `trim`, `split`/`join`, `includes` and ASCII `toLowerCase`.
- `Emphasis.dfy`: `renderText`.
- `ItineraryDisplay.dfy`: classification, collapsing and markup.
- `InterestSelector.dfy`, `CityInput.dfy`, `App.dfy`: the three UI components above.

Points where the renderer departs from a plain Markdown reading, all modelled as the code behaves:

- The heading, sub-heading, bullet and numbered rules test the raw line. Only the time-label rule and the final plain-or-spacer test look at the trimmed line.
- `****` is left unchanged. A bold span needs at least one content character; it does not produce an empty span.
- Collapsing drops only exact empty strings that follow an empty string. Whitespace-only lines are never dropped.
- A time label shows the untrimmed line with every `**` removed, so surrounding whitespace is kept.
- Classifying the text of a classified block again need not give a plain line. `- - x` is a bullet whose content `- x` is again a bullet (`ItineraryDisplay.BulletContentMayBeBullet`).

## Model

| member | source | states |
|---|---|---|
| JsString.Trim | frontend/src/components/ItineraryDisplay.jsx:67 | `trim` returns the infix left after removing whitespace at both ends; the result is empty exactly when the line is all whitespace, and otherwise starts and ends with non-whitespace |
| JsString.TrimFramed | frontend/src/components/ItineraryDisplay.jsx:67 | trimming whitespace + text + whitespace, where the text starts and ends with non-whitespace, gives exactly that text |
| JsString.Split | frontend/src/components/ItineraryDisplay.jsx:91 | `split` gives at least one part and no part contains the separator |
| JsString.JoinSplit | frontend/src/App.jsx:199 | joining the parts of a split with the same separator gives the original string back |
| JsString.SplitJoin | frontend/src/components/ItineraryDisplay.jsx:91 | splitting a join of separator-free parts gives the parts back |
| JsString.SplitLength | frontend/src/components/ItineraryDisplay.jsx:91 | a split has one more part than the string has separators |
| JsString.Join | frontend/src/App.jsx:199 | `join`: pinned down by its round trips with `split`, `JsString.JoinSplit` and `JsString.SplitJoin` |
| JsString.IncludesIff | frontend/src/components/CityInput.jsx:31 | `includes` holds exactly when some position of the haystack starts a copy of the needle |
| JsString.Includes | frontend/src/components/CityInput.jsx:31 | `includes`: characterised by `JsString.IncludesIff` as "some position starts a copy of the needle" |
| JsString.Lower | frontend/src/components/CityInput.jsx:31 | `toLowerCase` keeps the length and lower-cases each character on its own |
| Emphasis.BoldCloseFromSpec | frontend/src/components/ItineraryDisplay.jsx:8 | the closing search finds the first `**` after the opening when no line terminator comes before it, and reports none when every later `**` has a line terminator before it |
| Emphasis.BoldMatchAtSpec | frontend/src/components/ItineraryDisplay.jsx:8 | a bold match found at a position is a match of `\*\*(.+?)\*\*` and the lazy one, closing at the first `**`; none found means no match starts there |
| Emphasis.ItalicCloseFromSpec | frontend/src/components/ItineraryDisplay.jsx:9 | the italic closing search finds the first `*` when no newline comes before it, and none otherwise |
| Emphasis.ItalicMatchAtSpec | frontend/src/components/ItineraryDisplay.jsx:9 | an italic match found is a match of `\*([^*\n]+?)\*`; none found means no match starts there |
| Emphasis.BoldPass | frontend/src/components/ItineraryDisplay.jsx:8 | the first global replace: its spans are the leftmost lazy matches (`BoldMatchAtSpec`), nothing is lost (`BoldRoundTrip`), and text where no match starts is copied (`BoldCopies`, `BoldPassCopies`, `BoldAround`) |
| Emphasis.ItalicPass | frontend/src/components/ItineraryDisplay.jsx:9 | the second global replace: its spans are the leftmost lazy matches (`ItalicMatchAtSpec`), nothing is lost (`ItalicRoundTrip`), and text where no match starts is copied (`ItalicCopies`, `ItalicPassStarFree`, `ItalicPassCopies`) |
| Emphasis.RenderText | frontend/src/components/ItineraryDisplay.jsx:6-10 | the italic pass over the bold pass's output: identity on star-free text and on a lone `*` (`NoStarUnchanged`, `LoneStarUnchanged`), `**x**` to `<strong>x</strong>` (`BoldWhole`), composition in that order (`BoldThenItalicText`, `ItalicAroundBoldText`) |
| Emphasis.BoldRoundTrip | frontend/src/components/ItineraryDisplay.jsx:8 | the bold scanner loses nothing: putting `**` back around each span restores the scanned text |
| Emphasis.ItalicRoundTrip | frontend/src/components/ItineraryDisplay.jsx:9 | the italic scanner loses nothing: putting `*` back around each span restores the scanned text |
| Emphasis.BoldSpansWellFormed | frontend/src/components/ItineraryDisplay.jsx:8 | every bold span is non-empty and holds no line terminator |
| Emphasis.ItalicSpansWellFormed | frontend/src/components/ItineraryDisplay.jsx:9 | every italic span is non-empty and holds neither `*` nor a newline |
| Emphasis.BoldCopies | frontend/src/components/ItineraryDisplay.jsx:8 | where no bold match starts, the bold pass copies the characters unchanged |
| Emphasis.ItalicCopies | frontend/src/components/ItineraryDisplay.jsx:9 | where no italic match starts, the italic pass copies the characters unchanged |
| Emphasis.ItalicCopiesStarFree | frontend/src/components/ItineraryDisplay.jsx:9 | a stretch without `*` is copied unchanged by the italic pass |
| Emphasis.NoStarUnchanged | frontend/src/components/ItineraryDisplay.jsx:6-10 | `renderText` is the identity on text without `*` |
| Emphasis.BoldPassCopies | frontend/src/components/ItineraryDisplay.jsx:8 | text without `**` passes the bold pass unchanged |
| Emphasis.ItalicPassStarFree | frontend/src/components/ItineraryDisplay.jsx:9 | text without `*` passes the italic pass unchanged |
| Emphasis.ItalicPassCopies | frontend/src/components/ItineraryDisplay.jsx:9 | text in which no italic match starts passes the italic pass unchanged |
| Emphasis.LoneStarUnchanged | frontend/src/components/ItineraryDisplay.jsx:6-10 | text with at most one `*` is left as it is: an unmatched marker stays literal |
| Emphasis.BoldSpanAt | frontend/src/components/ItineraryDisplay.jsx:8 | a `**x**` with plain content at the scan position is one bold span, and scanning resumes after it |
| Emphasis.ItalicSpanAt | frontend/src/components/ItineraryDisplay.jsx:9 | a `*z*` with plain content at the scan position is one italic span, and scanning resumes after it |
| Emphasis.BoldWhole | frontend/src/components/ItineraryDisplay.jsx:6-10 | `**x**` renders as `<strong>x</strong>` |
| Emphasis.BoldAround | frontend/src/components/ItineraryDisplay.jsx:8 | the bold pass turns one `**x**` into `<strong>x</strong>` and copies the text around it when that text holds no other `**` |
| Emphasis.BoldThenItalicText | frontend/src/components/ItineraryDisplay.jsx:6-10 | `**x**y*z*` renders as `<strong>x</strong>y<em>z</em>` |
| Emphasis.BoldThenItalic | frontend/src/components/ItineraryDisplay.jsx:6-10 | the concrete `**x**y*z*` renders as `<strong>x</strong>y<em>z</em>` |
| Emphasis.ItalicAroundBoldText | frontend/src/components/ItineraryDisplay.jsx:6-10 | the italic pass runs over the bold pass's output, so `*a **x** c*` renders as `<em>a <strong>x</strong> c</em>` |
| Emphasis.ItalicAroundBold | frontend/src/components/ItineraryDisplay.jsx:6-10 | the concrete `*a **b** c*` renders as `<em>a <strong>b</strong> c</em>` |
| Emphasis.FourStarsUnchanged | frontend/src/components/ItineraryDisplay.jsx:8-9 | `****` is unchanged: bold needs a content character and italic content cannot be `*` |
| Emphasis.SpacedStarUnchanged | frontend/src/components/ItineraryDisplay.jsx:9 | `a * b` is unchanged |
| Emphasis.BoldStopsAtNewline | frontend/src/components/ItineraryDisplay.jsx:8 | a bold span does not cross a line break: `**a\nb**` is unchanged |
| ItineraryDisplay.DigitRun | frontend/src/components/ItineraryDisplay.jsx:54 | the leading run of ASCII digits: every character in it is a digit and the next one is not |
| ItineraryDisplay.StripHashes | frontend/src/components/ItineraryDisplay.jsx:17 | removing the leading `#` run and one whitespace character: the heading text is the rest of the line (`SectionHeadingShape`, `SectionHeadingOnly`) |
| ItineraryDisplay.IsBoldOnly | frontend/src/components/ItineraryDisplay.jsx:67 | the `^\*\*[^*]+\*\*$` test on the trimmed line (`TimeLabelTrimmed`, `TimeLabelOnly`) |
| ItineraryDisplay.RemoveDoubleStars | frontend/src/components/ItineraryDisplay.jsx:70 | the global removal of `**` never lengthens the text; star-free text is kept (`RemoveDoubleStarsStarFree`, `RemoveDoubleStarsAfter`), a leading `**` is removed (`RemoveOneDoubleStar`), and a time label keeps its whitespace (`TimeLabelText`) |
| ItineraryDisplay.Classify | frontend/src/components/ItineraryDisplay.jsx:12-85 | the `ItineraryLine` cascade, first matching rule wins: heading (`SectionHeadingShape`, `SectionHeadingOnly`), sub-heading (`ThreeHashesSubHeading`), bullet (`BulletShape`), numbered (`NumberedShape`, `NumberedOnly`), time label (`TimeLabelShape`, `TimeLabelOnly`), then plain or spacer (`SpacerIff`, `OneCapitalPlain`); raw-line anchoring (`LeadingSpaceLine`, `FourHashesPlain`) |
| ItineraryDisplay.Markup | frontend/src/components/ItineraryDisplay.jsx:16-84 | what each block shows: bullet, numbered and plain text through `renderText`, every other block literally (`MarkupKeepsLiteralBlocks`, `MarkupStarFree`, `HeadingKeepsStars`, `BulletRendersBold`) |
| ItineraryDisplay.Lines | frontend/src/components/ItineraryDisplay.jsx:91 | the split lines after the filter: no neighbouring empty lines (`CollapseNoAdjacentBlanks`), every non-empty line kept in order (`CollapseKeepsNonEmpty`), each run of empty lines reduced to one (`CollapseBlankRunAt`, `CollapseExample`) |
| ItineraryDisplay.Collapse | frontend/src/components/ItineraryDisplay.jsx:91 | the filter never lengthens the list, and the result ends with the input's last string |
| ItineraryDisplay.Document | frontend/src/components/ItineraryDisplay.jsx:148 | one block per surviving line, in order, each the classification of its line |
| ItineraryDisplay.Rendered | frontend/src/components/ItineraryDisplay.jsx:148 | the view shows one block per surviving line, in order, each the markup of its line's classification |
| ItineraryDisplay.CollapseNoAdjacentBlanks | frontend/src/components/ItineraryDisplay.jsx:91 | after collapsing, no two neighbouring lines are both empty |
| ItineraryDisplay.CollapseKeepsNonEmpty | frontend/src/components/ItineraryDisplay.jsx:91 | collapsing keeps every non-empty line, whitespace-only lines included, in order |
| ItineraryDisplay.CollapseLengthIff | frontend/src/components/ItineraryDisplay.jsx:91 | nothing is dropped exactly when the split lines hold no two neighbouring empty lines |
| ItineraryDisplay.CollapseNoOp | frontend/src/components/ItineraryDisplay.jsx:91 | a list without neighbouring empty lines passes through unchanged |
| ItineraryDisplay.CollapseIdempotent | frontend/src/components/ItineraryDisplay.jsx:91 | collapsing twice is collapsing once |
| ItineraryDisplay.CollapseAfterText | frontend/src/components/ItineraryDisplay.jsx:91 | the lines after a non-empty line are filtered as if they began the input, so the filter works segment by segment |
| ItineraryDisplay.CollapseBlanks | frontend/src/components/ItineraryDisplay.jsx:91 | a run of one or more empty lines keeps exactly its first line |
| ItineraryDisplay.CollapseBlankRunAt | frontend/src/components/ItineraryDisplay.jsx:91 | between two text lines, any run of empty lines, a lone one included, becomes exactly one empty line |
| ItineraryDisplay.CollapseKeepsFirst | frontend/src/components/ItineraryDisplay.jsx:91 | the first line always survives |
| ItineraryDisplay.SplitExample | frontend/src/components/ItineraryDisplay.jsx:91 | `A\n\n\n\nB` splits into `A`, three empty lines and `B` |
| ItineraryDisplay.CollapseBlankRun | frontend/src/components/ItineraryDisplay.jsx:91 | a run of three empty lines between two non-empty lines becomes one empty line |
| ItineraryDisplay.CollapseExample | frontend/src/components/ItineraryDisplay.jsx:91 | `A\n\n\n\nB` gives the lines `A`, empty, `B` |
| ItineraryDisplay.DocumentExample | frontend/src/components/ItineraryDisplay.jsx:148 | `A\n\n\n\nB` shows plain `A`, one spacer, plain `B` |
| ItineraryDisplay.DocumentOfLines | frontend/src/components/ItineraryDisplay.jsx:148 | lines of one capital letter, empty, one capital letter show as plain, spacer, plain |
| ItineraryDisplay.OneCapitalPlain | frontend/src/components/ItineraryDisplay.jsx:76-80 | a line of one capital letter is a plain line |
| ItineraryDisplay.SectionHeadingShape | frontend/src/components/ItineraryDisplay.jsx:16-17 | `#` or `##` and one whitespace character give a section heading whose text is the rest of the line |
| ItineraryDisplay.SectionHeadingOnly | frontend/src/components/ItineraryDisplay.jsx:16-17 | a section heading comes only from a line opening with one or two `#` and whitespace, and its text is everything after that whitespace character |
| ItineraryDisplay.ThreeHashesSubHeading | frontend/src/components/ItineraryDisplay.jsx:31-34 | `###` and whitespace never make a section heading: the line is a sub-heading whose text is the rest |
| ItineraryDisplay.FourHashesPlain | frontend/src/components/ItineraryDisplay.jsx:16-80 | a line opening with `####` falls through every rule to a plain line |
| ItineraryDisplay.LeadingSpaceLine | frontend/src/components/ItineraryDisplay.jsx:16-84 | a line opening with whitespace can only be a time label, a plain line or a spacer |
| ItineraryDisplay.BulletShape | frontend/src/components/ItineraryDisplay.jsx:40-41 | `-`, `*` or `•` and one whitespace character give a bullet whose content is the rest |
| ItineraryDisplay.NumberedShape | frontend/src/components/ItineraryDisplay.jsx:53-55 | digits, `.` or `)`, and one whitespace character give a numbered item keeping the digits as written and showing the rest |
| ItineraryDisplay.NumberedExample | frontend/src/components/ItineraryDisplay.jsx:53-55 | `12) Visit the tower` is item `12` with content `Visit the tower` |
| ItineraryDisplay.NumberedOnly | frontend/src/components/ItineraryDisplay.jsx:53-55 | a numbered item comes only from a line opening with its digits, a delimiter and whitespace, and its content is the rest |
| ItineraryDisplay.RemoveDoubleStarsStarFree | frontend/src/components/ItineraryDisplay.jsx:70 | removing `**` from text without `*` changes nothing |
| ItineraryDisplay.RemoveDoubleStarsAfter | frontend/src/components/ItineraryDisplay.jsx:70 | a star-free prefix is kept as it is by the `**` removal |
| ItineraryDisplay.RemoveOneDoubleStar | frontend/src/components/ItineraryDisplay.jsx:70 | a leading `**` is removed |
| ItineraryDisplay.TimeLabelShape | frontend/src/components/ItineraryDisplay.jsx:67-70 | whitespace, `**`, non-empty star-free text, `**`, whitespace give a time label showing the line without its `**` |
| ItineraryDisplay.TimeLabelTrimmed | frontend/src/components/ItineraryDisplay.jsx:67 | such a line, trimmed, matches `^\*\*[^*]+\*\*$` |
| ItineraryDisplay.TimeLabelNoMarker | frontend/src/components/ItineraryDisplay.jsx:16-53 | such a line matches none of the heading, sub-heading, bullet or numbered rules |
| ItineraryDisplay.TimeLabelText | frontend/src/components/ItineraryDisplay.jsx:70 | removing every `**` from such a line leaves the whitespace and the text |
| ItineraryDisplay.TimeLabelOnly | frontend/src/components/ItineraryDisplay.jsx:67-70 | a time label comes only from a line matching no earlier rule whose trimmed form is `**`, star-free text, `**`, and it shows the line with every `**` removed |
| ItineraryDisplay.SpacerIff | frontend/src/components/ItineraryDisplay.jsx:76-84 | a line is a spacer exactly when it is empty or all whitespace |
| ItineraryDisplay.MarkupKeepsLiteralBlocks | frontend/src/components/ItineraryDisplay.jsx:23-70 | headings, sub-headings, time labels and spacers are shown literally, never through `renderText` |
| ItineraryDisplay.MarkupStarFree | frontend/src/components/ItineraryDisplay.jsx:47-80 | a block whose text holds no `*` is shown unchanged |
| ItineraryDisplay.HeadingKeepsStars | frontend/src/components/ItineraryDisplay.jsx:16-23 | `# **Day 1**` shows the heading text `**Day 1**` with its stars |
| ItineraryDisplay.BulletRendersBold | frontend/src/components/ItineraryDisplay.jsx:40-47 | a bullet's leading `**x**` is shown as `<strong>x</strong>` |
| ItineraryDisplay.LeadingBold | frontend/src/components/ItineraryDisplay.jsx:6-10 | `**x**` followed by star-free text renders as one `<strong>` element and that text |
| ItineraryDisplay.BulletContentMayBeBullet | frontend/src/components/ItineraryDisplay.jsx:40-41 | `- - x` is a bullet whose content `- x` is itself a bullet |
| InterestSelector.Without | frontend/src/components/InterestSelector.jsx:25 | the filtered list holds exactly the elements other than the value |
| InterestSelector.Toggle | frontend/src/components/InterestSelector.jsx:24-25 | toggling flips whether the value is selected and leaves every other value's membership alone; an unselected value is appended at the end |
| InterestSelector.WithoutAppend | frontend/src/components/InterestSelector.jsx:25 | removal works piece by piece, so the remaining elements keep their order |
| InterestSelector.WithoutAbsent | frontend/src/components/InterestSelector.jsx:25 | removing an absent value changes nothing |
| InterestSelector.ToggleRemoves | frontend/src/components/InterestSelector.jsx:25 | toggling a selected value removes every occurrence of it and keeps the others in order |
| InterestSelector.ToggleTwiceAbsent | frontend/src/components/InterestSelector.jsx:25 | toggling an unselected value twice gives back the original list |
| InterestSelector.WithoutKeepsNoDup | frontend/src/components/InterestSelector.jsx:25 | removal keeps a duplicate-free list duplicate-free |
| InterestSelector.ToggleKeepsNoDup | frontend/src/components/InterestSelector.jsx:25 | toggling keeps a duplicate-free list duplicate-free |
| InterestSelector.CustomAddition | frontend/src/components/InterestSelector.jsx:27-29 | a list is reported exactly when the trimmed text is non-empty and not yet selected; it is the old list with the trimmed text appended, which starts and ends with non-whitespace |
| InterestSelector.CustomAdditionOnce | frontend/src/components/InterestSelector.jsx:29 | adding the same text a second time reports nothing |
| InterestSelector.CustomAdditionKeepsNoDup | frontend/src/components/InterestSelector.jsx:29 | adding a custom interest keeps a duplicate-free list duplicate-free |
| InterestSelector.Picker.constructor | frontend/src/components/InterestSelector.jsx:22 | the custom text starts empty |
| InterestSelector.Picker.SetCustom | frontend/src/components/InterestSelector.jsx:52 | typing replaces the custom text |
| InterestSelector.Picker.AddCustom | frontend/src/components/InterestSelector.jsx:27-30 | reports the list `CustomAddition` gives and empties the box when it reports, otherwise changes nothing |
| InterestSelector.Picker.AddDisabled | frontend/src/components/InterestSelector.jsx:56 | the Add button is disabled exactly when the box holds only whitespace; then pressing it could report nothing whatever is selected, and otherwise it would report for an empty selection |
| InterestSelector.FindPreset | frontend/src/components/InterestSelector.jsx:67 | `find` returns the first preset with the value, and none exactly when no preset has it |
| InterestSelector.PresetValuesDistinct | frontend/src/components/InterestSelector.jsx:4-19 | no two presets share a value |
| InterestSelector.SummaryLabelIs | frontend/src/components/InterestSelector.jsx:67-70 | a preset value is shown by its preset's label, any other value as it is |
| InterestSelector.Summary | frontend/src/components/InterestSelector.jsx:66-70 | one label per selected value, in order |
| InterestSelector.SummaryLabel | frontend/src/components/InterestSelector.jsx:67-70 | a preset value shows its preset's label and any other value shows as typed (`SummaryLabelIs`, `FoodLabel`, `CustomLabel`) |
| InterestSelector.FoodLabel | frontend/src/components/InterestSelector.jsx:67-70 | `food` is shown as `🍜 Food & Dining` |
| InterestSelector.CustomLabel | frontend/src/components/InterestSelector.jsx:67-70 | the custom interest `street art` is shown as typed |
| CityInput.Matching | frontend/src/components/CityInput.jsx:31 | the filter keeps exactly the cities whose lower-cased name contains the lower-cased query |
| CityInput.Take | frontend/src/components/CityInput.jsx:31-32 | `slice(0, n)` is the prefix of length `min(n, length)` |
| CityInput.Suggestions | frontend/src/components/CityInput.jsx:30-32 | an empty query gives exactly the first eight cities; any other query gives the first six matching cities in list order, or all of them when fewer match |
| CityInput.MatchingSubseq | frontend/src/components/CityInput.jsx:31 | the filter keeps the list order |
| CityInput.SuggestionsSubseq | frontend/src/components/CityInput.jsx:30-32 | suggestions are always cities of the list, in the list's order |
| CityInput.SuggestionsComplete | frontend/src/components/CityInput.jsx:30-31 | when at most six cities match, every matching city is suggested |
| CityInput.MatchingCaseInsensitive | frontend/src/components/CityInput.jsx:31 | the filter depends only on the lower-cased query |
| CityInput.SuggestionsCaseInsensitive | frontend/src/components/CityInput.jsx:30-31 | queries differing only in letter case get the same suggestions |
| CityInput.IncludesChar | frontend/src/components/CityInput.jsx:31 | a one-character needle is found exactly when the character occurs |
| CityInput.LowerSpace | frontend/src/components/CityInput.jsx:31 | lower-casing neither creates nor removes a space |
| CityInput.SpaceMatches | frontend/src/components/CityInput.jsx:31 | the query `" "` matches exactly the cities whose name holds a space |
| CityInput.MatchingOnly | frontend/src/components/CityInput.jsx:31 | a list in which only one city matches filters to that city |
| CityInput.MatchingNone | frontend/src/components/CityInput.jsx:31 | a list in which no city matches filters to nothing |
| CityInput.SpaceOnlyInNewYork | frontend/src/components/CityInput.jsx:4-23 | of the eighteen names only `New York` holds a space |
| CityInput.SpaceQuery | frontend/src/components/CityInput.jsx:30-31 | a whitespace-only query is not empty and filters: `" "` suggests only New York |
| CityInput.CityBox.constructor | frontend/src/components/CityInput.jsx:26-27 | the query starts as the given value or empty, and the dropdown starts closed |
| CityInput.CityBox.Caption | frontend/src/components/CityInput.jsx:83 | the caption is `Results` exactly when the query is non-empty |
| CityInput.CityBox.DropdownShown | frontend/src/components/CityInput.jsx:74 | the dropdown shows only while open, and with an empty query exactly while open, since the popular destinations are never empty |
| CityInput.CityBox.Select | frontend/src/components/CityInput.jsx:40-44 | the name becomes the query and is reported, and the dropdown closes and is not shown |
| CityInput.CityBox.Clear | frontend/src/components/CityInput.jsx:46 | the query empties and the empty text is reported; the dropdown keeps its state, and is shown exactly when it was open |
| CityInput.CityBox.Type | frontend/src/components/CityInput.jsx:58 | the text becomes the query and is reported, the dropdown opens, and it is shown exactly when the text is empty or some city matches |
| CityInput.CityBox.Focus | frontend/src/components/CityInput.jsx:59 | focusing opens the dropdown |
| CityInput.CityBox.PressOutside | frontend/src/components/CityInput.jsx:34-35 | a mouse press outside closes the dropdown |
| App.ActiveIndex | frontend/src/App.jsx:13-14 | the active index is always one of the three step positions |
| App.ActiveIndexOfSteps | frontend/src/App.jsx:12-14 | destination gives 0, interests 1, loading and result 2 |
| App.ActiveIndexOther | frontend/src/App.jsx:14 | any other name gives 0 |
| App.StepCircles | frontend/src/App.jsx:18-29 | one circle per step |
| App.Connectors | frontend/src/App.jsx:38 | one connector between each pair of neighbouring steps |
| App.StepBarProgress | frontend/src/App.jsx:24-29 | the indicator shows one check per step before the active one, number `i+1` on every unchecked circle `i`, exactly one current circle, which is the active one, and the circles up to the active one lit |
| App.ConnectorsLit | frontend/src/App.jsx:38-40 | a connector is coloured exactly when the step it leaves shows a check |
| App.FailureText | frontend/src/App.jsx:70-74 | the error is the non-empty `detail`, else the non-empty `message`, else the fixed fallback; it is never empty |
| App.GoInterestsNext | frontend/src/App.jsx:57-60 | a blank city sets the destination error and keeps the step; otherwise the error clears and the interests step opens; nothing else changes |
| App.GenerateNext | frontend/src/App.jsx:62-64 | no interests sets the interest error and keeps the step; otherwise the error clears, loading starts and one more request is counted; nothing else changes |
| App.GenerateRequest | frontend/src/App.jsx:63-66 | a request goes out exactly when interests are selected, carrying the city, the interests and the number the wizard then counts as the latest |
| App.ReceiveAsWritten | frontend/src/App.jsx:66-76 | a success stores the itinerary and opens the result; a failure sets the error to `FailureText` of the reply, which is never empty, and returns to interests; city and interests are kept |
| App.ReceiveNext | frontend/src/App.jsx:66-76 | the reply is handled as written exactly when the wizard is loading and the reply answers the latest request; otherwise it is dropped |
| App.ResetNext | frontend/src/App.jsx:79-81 | the five fields return to their initial values; the count of requests sent goes on |
| App.BackNext | frontend/src/App.jsx:236 | Back opens the destination step with no error and keeps city, interests, itinerary and the count of requests sent |
| App.BackUndoesGoInterests | frontend/src/App.jsx:57-60 | continuing and then going back restores the destination step exactly |
| App.GenerateThenFailure | frontend/src/App.jsx:62-76 | the failed reply to the request just sent returns to the interests step with the choices kept and the failure text shown |
| App.GenerateThenSuccess | frontend/src/App.jsx:62-68 | the successful reply to the request just sent shows the returned itinerary with the error cleared |
| App.QuickPickDropsFirstWord | frontend/src/App.jsx:199 | a quick pick drops its first space-separated word and keeps the rest exactly |
| App.QuickPickOneWord | frontend/src/App.jsx:199 | a label without a space yields the empty city |
| App.QuickPickAt | frontend/src/App.jsx:197-199 | each quick-pick label yields its city name |
| App.QuickPickCities | frontend/src/App.jsx:197-199 | the seven quick picks yield Paris, Tokyo, New York, Rome, Bali, Dubai and Bangalore |
| App.QuickPickCity | frontend/src/App.jsx:199 | `split(' ').slice(1).join(' ')`: drops exactly the first word (`QuickPickDropsFirstWord`, `QuickPickOneWord`, `QuickPickCities`) |
| App.ConsistentPreserved | frontend/src/App.jsx:57-81 | with stale replies dropped, every on-screen action keeps the city non-blank past the destination step, and keeps interests behind loading and the result |
| App.Apply | frontend/src/App.jsx:57-236 | one on-screen handler per event (city box, quick pick, Continue, picker, Generate, reply, logo reset, Back); its effects are stated by `ConsistentPreserved`, `AnswersPreserved`, `RunAnswers` and `StaleReplyAsWritten` |
| App.GenerateAnswers | frontend/src/App.jsx:62-66 | the request `generate` sends is the one the wizard then loads, for the city and interests on screen |
| App.AnswersPreserved | frontend/src/App.jsx:57-81 | every on-screen action keeps each request sent so far either the one on screen, with the city and interests shown, or abandoned with a number below the latest |
| App.RunAnswers | frontend/src/App.jsx:57-81 | the same holds after any run of on-screen actions |
| App.ReplyAnswersRequest | frontend/src/App.jsx:66-76 | with the corrected handler a reply changes the wizard only while it is loading the very request the reply answers |
| App.SupersededReplyDropped | frontend/src/App.jsx:66-76 | a reply to an abandoned request is dropped, even while a newer request is loading |
| App.ReplyOnlyForItsRequest | frontend/src/App.jsx:62-81 | whatever the user does after Generate (starting over, another city, a newer request), that request's reply is applied only while the wizard still loads the city and interests it was sent for |
| App.StaleReplyAsWritten | frontend/src/App.jsx:62-81 | as written, a reset during loading followed by a successful reply opens the result with a blank city |
| App.Wizard.constructor | frontend/src/App.jsx:50-54 | the five fields start at destination, `''`, `[]`, `''`, `''`, and no request has been sent |
| App.Wizard.SetCity | frontend/src/App.jsx:177 | the city box's report replaces the city only |
| App.Wizard.QuickPick | frontend/src/App.jsx:199 | a quick pick replaces the city only |
| App.Wizard.SetInterests | frontend/src/App.jsx:226 | the picker's report replaces the interests only |
| App.Wizard.GoInterests | frontend/src/App.jsx:57-60 | the state becomes `GoInterestsNext` of the old state |
| App.Wizard.Generate | frontend/src/App.jsx:62-66 | the state becomes `GenerateNext` of the old state and the request is `GenerateRequest` of it |
| App.Wizard.Receive | frontend/src/App.jsx:66-76 | the state becomes `ReceiveNext` of the old state, the reply's request number and the reply |
| App.Wizard.Reset | frontend/src/App.jsx:79-81 | the state becomes `ResetNext` of the old state: all five fields return to their initial values |
| App.Wizard.Back | frontend/src/App.jsx:236 | the state becomes `BackNext` of the old state |

## Left out

- Copy to clipboard and download (`ItineraryDisplay.jsx:93-107`) are browser I/O and a timer. Both use the unmodified itinerary string.
- Styling is presentation only and does not affect any decision: CSS classes, inline styles, the index-based animation delay, icons and the JSX layout.
- How the browser parses the HTML that `renderText` produces is not modelled. The output is modelled as a string.
- `toLowerCase` is modelled as ASCII folding. No other Unicode case mapping is modelled, and neither are UTF-16 surrogates: strings are sequences of Unicode scalar values.
- The axios POST is a network call. It becomes the request returned by `App.Wizard.Generate` plus a `Reply` input. A `detail` field that is not a string is not modelled, and neither is a missing or non-string `itinerary` field: a success always carries a string.
- `App.ActiveIndex`: looking up a name such as `constructor` in the JavaScript object yields an inherited member rather than `0`. The model returns 0 for every other name. The code only ever passes the step names.
- The interests-count caption (`App.jsx:249`), the disabled state of the Generate button (`App.jsx:240`) and the chip highlight (`InterestSelector.jsx:38`) are single comparisons.
- The loading animation (`LoadingState.jsx`) and the particle background are excluded. They are timers, random numbers and DOM mutation.
- The UI wrappers (`ui/*`) and the Python back end are not part of this model.
- `CityInput.CityBox` keeps its own query, seeded only when it is created. So a quick pick changes the wizard's city but not the text shown in the box. The two objects are modelled separately, and this mismatch is not stated as a property.
- `App.Wizard.Receive` uses the corrected handler from the finding below. It drops a reply unless the wizard is loading the request the reply answers. The code as written is `App.ReceiveAsWritten`, and the request counter `issued` exists only for the corrected handler.

## Findings

| source | as written | input that shows it | evidently intended | confidence | as-written member | corrected member |
|---|---|---|---|---|---|---|
| frontend/src/App.jsx:66-76 | after the `await`, the reply handler sets the itinerary (or the error) and the step, whatever the wizard is showing by then | click Generate, then click the logo (reset) while loading; a successful reply then opens the result step with a blank city and no interests | a reply is applied only while the wizard is still loading the request it answers; a reply to an abandoned request is ignored | medium, not executed | App.ReceiveAsWritten (exhibited by App.StaleReplyAsWritten) | App.ReceiveNext (proved by App.ReplyOnlyForItsRequest and App.ConsistentPreserved) |
