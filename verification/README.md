# capybara-select2, modelled in Dafny

capybara-select2 is a test helper. It drives a select2 searchable dropdown
in a browser page. A call does five things in order:

1. It finds the widget container, addressed by xpath, css, the `for` of a label (`field`) or a label's text (`from`).
2. It opens the widget by clicking the trigger that matches the widget's markup version.
3. When asked, it types the value into the search box.
4. It chooses where the rendered options live, as the pair `[drop_container, results_selector]`.
5. It either clicks the one option that matches the value (`select2`) or returns all the options (`select2_filter`).

Two revisions of the helper are modelled:

- `lib/capybara-select2.rb` is the current helper. It is modelled in `select2.dfy`, module `Select2`.
- `gem/lib/capybara-select2.rb` is an earlier `select2` that clicks one option per string of `[value].flatten`. It is modelled in `select2_gem.dfy`, module `Select2Gem`.

Shared code lives in two more modules:

- The three markup variants and the page probes are in `markup.dfy`, module `Markup`. The gem's opener (gem/lib/capybara-select2.rb:26-33) and drop-container choice (gem/lib/capybara-select2.rb:36-48) are the same code as the current helper's. Both modules call these definitions.
- Substring containment and the decimal rendering of counts are in `text.dfy`, module `Text`.

The browser is abstracted away:

- A probe `x.has_selector?(sel)` is the test `sel in has`. Here `has` is the set of selector strings the page body (`Page.bodyHas`) or the addressed container (`Page.containerHas`) answers true for.
- `find_all(sel)` gives the texts of the matching elements in page order (`Page.elementTexts`).
- Each operation returns its page interactions in order: opening clicks, keystrokes and option clicks. It also returns an outcome, `Ok` or `Err` with the exception raised.

Three behaviours of the source are easy to misread. The model follows the code as written.

- With `insensitive: true`, the current `select2` builds `/#{Regexp.escape(value)}/` with no `i` flag. Matching is therefore literal, case-sensitive containment. `InsensitiveKeepsCaseExample` shows `"apple"` choosing only `"apple"` from `["apple", "APPLE PIE"]`.
- `select2_filter` returns every element under the locator. It applies no match criterion (`FilterIgnoresValue`, `FilterExample`).
- The Ambiguous message reports the number of all candidates, not the number of matches (`AmbiguousCountsAllCandidatesExample`).

The gem revision has a defect. `body` is never assigned inside its `select2` (gem/lib/capybara-select2.rb:51 and :59). Under the automation DSL it therefore names `page.body`, which is the page's HTML as a string. `body.has_selector?` then raises NoMethodError as soon as `[value].flatten` holds a string. The gem as written therefore never clicks an option. `Select2Gem.Select2AsWritten` models that, and `Select2Gem.Select2` models the evidently intended behaviour, with `body` as the body element (see "## Findings").

## Model

| member | source | states |
|---|---|---|
| `Markup.LocatorText` | lib/capybara-select2.rb:37 | The joined selector is the drop container's selector, then one space, then the option selector. The drop container's part contains no space, so the split at the first space gives back both halves. |
| `Markup.LocatorTextInjective` | lib/capybara-select2.rb:37 | Two locators that join to the same selector string are the same locator. |
| `Markup.OpenTrigger` | lib/capybara-select2.rb:66-73 | The clicked trigger is the first of `.select2-selection`, `.select2-choice` the container has. Every trigger ranked before it is absent. Otherwise `.select2-choices` is clicked without a probe. |
| `Markup.ChooseDrop` | lib/capybara-select2.rb:90-100 | The drop container is `.select2-results` iff searching. It is `.select2-dropdown` iff not searching and the page has one. It is `.select2-drop` iff neither, with no existence check. |
| `Markup.ChooseItem` | lib/capybara-select2.rb:102-106 | The option selector is the 4.0 item iff the page has `"<drop> li.select2-results__option"` under the chosen drop container. Otherwise it is the legacy selectable item. |
| `Markup.EveryTriggerReachable` | lib/capybara-select2.rb:66-73 | Each of the three triggers is the one clicked for some container. |
| `Markup.ItemProbeIsNotDropdownMarker` | lib/capybara-select2.rb:96-102 | The 4.0 item probe is never the `.select2-dropdown` probe, so the two feature tests are independent. |
| `Markup.EveryLocatorReachable` | lib/capybara-select2.rb:90-107 | Each of the six drop-container and option-item pairs is chosen for some page and search flag. |
| `Text.Occurs` | lib/capybara-select2.rb:24 | A value that occurs is no longer than the text. Between strings of equal length, occurrence is equality. |
| `Text.OccursAtSomePosition` | lib/capybara-select2.rb:24 | The containment test holds iff some position of the text starts a literal copy of the value. |
| `Text.OccursReflexiveAndEmpty` | lib/capybara-select2.rb:24 | A value occurs in itself. The empty value occurs in every text. |
| `Text.FirstCharAbsent` | lib/capybara-select2.rb:24 | A value whose first character appears nowhere in the text does not occur in it. |
| `Text.NatToDecimal` | lib/capybara-select2.rb:46 | A count renders as a non-empty string of decimal digits with no leading zero. |
| `Text.DecimalRoundTrip` | lib/capybara-select2.rb:46 | The rendered count reads back as the count itself. |
| `Select2.FindContainer` | lib/capybara-select2.rb:52-63 | The container is the first mode supplied in the order xpath, css, field, from. With none supplied, the result is `ArgumentError` with the source's message. |
| `Select2.LaterModesIgnored` | lib/capybara-select2.rb:53-60 | Modes after the first supplied one can change freely without changing the container. |
| `Select2.FindLocator` | lib/capybara-select2.rb:85-107 | With no mode, the result is ArgumentError with no page interaction. Otherwise there is exactly one opener click, then keystrokes iff searching. The locator is the drop container and option selector chosen from the probes. |
| `Select2.OptionMatches` | lib/capybara-select2.rb:24-38 | An option matches its own text in both modes. A matching value is no longer than the option text. Between strings of equal length, a match is equality in both modes. |
| `Select2.MatchesFrom` | lib/capybara-select2.rb:38 | The selected positions are ascending. Each one matches. Every matching position from `i` on is selected. |
| `Select2.MatchIndices` | lib/capybara-select2.rb:38 | A position is selected iff it is a position of the results whose text matches. The selected positions are strictly ascending, so the matches keep page order. |
| `Select2.NoMatchFrom` | lib/capybara-select2.rb:38 | With no match from `i` on, nothing is selected. |
| `Select2.OnlyMatchFrom` | lib/capybara-select2.rb:38 | If `j` is the only match from `i` on, the selection is exactly `[j]`. |
| `Select2.Select2` | lib/capybara-select2.rb:23-48 | With no mode, the result is ArgumentError before any interaction. A failed pre-assertion gives ExpectationNotMet after the opening steps, with no option click. An option click happens only as the last step and only on success. Every success ends with one. |
| `Select2.Select2NoMatch` | lib/capybara-select2.rb:40-42 | The result is ElementNotFound carrying the value iff no candidate matches. |
| `Select2.Select2UniqueMatch` | lib/capybara-select2.rb:43-44 | With exactly one matching candidate, the call succeeds. Its steps are the opening steps followed by a click on that candidate only. |
| `Select2.Select2Ambiguous` | lib/capybara-select2.rb:45-46 | With two matching candidates, the result is Ambiguous carrying the count of all candidates and the value. No option is clicked. |
| `Select2.Select2Filter` | lib/capybara-select2.rb:11-15 | The result is every element under the resolved locator, whatever their number. Only a missing addressing mode raises. |
| `Select2.FilterIgnoresValue` | lib/capybara-select2.rb:11-15 | On the same page, any two values give the same filter result. |
| `Select2.Message` | lib/capybara-select2.rb:42-46 | The ArgumentError message is the one raised. The not-found and ambiguous messages end with the value sought. The ambiguous message carries the decimal count at its fixed position after "Ambiguous match, found ". |
| `Select2.ExactTextExample` | lib/capybara-select2.rb:28-44 | With `exact_text:` set, so that the pre-assertion holds, exact matching of `"Apple"` against `["Apple", "Apple Pie"]` clicks the first option. |
| `Select2.InsensitiveKeepsCaseExample` | lib/capybara-select2.rb:24-44 | `insensitive: true` with `"apple"` against `["apple", "APPLE PIE"]` clicks only the first option. |
| `Select2.CaseSensitiveMatch` | lib/capybara-select2.rb:38 | Containment of `"apple"` selects only position 0 of `["apple", "APPLE PIE"]`. |
| `Select2.NoMatchExample` | lib/capybara-select2.rb:40-42 | `"Apple"` against `["Banana"]` gives ElementNotFound with the message "Unable to find a matching option for Apple". |
| `Select2.AmbiguousCountsAllCandidatesExample` | lib/capybara-select2.rb:28-46 | With `exact_text:` set, so that the pre-assertion holds, containment of `"Apple"` in `["Apple", "Apple Pie", "Banana"]` gives Ambiguous reporting 3 candidates. |
| `Select2.FilterExample` | lib/capybara-select2.rb:11-15 | The filter for `"Apple"` returns all of `["Apple", "Apple Pie", "Banana"]`. |
| `Select2Gem.FlattenAll` | gem/lib/capybara-select2.rb:50 | An array that starts with a string flattens to a list that starts with that string. |
| `Select2Gem.Flatten` | gem/lib/capybara-select2.rb:50 | A single string flattens to itself alone. An array flattens to the flattening of its items. |
| `Select2Gem.FlattenAllAppend` | gem/lib/capybara-select2.rb:50 | Flattening distributes over concatenation of arrays. |
| `Select2Gem.FlattenFlatList` | gem/lib/capybara-select2.rb:50 | Any single string flattens to itself. Any flat array of strings flattens to those strings in order. |
| `Select2Gem.FlattenStrs` | gem/lib/capybara-select2.rb:50 | An array made of strings flattens to those strings. |
| `Select2Gem.FindContainer` | gem/lib/capybara-select2.rb:12-23 | The container is the first mode supplied in the order xpath, css, from. It is never field-addressed. With none supplied, the result is `ArgumentError` with this revision's message. |
| `Select2Gem.ValueClick` | gem/lib/capybara-select2.rb:51-61 | The click for one string uses the chosen drop container. Its option selector is re-probed. Its criterion is the literal string iff not case-insensitive, and otherwise the uninterpreted pattern built from the string. |
| `Select2Gem.OpeningSteps` | gem/lib/capybara-select2.rb:25-42 | Opening is exactly the trigger click, followed by the keystrokes of the value iff searching. It contains no option click. |
| `Select2Gem.ClickCountAppend` | gem/lib/capybara-select2.rb:50-62 | Option clicks of two step lists add up. |
| `Select2Gem.ClickSteps` | gem/lib/capybara-select2.rb:50-62 | There is one step per string. The i-th step is the click for the i-th string. Every step is an option click. |
| `Select2Gem.ClickStepsAppend` | gem/lib/capybara-select2.rb:50-62 | The clicks for two runs of strings are the clicks for each run, in order. |
| `Select2Gem.ClickStepsExtend` | gem/lib/capybara-select2.rb:50-62 | One more string adds its click at the end. |
| `Select2Gem.IntendedSteps` | gem/lib/capybara-select2.rb:25-62 | The intended run has one option click per flattened string. Its length is the opening's plus the number of strings. |
| `Select2Gem.Select2` | gem/lib/capybara-select2.rb:11-63 | With no mode, the result is ArgumentError and nothing is clicked. Otherwise the steps are the opening steps, then the click for each flattened string in order. There is exactly one option click per string. `body` is taken to be the body element. |
| `Select2Gem.Select2AsWritten` | gem/lib/capybara-select2.rb:11-61 | With no mode, the result is ArgumentError. Otherwise the opening steps run. Then NoMethodError is raised iff `[value].flatten` is non-empty, and no option is ever clicked. |
| `Select2Gem.UnboundBodyClicksNothing` | gem/lib/capybara-select2.rb:50-61 | Whenever there is a string to select, the revision as written raises with no click, where the intended run clicks once per string. |
| `Select2Gem.UnboundBodyExample` | gem/lib/capybara-select2.rb:51 | `select2("Apple", css: "#fruit")` raises NoMethodError as written. The intended run clicks one option. |

## Left out

- Element lookups are not modelled: `find`, `find_all`, the label and sibling walk, and the trigger and option clicks themselves. Their own ElementNotFound and Ambiguous errors are left out too. A container is identified by how it was addressed, and a click is a step in the returned list.
- The waits are not modelled: the busy-wait `loop while loading_results?` (lib/capybara-select2.rb:94, gem/lib/capybara-select2.rb:41) and the `sleep`/`wait` pauses. They poll live page state and have no termination argument. The page is one snapshot. `Page.containerHas` answers the probes made before the opening click. `Page.bodyHas` and `Page.elementTexts` answer the probes made after the opening click and any typing.
- Select2.Select2: the `have_css` pre-assertion (lib/capybara-select2.rb:28-36) is an input flag `expectationMet`. When the flag is false the outcome is `ExpectationNotMet`. The `exact_text` and `expect_elements` options it reads, and its RSpec message, are not modelled. Without `exact_text:`, the pre-assertion requires exactly one element containing the text. The example lemmas with two candidates containing the value (`ExactTextExample`, `AmbiguousCountsAllCandidatesExample`) therefore describe calls made with `exact_text:`.
- Select2.Candidates: the `find_all` of the joined selector is the page's `elementTexts` at `LocatorText`. What it means is stated by `Markup.LocatorText` and `Markup.LocatorTextInjective`.
- Select2Gem.Select2: the gem's `find(..., text:)` lookup (gem/lib/capybara-select2.rb:59-61) is a click step carrying a criterion. Capybara's uniqueness and not-found rules for it are not modelled. The case-insensitive criterion keeps the unescaped `/#{val}/i` source text without regular-expression semantics.
- Select2Gem.Select2: every value is processed against the same page snapshot. Page changes caused by an earlier click are not modelled.
- Select2Gem.Select2: it models the gem with `body` as the body element (`find(:xpath, '//body')`, as lib/capybara-select2.rb:27 binds it). As written, `body` at gem/lib/capybara-select2.rb:51 and :59 is unbound, and the call raises NoMethodError instead. `Select2Gem.Select2AsWritten` models that (see "## Findings"). Outside the automation DSL, the unbound name would raise NameError instead. That variant is not modelled.
- Select2Gem.Select2: how the browser driver interprets `send_keys` with an array value is not modelled. The keystroke step records the value as passed.
- `RSpec.configure` registration (lib/capybara-select2.rb:116-119, gem/lib/capybara-select2.rb:67-70) is framework glue.
- Neither revision modelled here has a bounded retry against a "Searching…" placeholder. That behaviour is not part of this model.

## Findings

| source | as written | input that shows it | evidently intended | confidence | as-written member | corrected member |
|---|---|---|---|---|---|---|
| gem/lib/capybara-select2.rb:51 | `body` is never assigned in `select2`. It resolves to the DSL's `page.body`, the HTML string, and `body.has_selector?` raises NoMethodError before any option is clicked. | `select2("Apple", css: "#fruit")` | `body = find(:xpath, '//body')`, as at lib/capybara-select2.rb:27, so that one option is clicked per string of `[value].flatten` | not executed; high | `Select2Gem.Select2AsWritten`, `Select2Gem.UnboundBodyClicksNothing`, `Select2Gem.UnboundBodyExample` | `Select2Gem.Select2`, `Select2Gem.IntendedSteps` |
