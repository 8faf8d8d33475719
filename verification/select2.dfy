/**
  The current select2 helper: `select2` picks one option of a select2 widget
  by its text, `select2_filter` returns the options the widget renders.
  Both first resolve the widget container from the addressing arguments,
  open it, optionally type the value into its search box, and choose the
  locator `[drop_container, results_selector]` of the rendered options.

  An operation returns a `Run`: the page interactions it performs, in order,
  and how it ends. The container's probes are those made before the opening
  click; the body's probes and the option texts are those made after the
  opening click and any typing.
 */
module Select2 {
  import opened Markup
  import opened Text

  /** The keyword arguments the helper reads; `nil` is `None`. Any string,
      even an empty one, is truthy in Ruby and so counts as given. */
  datatype Args = Args(
    xpath: Option<string>,
    css: Option<string>,
    field: Option<string>,
    from: Option<string>,
    search: bool)

  /** One page interaction. */
  datatype Step =
    | Open(trigger: Trigger)
    | SendKeys(text: string)
    | ClickOption(index: nat)

  datatype Run<T> = Run(steps: seq<Step>, outcome: Result<T>)

  const NoAddressingMessage := "None of xpath, css, field, nor from given"

  /** The addressing modes the caller supplied, in the order the helper
      tries them: xpath, css, field, from. */
  function Given(a: Args): seq<Container>
  {
    (if a.xpath.Some? then [ByXPath(a.xpath.value)] else [])
    + (if a.css.Some? then [ByCss(a.css.value)] else [])
    + (if a.field.Some? then [ByField(a.field.value)] else [])
    + (if a.from.Some? then [ByLabel(a.from.value)] else [])
  }

  /** `find_select2_container`: the first addressing mode supplied wins;
      with none, an ArgumentError. */
  function FindContainer(a: Args): (r: Result<Container>)
    ensures r.Ok? <==> Given(a) != []
    ensures r.Ok? ==> r.value == Given(a)[0]
    ensures r.Err? ==> r.error == ArgumentError(NoAddressingMessage)
  {
    if a.xpath.Some? then Ok(ByXPath(a.xpath.value))
    else if a.css.Some? then Ok(ByCss(a.css.value))
    else if a.field.Some? then Ok(ByField(a.field.value))
    else if a.from.Some? then Ok(ByLabel(a.from.value))
    else Err(ArgumentError(NoAddressingMessage))
  }

  /** Once a mode is supplied, the modes after it are never consulted. */
  lemma LaterModesIgnored(a: Args, b: Args)
    requires a.xpath == b.xpath
    requires a.xpath.None? ==> a.css == b.css
    requires a.xpath.None? && a.css.None? ==> a.field == b.field
    requires a.xpath.None? && a.css.None? && a.field.None? ==> a.from == b.from
    ensures FindContainer(a) == FindContainer(b)
  {
  }

  /** `find_select2_locator`: open the widget, type the value when
      searching, and choose the drop container and option selector. */
  function FindLocator(value: string, args: Args, page: Page): (r: Run<Locator>)
    ensures r.outcome.Ok? <==> Given(args) != []
    ensures r.outcome.Err? ==> r.steps == [] && r.outcome.error == ArgumentError(NoAddressingMessage)
    ensures r.outcome.Ok? ==>
      && |r.steps| >= 1
      && r.steps[0] == Open(OpenTrigger(page.containerHas(Given(args)[0])))
      && r.steps[1..] == (if args.search then [SendKeys(value)] else [])
    ensures r.outcome.Ok? ==>
      && r.outcome.value.drop == ChooseDrop(args.search, page.bodyHas)
      && r.outcome.value.item == ChooseItem(page.bodyHas, r.outcome.value.drop)
  {
    match FindContainer(args)
    case Err(e) => Run([], Err(e))
    case Ok(c) =>
      var opening := [Open(OpenTrigger(page.containerHas(c)))];
      var typed := if args.search then [SendKeys(value)] else [];
      var drop := ChooseDrop(args.search, page.bodyHas);
      Run(opening + typed, Ok(Locator(drop, ChooseItem(page.bodyHas, drop))))
  }

  /** The texts of the elements under a locator, in page order. */
  function Candidates(loc: Locator, page: Page): seq<string>
  {
    page.elementTexts(LocatorText(loc))
  }

  /** The match criterion of `select2`: equality, or with `insensitive`
      literal case-sensitive containment of the value (the pattern is built
      with `Regexp.escape` and carries no `i` flag). */
  predicate OptionMatches(text: string, value: string, insensitive: bool)
    ensures OptionMatches(text, value, insensitive) ==> |value| <= |text|
    ensures text == value ==> OptionMatches(text, value, insensitive)
    ensures |text| == |value| ==> (OptionMatches(text, value, insensitive) <==> text == value)
  {
    OccursReflexiveAndEmpty(value, text);
    if insensitive then Occurs(value, text) else text == value
  }

  /** The positions from `i` on of the results that match, ascending. */
  function MatchesFrom(results: seq<string>, value: string, insensitive: bool, i: nat): (r: seq<nat>)
    requires i <= |results|
    ensures forall k :: 0 <= k < |r| ==> i <= r[k] < |results| && OptionMatches(results[r[k]], value, insensitive)
    ensures forall j :: i <= j < |results| && OptionMatches(results[j], value, insensitive) ==> j in r
    ensures forall k, l :: 0 <= k < l < |r| ==> r[k] < r[l]
    decreases |results| - i
  {
    if i == |results| then []
    else if OptionMatches(results[i], value, insensitive) then [i] + MatchesFrom(results, value, insensitive, i + 1)
    else MatchesFrom(results, value, insensitive, i + 1)
  }

  /** `results.select { ... }`, as positions into `results`. */
  function MatchIndices(results: seq<string>, value: string, insensitive: bool): (m: seq<nat>)
    ensures forall j :: j in m <==> 0 <= j < |results| && OptionMatches(results[j], value, insensitive)
    ensures forall k, l :: 0 <= k < l < |m| ==> m[k] < m[l]
  {
    MatchesFrom(results, value, insensitive, 0)
  }

  /** Past the last matching result, nothing more is selected. */
  lemma {:induction false} NoMatchFrom(results: seq<string>, value: string, insensitive: bool, i: nat)
    requires i <= |results|
    requires forall k :: i <= k < |results| ==> !OptionMatches(results[k], value, insensitive)
    ensures MatchesFrom(results, value, insensitive, i) == []
    decreases |results| - i
  {
    if i < |results| {
      NoMatchFrom(results, value, insensitive, i + 1);
    }
  }

  /** A result that is the only match from `i` on is all that is selected. */
  lemma {:induction false} OnlyMatchFrom(results: seq<string>, value: string, insensitive: bool, i: nat, j: nat)
    requires i <= j < |results| && OptionMatches(results[j], value, insensitive)
    requires forall k :: i <= k < |results| && OptionMatches(results[k], value, insensitive) ==> k == j
    ensures MatchesFrom(results, value, insensitive, i) == [j]
    decreases |results| - i
  {
    if i < j {
      OnlyMatchFrom(results, value, insensitive, i + 1, j);
    } else {
      NoMatchFrom(results, value, insensitive, i + 1);
    }
  }

  /** `select2`: resolve the locator, pass the pre-assertion, and click the
      single matching option; no match and several matches raise.
      `expectationMet` is the verdict of the `have_css` pre-assertion. */
  function Select2(value: string, insensitive: bool, args: Args, page: Page, expectationMet: bool): (r: Run<()>)
    ensures Given(args) == [] ==> r == Run([], Err(ArgumentError(NoAddressingMessage)))
    ensures Given(args) != [] && !expectationMet ==>
      r == Run(FindLocator(value, args, page).steps, Err(ExpectationNotMet))
    ensures forall i :: 0 <= i < |r.steps| && r.steps[i].ClickOption? ==> i == |r.steps| - 1 && r.outcome.Ok?
    ensures r.outcome.Ok? ==> |r.steps| > 0 && r.steps[|r.steps| - 1].ClickOption?
  {
    var located := FindLocator(value, args, page);
    match located.outcome
    case Err(e) => Run(located.steps, Err(e))
    case Ok(loc) =>
      if !expectationMet then Run(located.steps, Err(ExpectationNotMet))
      else
        var results := Candidates(loc, page);
        var matches := MatchIndices(results, value, insensitive);
        if |matches| == 0 then Run(located.steps, Err(ElementNotFound(value)))
        else if |matches| == 1 then Run(located.steps + [ClickOption(matches[0])], Ok(()))
        else Run(located.steps, Err(Ambiguous(|results|, value)))
  }

  /** No matching candidate: ElementNotFound naming the value, no option
      clicked; and this is the only way to get ElementNotFound. */
  lemma Select2NoMatch(value: string, insensitive: bool, args: Args, page: Page)
    requires Given(args) != []
    ensures var loc := FindLocator(value, args, page).outcome.value;
      var results := Candidates(loc, page);
      var r := Select2(value, insensitive, args, page, true);
      (r.outcome == Err(ElementNotFound(value)) <==>
        (forall j :: 0 <= j < |results| ==> !OptionMatches(results[j], value, insensitive)))
  {
    var loc := FindLocator(value, args, page).outcome.value;
    var results := Candidates(loc, page);
    var m := MatchIndices(results, value, insensitive);
    if |m| > 0 {
      assert m[0] in m;
    }
  }

  /** Exactly one matching candidate: that one, and only that one, is
      clicked, after the opening steps. */
  lemma Select2UniqueMatch(value: string, insensitive: bool, args: Args, page: Page, j: nat)
    requires Given(args) != []
    requires var results := Candidates(FindLocator(value, args, page).outcome.value, page);
      && j < |results| && OptionMatches(results[j], value, insensitive)
      && forall k :: 0 <= k < |results| && OptionMatches(results[k], value, insensitive) ==> k == j
    ensures var r := Select2(value, insensitive, args, page, true);
      && r.outcome == Ok(())
      && r.steps == FindLocator(value, args, page).steps + [ClickOption(j)]
  {
    var results := Candidates(FindLocator(value, args, page).outcome.value, page);
    var m := MatchIndices(results, value, insensitive);
    OnlyMatchFrom(results, value, insensitive, 0, j);
  }

  /** Two or more matching candidates: Ambiguous, reporting the number of
      all candidates (not of the matches), and no option clicked. */
  lemma Select2Ambiguous(value: string, insensitive: bool, args: Args, page: Page, j: nat, k: nat)
    requires Given(args) != []
    requires var results := Candidates(FindLocator(value, args, page).outcome.value, page);
      && j < |results| && k < |results| && j != k
      && OptionMatches(results[j], value, insensitive) && OptionMatches(results[k], value, insensitive)
    ensures var results := Candidates(FindLocator(value, args, page).outcome.value, page);
      var r := Select2(value, insensitive, args, page, true);
      && r.outcome == Err(Ambiguous(|results|, value))
      && r.steps == FindLocator(value, args, page).steps
  {
  }

  /** `select2_filter`: every element under the locator, whatever the
      value and however many there are; only a missing addressing mode
      raises. */
  function Select2Filter(value: string, args: Args, page: Page): (r: Run<seq<string>>)
    ensures r.outcome.Ok? <==> Given(args) != []
    ensures r.outcome.Err? ==> r.outcome.error == ArgumentError(NoAddressingMessage)
    ensures r.outcome.Ok? ==> r.outcome.value == Candidates(FindLocator(value, args, page).outcome.value, page)
  {
    var located := FindLocator(value, args, page);
    match located.outcome
    case Err(e) => Run(located.steps, Err(e))
    case Ok(loc) => Run(located.steps, Ok(page.elementTexts(LocatorText(loc))))
  }

  /** The filter applies no match criterion: two different values yield
      the same elements on the same page. */
  lemma FilterIgnoresValue(v1: string, v2: string, args: Args, page: Page)
    ensures Select2Filter(v1, args, page).outcome == Select2Filter(v2, args, page).outcome
  {
  }

  /** The message of an error the helper raises itself. */
  function Message(e: Error): (m: string)
    requires e.ArgumentError? || e.ElementNotFound? || e.Ambiguous?
    ensures e.ArgumentError? ==> m == e.message
    ensures e.ElementNotFound? || e.Ambiguous? ==> |e.value| <= |m| && m[|m| - |e.value|..] == e.value
    ensures e.Ambiguous? ==> |m| >= 23 + |NatToDecimal(e.found)| && m[23..23 + |NatToDecimal(e.found)|] == NatToDecimal(e.found)
  {
    match e
    case ArgumentError(m) => m
    case ElementNotFound(v) => "Unable to find a matching option for " + v
    case Ambiguous(n, v) => "Ambiguous match, found " + NatToDecimal(n) + " options for " + v
  }

  /** A page whose every `find_all` returns `texts` and which answers
      every probe with false, addressed by a css selector. */
  function PlainPage(texts: seq<string>): Page
  {
    Page({}, c => {}, sel => texts)
  }

  const ByCssOnly := Args(None, Some("#fruit"), None, None, false)

  /** Exact matching does not take "Apple Pie" for "Apple": the first
      option is clicked, after the (unprobed) legacy multi-select trigger.
      The pre-assertion holds here only when `exact_text:` is set: without
      it, `have_css(..., text:, count: 1)` sees two items containing
      "Apple" and fails. */
  lemma ExactTextExample()
    ensures Select2("Apple", false, ByCssOnly, PlainPage(["Apple", "Apple Pie"]), true)
      == Run([Open(Choices), ClickOption(0)], Ok(()))
  {
  }

  /** `insensitive: true` still compares case: "APPLE PIE" does not
      contain "apple", so the lower-case option is the single match. */
  lemma InsensitiveKeepsCaseExample()
    ensures Select2("apple", true, ByCssOnly, PlainPage(["apple", "APPLE PIE"]), true)
      == Run([Open(Choices), ClickOption(0)], Ok(()))
  {
    CaseSensitiveMatch();
  }

  lemma CaseSensitiveMatch()
    ensures MatchIndices(["apple", "APPLE PIE"], "apple", true) == [0]
  {
    var texts := ["apple", "APPLE PIE"];
    OccursReflexiveAndEmpty("apple", "");
    FirstCharAbsent("apple", texts[1]);
    OnlyMatchFrom(texts, "apple", true, 0, 0);
  }

  /** A value no option equals: ElementNotFound with the value in the
      message. */
  lemma NoMatchExample()
    ensures var r := Select2("Apple", false, ByCssOnly, PlainPage(["Banana"]), true);
      && r == Run([Open(Choices)], Err(ElementNotFound("Apple")))
      && Message(r.outcome.error) == "Unable to find a matching option for Apple"
  {
  }

  /** Two options contain "Apple", and the message counts all three
      candidates. As for ExactTextExample, the pre-assertion holds here
      only when `exact_text:` is set. */
  lemma AmbiguousCountsAllCandidatesExample()
    ensures Select2("Apple", true, ByCssOnly, PlainPage(["Apple", "Apple Pie", "Banana"]), true)
      == Run([Open(Choices)], Err(Ambiguous(3, "Apple")))
  {
  }

  /** The filter hands back the non-matching "Banana" as well. */
  lemma FilterExample()
    ensures Select2Filter("Apple", ByCssOnly, PlainPage(["Apple", "Apple Pie", "Banana"])).outcome
      == Ok(["Apple", "Apple Pie", "Banana"])
  {
  }
}
