/**
  The gem's earlier revision of the helper: a single `select2` that
  resolves the container (xpath, css or label text; there is no field
  mode), opens it, optionally types into the search box, chooses the drop
  container once, and then clicks one option for each string of
  `[value].flatten`, re-choosing the option selector for each.
 */
module Select2Gem {
  import opened Markup

  /** A value as passed: a string, or an array of values, nested freely. */
  datatype Value = Str(s: string) | List(items: seq<Value>)

  /** `vs.flatten`: the strings of `vs`, depth first, in order. */
  function FlattenAll(vs: seq<Value>): (r: seq<string>)
    ensures |vs| > 0 && vs[0].Str? ==> |r| > 0 && r[0] == vs[0].s
    decreases vs
  {
    if vs == [] then []
    else
      (match vs[0]
       case Str(s) => [s]
       case List(items) => FlattenAll(items))
      + FlattenAll(vs[1..])
  }

  /** `[value].flatten`. */
  function Flatten(v: Value): (r: seq<string>)
    ensures v.Str? ==> r == [v.s]
    ensures v.List? ==> r == FlattenAll(v.items)
  {
    assert [v][0] == v && FlattenAll([v][1..]) == [];
    FlattenAll([v])
  }

  /** Flattening distributes over concatenation of arrays. */
  lemma {:induction false} FlattenAllAppend(a: seq<Value>, b: seq<Value>)
    ensures FlattenAll(a + b) == FlattenAll(a) + FlattenAll(b)
    decreases a
  {
    if a == [] {
      assert a + b == b;
    } else {
      var head := match a[0] case Str(x) => [x] case List(items) => FlattenAll(items);
      assert (a + b)[0] == a[0];
      assert (a + b)[1..] == a[1..] + b;
      assert FlattenAll(a + b) == head + FlattenAll(a[1..] + b);
      assert FlattenAll(a) == head + FlattenAll(a[1..]);
      FlattenAllAppend(a[1..], b);
    }
  }

  /** A single string is processed once; a flat array of strings is
      processed string by string, in array order. */
  lemma FlattenFlatList(str: string, strs: seq<string>)
    ensures Flatten(Str(str)) == [str]
    ensures Flatten(List(seq(|strs|, i requires 0 <= i < |strs| => Str(strs[i])))) == strs
  {
    FlattenStrs(strs);
  }

  /** An array made only of strings flattens to those strings. */
  lemma {:induction false} FlattenStrs(strs: seq<string>)
    ensures FlattenAll(seq(|strs|, i requires 0 <= i < |strs| => Str(strs[i]))) == strs
    decreases |strs|
  {
    var vs := seq(|strs|, i requires 0 <= i < |strs| => Str(strs[i]));
    if strs != [] {
      var rest := seq(|strs| - 1, i requires 0 <= i < |strs| - 1 => Str(strs[1..][i]));
      assert vs[1..] == rest;
      FlattenStrs(strs[1..]);
    }
  }

  /** The keyword arguments; `nil` is `None`. */
  datatype Addressing = Addressing(xpath: Option<string>, css: Option<string>, from: Option<string>)

  const NoAddressingMessage := "None of xpath, css, nor from given"

  /** The addressing modes supplied, in the order the `case` tries them. */
  function Given(a: Addressing): seq<Container>
  {
    (if a.xpath.Some? then [ByXPath(a.xpath.value)] else [])
    + (if a.css.Some? then [ByCss(a.css.value)] else [])
    + (if a.from.Some? then [ByLabel(a.from.value)] else [])
  }

  /** The container `case`: xpath, then css, then label text; with none,
      an ArgumentError. A field-addressed container never results. */
  function FindContainer(a: Addressing): (r: Result<Container>)
    ensures r.Ok? <==> Given(a) != []
    ensures r.Ok? ==> r.value == Given(a)[0] && !r.value.ByField?
    ensures r.Err? ==> r.error == ArgumentError(NoAddressingMessage)
  {
    if a.xpath.Some? then Ok(ByXPath(a.xpath.value))
    else if a.css.Some? then Ok(ByCss(a.css.value))
    else if a.from.Some? then Ok(ByLabel(a.from.value))
    else Err(ArgumentError(NoAddressingMessage))
  }

  /** The text criterion of the option lookup: the literal string, or the
      unescaped case-insensitive pattern `/#{val}/i`, whose regular
      expression semantics are not modelled. */
  datatype Criterion = Literal(text: string) | CaseInsensitivePattern(source: string)

  /** One page interaction. */
  datatype Step =
    | Open(trigger: Trigger)
    | SendKeys(value: Value)
    | ClickMatching(locator: Locator, criterion: Criterion)

  /** The click for one string of the value: the option selector is probed
      anew under the drop container, and the criterion built from `val`. */
  function ValueClick(page: Page, drop: DropContainer, val: string, caseInsensitive: bool): (s: Step)
    ensures s.ClickMatching? && s.locator.drop == drop
    ensures s.locator.item == ModernItem <==> LocatorText(Locator(drop, ModernItem)) in page.bodyHas
    ensures s.criterion.Literal? <==> !caseInsensitive
    ensures s.criterion.Literal? ==> s.criterion.text == val
    ensures s.criterion.CaseInsensitivePattern? ==> s.criterion.source == val
  {
    var item := ChooseItem(page.bodyHas, drop);
    ClickMatching(Locator(drop, item), if caseInsensitive then CaseInsensitivePattern(val) else Literal(val))
  }

  /** The number of option clicks in a list of steps. */
  function ClickCount(steps: seq<Step>): nat
  {
    if steps == [] then 0
    else (if steps[0].ClickMatching? then 1 else 0) + ClickCount(steps[1..])
  }

  lemma {:induction false} ClickCountAppend(a: seq<Step>, b: seq<Step>)
    ensures ClickCount(a + b) == ClickCount(a) + ClickCount(b)
    decreases |a|
  {
    if a == [] {
      assert a + b == b;
    } else {
      assert (a + b)[1..] == a[1..] + b;
      ClickCountAppend(a[1..], b);
    }
  }

  /** The steps before the per-value clicks: open, then type when searching. */
  function OpeningSteps(value: Value, container: Container, search: bool, page: Page): (s: seq<Step>)
    ensures |s| == (if search then 2 else 1)
    ensures s[0] == Open(OpenTrigger(page.containerHas(container)))
    ensures search ==> s[1] == SendKeys(value)
    ensures SendKeys(value) in s <==> search
    ensures ClickCount(s) == 0
  {
    var s := [Open(OpenTrigger(page.containerHas(container)))] + (if search then [SendKeys(value)] else []);
    assert ClickCount(s[1..]) == 0 by {
      assert s[1..] == (if search then [SendKeys(value)] else []);
      assert search ==> s[1..][1..] == [];
    }
    s
  }

  /** One click per string of `vals`, in order. */
  function ClickSteps(page: Page, drop: DropContainer, vals: seq<string>, caseInsensitive: bool): (s: seq<Step>)
    ensures |s| == |vals|
    ensures forall i :: 0 <= i < |vals| ==> s[i] == ValueClick(page, drop, vals[i], caseInsensitive)
    ensures ClickCount(s) == |vals|
  {
    if vals == [] then []
    else
      var rest := ClickSteps(page, drop, vals[1..], caseInsensitive);
      var s := [ValueClick(page, drop, vals[0], caseInsensitive)] + rest;
      assert s[1..] == rest;
      s
  }

  /** Clicks for two runs of values are the clicks for each, in order. */
  lemma {:induction false} ClickStepsAppend(page: Page, drop: DropContainer, a: seq<string>, b: seq<string>, caseInsensitive: bool)
    ensures ClickSteps(page, drop, a + b, caseInsensitive)
      == ClickSteps(page, drop, a, caseInsensitive) + ClickSteps(page, drop, b, caseInsensitive)
    decreases |a|
  {
    if a == [] {
      assert a + b == b;
    } else {
      assert (a + b)[1..] == a[1..] + b;
      ClickStepsAppend(page, drop, a[1..], b, caseInsensitive);
    }
  }

  /** One more value adds its click at the end. */
  lemma ClickStepsExtend(page: Page, drop: DropContainer, vals: seq<string>, n: nat, caseInsensitive: bool)
    requires n < |vals|
    ensures ClickSteps(page, drop, vals[..n + 1], caseInsensitive)
      == ClickSteps(page, drop, vals[..n], caseInsensitive) + [ValueClick(page, drop, vals[n], caseInsensitive)]
  {
    assert vals[..n + 1] == vals[..n] + [vals[n]];
    ClickStepsAppend(page, drop, vals[..n], [vals[n]], caseInsensitive);
  }

  /** What `select2` is evidently meant to do once the container is found:
      open, type when searching, then click one option per string of
      `[value].flatten`. */
  function IntendedSteps(value: Value, container: Container, search: bool, caseInsensitive: bool, page: Page): (s: seq<Step>)
    ensures ClickCount(s) == |Flatten(value)|
    ensures |s| == |OpeningSteps(value, container, search, page)| + |Flatten(value)|
  {
    var opening := OpeningSteps(value, container, search, page);
    var clicks := ClickSteps(page, ChooseDrop(search, page.bodyHas), Flatten(value), caseInsensitive);
    ClickCountAppend(opening, clicks);
    opening + clicks
  }

  /** `select2`: no addressing mode means an ArgumentError before any
      click; otherwise the opening steps, then exactly one click per string
      of `[value].flatten`, in order. */
  method Select2(value: Value, addressing: Addressing, search: bool, caseInsensitive: bool, page: Page)
    returns (steps: seq<Step>, outcome: Result<()>)
    ensures outcome.Err? <==> Given(addressing) == []
    ensures outcome.Err? ==> steps == [] && outcome.error == ArgumentError(NoAddressingMessage)
    ensures outcome.Ok? ==>
      && steps == IntendedSteps(value, Given(addressing)[0], search, caseInsensitive, page)
      && ClickCount(steps) == |Flatten(value)|
  {
    var found := FindContainer(addressing);
    if found.Err? {
      return [], Err(found.error);
    }
    var opening := OpeningSteps(value, found.value, search, page);
    var drop := ChooseDrop(search, page.bodyHas);
    var vals := Flatten(value);
    steps := opening;
    var n := 0;
    while n < |vals|
      invariant 0 <= n <= |vals|
      invariant steps == opening + ClickSteps(page, drop, vals[..n], caseInsensitive)
    {
      var click := ValueClick(page, drop, vals[n], caseInsensitive);
      ClickStepsExtend(page, drop, vals, n, caseInsensitive);
      steps := steps + [click];
      n := n + 1;
    }
    assert vals[..n] == vals;
    outcome := Ok(());
  }

  /** `select2` as the revision is written: `body` is never bound in the
      method, so under the automation DSL it is the page's HTML, a string,
      and `body.has_selector?` raises NoMethodError on the first string of
      `[value].flatten`, after the opening steps and before any option click.
      Only an empty `[value].flatten` gets through. */
  function Select2AsWritten(value: Value, addressing: Addressing, search: bool, caseInsensitive: bool, page: Page)
    : (r: (seq<Step>, Result<()>))
    ensures r.1.Ok? <==> Given(addressing) != [] && Flatten(value) == []
    ensures Given(addressing) == [] ==> r == ([], Err(ArgumentError(NoAddressingMessage)))
    ensures Given(addressing) != [] ==> r.0 == OpeningSteps(value, Given(addressing)[0], search, page)
    ensures Given(addressing) != [] && Flatten(value) != [] ==> r.1 == Err(NoMethodError("has_selector?"))
    ensures ClickCount(r.0) == 0
  {
    match FindContainer(addressing)
    case Err(e) => ([], Err(e))
    case Ok(c) =>
      var opening := OpeningSteps(value, c, search, page);
      if Flatten(value) == [] then (opening, Ok(()))
      else (opening, Err(NoMethodError("has_selector?")))
  }

  /** Whenever there is a value to select, the revision as written clicks
      no option and raises, where the intended behaviour clicks one option
      per value. */
  lemma UnboundBodyClicksNothing(value: Value, addressing: Addressing, search: bool, caseInsensitive: bool, page: Page)
    requires Given(addressing) != [] && Flatten(value) != []
    ensures var asWritten := Select2AsWritten(value, addressing, search, caseInsensitive, page);
      var intended := IntendedSteps(value, Given(addressing)[0], search, caseInsensitive, page);
      && asWritten.1 == Err(NoMethodError("has_selector?"))
      && ClickCount(asWritten.0) == 0 < |Flatten(value)| == ClickCount(intended)
  {
  }

  /** The input that shows it: `select2("Apple", css: "#fruit")`. */
  lemma UnboundBodyExample(page: Page)
    ensures var a := Addressing(None, Some("#fruit"), None);
      && Select2AsWritten(Str("Apple"), a, false, false, page).1 == Err(NoMethodError("has_selector?"))
      && ClickCount(IntendedSteps(Str("Apple"), ByCss("#fruit"), false, false, page)) == 1
  {
  }
}
