/**
  The pieces both revisions of the select2 helper share: the three markup
  variants of the widget (trigger, drop container, option item), the page as
  the answers it gives to `has_selector?` probes, and the errors the helper
  raises.

  A probe `x.has_selector?(sel)` is modelled as `sel in has`, where `has` is
  the set of selector strings that `x` answers true for. The browser, the
  element lookups and the clicks themselves are not modelled: a click is a
  step in the trace an operation returns.
 */
module Markup {

  datatype Option<T> = None | Some(value: T)

  /** How a widget container was addressed. The lookup behind it is the
      automation framework's and is not modelled. */
  datatype Container =
    | ByXPath(xpath: string)
    | ByCss(css: string)
    | ByField(field: string)
    | ByLabel(from: string)

  /** The errors the helper raises, with what their messages carry. */
  datatype Error =
    | ArgumentError(message: string)
    | ElementNotFound(value: string)
    | Ambiguous(found: nat, value: string)
    | ExpectationNotMet
    | NoMethodError(methodName: string)

  datatype Result<T> = Ok(value: T) | Err(error: Error)

  /** The trigger sub-element that opens the widget, one per markup variant. */
  datatype Trigger = Selection | Choice | Choices

  /** The element that holds the rendered options once the widget is open. */
  datatype DropContainer = Results | Dropdown | Drop

  /** The selector of one rendered option: select2 4.0 markup or older. */
  datatype ItemSelector = ModernItem | LegacyItem

  /** The pair `[drop_container, results_selector]` the helper resolves. */
  datatype Locator = Locator(drop: DropContainer, item: ItemSelector)

  /** A snapshot of the page. `containerHas` gives the selectors each
      container answers `has_selector?` with true for, as probed before the
      opening click. `bodyHas` gives the selectors the body answers true
      for, and `elementTexts` the texts of the elements `find_all` returns
      for a selector string, in page order, both as probed after the
      opening click and any typing. */
  datatype Page = Page(
    bodyHas: set<string>,
    containerHas: Container -> set<string>,
    elementTexts: string -> seq<string>)

  function TriggerSelector(t: Trigger): string
  {
    match t
    case Selection => ".select2-selection"
    case Choice => ".select2-choice"
    case Choices => ".select2-choices"
  }

  function DropSelector(d: DropContainer): string
  {
    match d
    case Results => ".select2-results"
    case Dropdown => ".select2-dropdown"
    case Drop => ".select2-drop"
  }

  function ItemSelectorText(i: ItemSelector): string
  {
    match i
    case ModernItem => "li.select2-results__option"
    case LegacyItem => "li.select2-result-selectable"
  }

  /** `locator.join(' ')`: the descendant selector of the option elements.
      Splitting it at the first space gives back both halves. */
  function LocatorText(l: Locator): (s: string)
    ensures |s| > |DropSelector(l.drop)|
    ensures s[..|DropSelector(l.drop)|] == DropSelector(l.drop)
    ensures s[|DropSelector(l.drop)|] == ' '
    ensures s[|DropSelector(l.drop)| + 1..] == ItemSelectorText(l.item)
    ensures forall i :: 0 <= i < |DropSelector(l.drop)| ==> s[i] != ' '
  {
    DropSelector(l.drop) + " " + ItemSelectorText(l.item)
  }

  /** Different locators join to different selector strings, so the
      elements looked up are those of exactly one locator. */
  lemma LocatorTextInjective(l1: Locator, l2: Locator)
    requires LocatorText(l1) == LocatorText(l2)
    ensures l1 == l2
  {
    var s := LocatorText(l1);
    var n1, n2 := |DropSelector(l1.drop)|, |DropSelector(l2.drop)|;
    assert n1 == n2;
    assert DropSelector(l1.drop) == s[..n1] == DropSelector(l2.drop);
    assert ItemSelectorText(l1.item) == s[n1 + 1..] == ItemSelectorText(l2.item);
  }

  /** Position of a trigger in the order the opener probes them. */
  function TriggerRank(t: Trigger): nat
  {
    match t
    case Selection => 0
    case Choice => 1
    case Choices => 2
  }

  /** The opener: the first of `.select2-selection` and `.select2-choice`
      the container has, else `.select2-choices`, which is clicked without
      being probed. */
  function OpenTrigger(has: set<string>): (t: Trigger)
    ensures t == Choices || TriggerSelector(t) in has
    ensures forall u :: TriggerRank(u) < TriggerRank(t) ==> TriggerSelector(u) !in has
  {
    if ".select2-selection" in has then Selection
    else if ".select2-choice" in has then Choice
    else Choices
  }

  /** The drop container: `.select2-results` after a search, else
      `.select2-dropdown` when the page has one, else `.select2-drop`,
      whose presence is never checked. */
  function ChooseDrop(search: bool, bodyHas: set<string>): (d: DropContainer)
    ensures d == Results <==> search
    ensures d == Dropdown <==> !search && DropSelector(Dropdown) in bodyHas
    ensures d == Drop <==> !search && DropSelector(Dropdown) !in bodyHas
  {
    if search then Results
    else if ".select2-dropdown" in bodyHas then Dropdown
    else Drop
  }

  /** The option selector: the 4.0 item when one exists under the chosen
      drop container, else the legacy selectable item. */
  function ChooseItem(bodyHas: set<string>, drop: DropContainer): (i: ItemSelector)
    ensures i == ModernItem <==> LocatorText(Locator(drop, ModernItem)) in bodyHas
  {
    assert LocatorText(Locator(drop, ModernItem)) == DropSelector(drop) + " li.select2-results__option";
    if DropSelector(drop) + " li.select2-results__option" in bodyHas then ModernItem
    else LegacyItem
  }

  /** Every trigger is clicked for some container. */
  lemma EveryTriggerReachable(t: Trigger)
    ensures exists has :: OpenTrigger(has) == t
  {
    var has := match t
      case Selection => {TriggerSelector(Selection)}
      case Choice => {TriggerSelector(Choice)}
      case Choices => {};
    assert OpenTrigger(has) == t;
  }

  /** The 4.0 item probe is never mistaken for the dropdown marker. */
  lemma ItemProbeIsNotDropdownMarker(d: DropContainer)
    ensures LocatorText(Locator(d, ModernItem)) != DropSelector(Dropdown)
  {
    var probe := LocatorText(Locator(d, ModernItem));
    assert |probe| == |DropSelector(d)| + 1 + |ItemSelectorText(ModernItem)|;
    assert |ItemSelectorText(ModernItem)| > |DropSelector(Dropdown)|;
  }

  /** Every one of the six drop-container / option-item combinations is
      chosen for some page: feature detection skips none of them. */
  lemma EveryLocatorReachable(l: Locator)
    ensures exists search, bodyHas ::
      var d := ChooseDrop(search, bodyHas); Locator(d, ChooseItem(bodyHas, d)) == l
  {
    var search := l.drop == Results;
    var dropProbe: set<string> := if l.drop == Dropdown then {DropSelector(Dropdown)} else {};
    var itemProbe: set<string> := if l.item == ModernItem then {LocatorText(Locator(l.drop, ModernItem))} else {};
    var bodyHas := dropProbe + itemProbe;
    ItemProbeIsNotDropdownMarker(l.drop);
    if l.drop != Dropdown {
      assert DropSelector(Dropdown) !in bodyHas;
    }
    assert ChooseDrop(search, bodyHas) == l.drop;
    assert ChooseItem(bodyHas, l.drop) == l.item;
  }
}
