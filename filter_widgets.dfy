/**
 * The value logic of the filter widgets in src/components/filters/FilterBar.tsx:
 * the three-state quick toggle, the multi-select option toggle and the range
 * picker's "has a value" badge and clear button. Each computes the value it
 * hands to its `onChange` callback.
 */
module FilterWidgets {
  import opened Maybe

  /** `QuickToggle.cycle`: unset, then "yes", then "no", then unset again. */
  function Cycle(v: Option<bool>): (r: Option<bool>)
    ensures r != v
    ensures v == None ==> r == Some(true)
    ensures v == Some(true) ==> r == Some(false)
    ensures v == Some(false) ==> r == None
  {
    if v == None then Some(true)
    else if v == Some(true) then Some(false)
    else None
  }

  /** Three presses bring the toggle back to where it started, and fewer never do. */
  lemma CycleThrice(v: Option<bool>)
    ensures Cycle(Cycle(Cycle(v))) == v
    ensures Cycle(Cycle(v)) != v
  {
    match v
    case None =>
      assert Cycle(v) == Some(true);
    case Some(b) =>
      if b {
        assert Cycle(v) == Some(false);
      } else {
        assert Cycle(v) == None && Cycle(None) == Some(true);
      }
  }

  /** `selected.filter(s => s !== option)`. */
  function RemoveAll(s: seq<string>, option: string): (r: seq<string>)
    ensures |r| <= |s|
    ensures forall x :: x in r <==> x in s && x != option
  {
    if s == [] then []
    else if s[0] == option then RemoveAll(s[1..], option)
    else [s[0]] + RemoveAll(s[1..], option)
  }

  /** The filter keeps the remaining entries in order: it distributes over concatenation. */
  lemma {:induction false} RemoveAllAppend(a: seq<string>, b: seq<string>, option: string)
    ensures RemoveAll(a + b, option) == RemoveAll(a, option) + RemoveAll(b, option)
    decreases |a|
  {
    if a == [] {
      assert a + b == b;
    } else {
      assert (a + b)[1..] == a[1..] + b;
      RemoveAllAppend(a[1..], b, option);
    }
  }

  /** Filtering out an option that is not there changes nothing. */
  lemma {:induction false} RemoveAbsent(s: seq<string>, option: string)
    requires option !in s
    ensures RemoveAll(s, option) == s
    decreases |s|
  {
    if s != [] {
      RemoveAbsent(s[1..], option);
    }
  }

  /**
   * `MultiSelect.toggleOption`: a selected option is removed wherever it
   * occurs; an unselected one is appended at the end.
   */
  function ToggleOption(selected: seq<string>, option: string): (r: seq<string>)
    ensures option in selected ==> option !in r && forall x :: x != option ==> (x in r <==> x in selected)
    ensures option !in selected ==> r == selected + [option]
  {
    if option in selected then RemoveAll(selected, option) else selected + [option]
  }

  /** Selecting an absent option and then deselecting it restores the list. */
  lemma ToggleAbsentTwice(selected: seq<string>, option: string)
    requires option !in selected
    ensures ToggleOption(ToggleOption(selected, option), option) == selected
  {
    RemoveAllAppend(selected, [option], option);
    RemoveAbsent(selected, option);
    assert RemoveAll([option], option) == [] by {
      assert [option][1..] == [];
    }
  }

  /** Deselecting keeps the other entries in their order: what is before and after an occurrence stays so. */
  lemma DeselectKeepsOrder(before: seq<string>, after: seq<string>, option: string)
    ensures ToggleOption(before + [option] + after, option) == RemoveAll(before, option) + RemoveAll(after, option)
  {
    var s := before + [option] + after;
    assert s[|before|] == option;
    assert ToggleOption(s, option) == RemoveAll(s, option);
    RemoveAllAppend(before + [option], after, option);
    RemoveAllAppend(before, [option], option);
    assert RemoveAll([option], option) == [] by {
      assert [option][1..] == [];
    }
    assert RemoveAll(before + [option], option) == RemoveAll(before, option);
  }

  /** `RangeFilter.hasValue`: the badge shows when either bound is set. */
  function HasValue<T>(value: (Option<T>, Option<T>)): (r: bool)
    ensures r <==> value != (None, None)
  {
    value.0 != None || value.1 != None
  }

  /** The range picker's two text inputs. */
  datatype RangeInputs = RangeInputs(localMin: string, localMax: string)

  /** `handleClear`: both inputs emptied and `[null, null]` emitted, which carries no value. */
  function HandleClear<T>(inputs: RangeInputs): (r: (RangeInputs, (Option<T>, Option<T>)))
    ensures r.0.localMin == "" && r.0.localMax == ""
    ensures !HasValue(r.1)
  {
    (RangeInputs("", ""), (None, None))
  }
}
