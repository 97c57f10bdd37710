/**
 * The list update a checkbox makes when it is ticked or cleared, and the
 * predicates that decide whether a radio button or a checkbox shows as checked.
 */
module Checkbox {
  import opened Schema
  import Validator

  /** A radio option is checked when the stored value is that very string (`===`). */
  predicate RadioChecked(v: Option<FieldValue>, option: string): (checked: bool)
    ensures checked ==> v.Some? && v.value.Str? && v.value.s == option
    ensures v == Some(Str(option)) ==> checked
    ensures checked ==> !CheckboxChecked(v, option)
  {
    v == Some(Str(option))
  }

  /** A checkbox option is checked when the stored value is a list that contains it. */
  predicate CheckboxChecked(v: Option<FieldValue>, option: string): (checked: bool)
    ensures checked ==> v.Some? && v.value.Multi? && exists i :: 0 <= i < |v.value.items| && v.value.items[i] == option
    ensures v.Some? && v.value.Multi? && option in v.value.items ==> checked
  {
    v.Some? && v.value.Multi? && option in v.value.items
  }

  /** The characters of a string, one string each, as spreading a string yields them. */
  function Characters(s: string): seq<string>
  {
    seq(|s|, i requires 0 <= i < |s| => [s[i]])
  }

  /** `formData[field.fieldId] || []`, spread into a list. */
  function ExistingValues(v: Option<FieldValue>): (r: seq<string>)
    ensures v.None? || v == Some(Str("")) ==> r == []
    ensures v.Some? && v.value.Multi? ==> r == v.value.items
    ensures v.Some? && v.value.Str? ==> |r| == |v.value.s| && forall i :: 0 <= i < |r| ==> r[i] == [v.value.s[i]]
  {
    match v
    case None => []
    case Some(Multi(items)) => items
    case Some(Str(s)) => Characters(s)
  }

  /** `existingValues.filter((v) => v !== value)` */
  function RemoveAll(xs: seq<string>, x: string): (r: seq<string>)
    ensures x !in r
    ensures multiset(r) == multiset(xs)[x := 0]
  {
    if xs == [] then []
    else
      assert xs == [xs[0]] + xs[1..];
      if xs[0] == x then RemoveAll(xs[1..], x) else [xs[0]] + RemoveAll(xs[1..], x)
  }

  /**
   * The list handed to the change handler when `option` becomes checked or
   * unchecked; `None` when unchecking meets a non-empty string, which has no
   * `filter` and throws, so nothing changes.
   */
  function NextValues(v: Option<FieldValue>, option: string, checked: bool): (r: Option<seq<string>>)
    ensures r.None? <==> !checked && v.Some? && v.value.Str? && v.value.s != ""
    ensures r.Some? ==> (CheckboxChecked(Some(Multi(r.value)), option) <==> checked)
    ensures checked ==> (r.Some? && r.value[..|r.value| - 1] == ExistingValues(v)
      && multiset(r.value) == multiset(ExistingValues(v)) + multiset{option})
    ensures r.Some? && !checked ==> multiset(r.value) == multiset(ExistingValues(v))[option := 0]
  {
    if checked then
      assert (ExistingValues(v) + [option])[|ExistingValues(v)|] == option;
      Some(ExistingValues(v) + [option])
    else if v.Some? && v.value.Str? && v.value.s != "" then None
    else Some(RemoveAll(ExistingValues(v), option))
  }

  /** Checking appends the option after the existing list (absent counts as empty) and shows it checked. */
  lemma CheckAppends(v: Option<FieldValue>, option: string)
    requires v.None? || v.value.Multi?
    ensures NextValues(v, option, true) == Some((if v.None? then [] else v.value.items) + [option])
    ensures CheckboxChecked(Some(Multi(NextValues(v, option, true).value)), option)
  {
  }

  /** Unchecking removes every occurrence of the option and no other entry, and shows it unchecked. */
  lemma UncheckRemovesEvery(v: Option<FieldValue>, option: string)
    requires v.None? || v.value.Multi?
    ensures NextValues(v, option, false).Some?
    ensures var r := NextValues(v, option, false).value;
      !CheckboxChecked(Some(Multi(r)), option) && multiset(r) == multiset(ExistingValues(v))[option := 0]
  {
  }

  /** Removal keeps the other entries in their order: it distributes over concatenation. */
  lemma {:induction false} RemoveAllConcat(xs: seq<string>, ys: seq<string>, x: string)
    ensures RemoveAll(xs + ys, x) == RemoveAll(xs, x) + RemoveAll(ys, x)
  {
    if xs == [] {
      assert xs + ys == ys;
    } else {
      assert (xs + ys)[0] == xs[0] && (xs + ys)[1..] == xs[1..] + ys;
      RemoveAllConcat(xs[1..], ys, x);
    }
  }

  /** Removing a value that is not there changes nothing. */
  lemma {:induction false} RemoveAllAbsent(xs: seq<string>, x: string)
    requires x !in xs
    ensures RemoveAll(xs, x) == xs
  {
    if xs != [] {
      RemoveAllAbsent(xs[1..], x);
    }
  }

  /** Checking and then unchecking an option that was not in the list restores the list. */
  lemma CheckThenUncheckRestores(xs: seq<string>, option: string)
    requires option !in xs
    ensures NextValues(Some(Multi(NextValues(Some(Multi(xs)), option, true).value)), option, false) == Some(xs)
  {
    var checkedList := xs + [option];
    assert NextValues(Some(Multi(xs)), option, true) == Some(checkedList);
    RemoveAllConcat(xs, [option], option);
    RemoveAllAbsent(xs, option);
    assert RemoveAll([option], option) == [];
    assert RemoveAll(checkedList, option) == xs;
  }

  /**
   * Checking and then unchecking an option of a field that held nothing
   * leaves an empty list rather than nothing. On a required field that turns
   * the required error into a `TypeError` from `trim`.
   */
  lemma CheckThenUncheckFromAbsent(f: FormField, option: string)
    ensures NextValues(None, option, true) == Some([option])
    ensures NextValues(Some(Multi([option])), option, false) == Some([])
    ensures f.required ==> Validator.FieldCheck(f, None) == Validator.Fail(Validator.RequiredMessage)
    ensures f.required ==> Validator.FieldCheck(f, Some(Multi([]))) == Validator.Throws
  {
    assert RemoveAll([option], option) == [];
  }

  /** No entry occurs twice. */
  predicate Distinct(xs: seq<string>)
  {
    forall i, j :: 0 <= i < j < |xs| ==> xs[i] != xs[j]
  }

  lemma {:induction false} RemoveAllKeepsDistinct(xs: seq<string>, x: string)
    requires Distinct(xs)
    ensures Distinct(RemoveAll(xs, x))
  {
    if xs != [] {
      assert Distinct(xs[1..]) by {
        forall i, j | 0 <= i < j < |xs[1..]| ensures xs[1..][i] != xs[1..][j] {
          assert xs[1..][i] == xs[i + 1] && xs[1..][j] == xs[j + 1];
        }
      }
      RemoveAllKeepsDistinct(xs[1..], x);
      var rest := RemoveAll(xs[1..], x);
      if xs[0] != x {
        assert xs[0] !in xs[1..];
        assert xs[0] !in multiset(rest);
      }
    }
  }

  /**
   * A checkbox's change event reports the opposite of what it shows; with
   * such events a list without repeated entries never gains one.
   */
  lemma ToggleKeepsDistinct(xs: seq<string>, option: string, checked: bool)
    requires Distinct(xs) && checked == !CheckboxChecked(Some(Multi(xs)), option)
    ensures NextValues(Some(Multi(xs)), option, checked).Some?
    ensures Distinct(NextValues(Some(Multi(xs)), option, checked).value)
  {
    if !checked {
      RemoveAllKeepsDistinct(xs, option);
    }
  }
}
