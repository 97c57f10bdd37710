/**
 * The multi-step form component: the visible section's index, the values
 * collected so far (kept across sections) and the error messages, with one
 * method per event handler. Each handler is one atomic step on the current
 * state. The Prev, Next and Submit buttons are only rendered in some states,
 * and the handlers require those states.
 */
module Component {
  import opened Schema
  import opened Validator
  import opened Checkbox

  /** What `validateSection` ends in. */
  datatype Outcome = Passed | Blocked | Crashed(fieldId: string)

  class FormSectionComponent {
    const sections: seq<FormSection>
    var currentSectionIndex: int
    var formData: map<string, FieldValue>
    var errors: map<string, string>

    /** The index names a section; the component cannot render otherwise. */
    ghost predicate Valid()
      reads this
    {
      0 <= currentSectionIndex < |sections|
    }

    function CurrentSection(): FormSection
      reads this
      requires Valid()
    {
      sections[currentSectionIndex]
    }

    /** The first section is shown, nothing is filled in and there are no errors. */
    constructor (sections: seq<FormSection>)
      requires |sections| > 0
      ensures Valid()
      ensures this.sections == sections && currentSectionIndex == 0
      ensures formData == map[] && errors == map[]
    {
      this.sections := sections;
      currentSectionIndex := 0;
      formData := map[];
      errors := map[];
    }

    /** An error is shown under a field when its entry is present and not empty. */
    predicate ErrorShown(fieldId: string): (shown: bool)
      reads this
      ensures shown ==> fieldId in errors && |errors[fieldId]| > 0
      ensures fieldId in errors && |errors[fieldId]| > 0 ==> shown
    {
      fieldId in errors && errors[fieldId] != ""
    }

    /**
     * Stores the new value and blanks the field's error (the entry stays, with
     * an empty message, so no error is shown); nothing else changes.
     */
    method HandleChange(field: FormField, value: FieldValue)
      modifies this
      ensures formData == old(formData)[field.fieldId := value]
      ensures errors == old(errors)[field.fieldId := ""]
      ensures currentSectionIndex == old(currentSectionIndex)
      ensures !ErrorShown(field.fieldId)
      ensures forall id :: id != field.fieldId ==> (ErrorShown(id) <==> old(ErrorShown(id)))
      ensures forall o :: RadioChecked(Lookup(formData, field.fieldId), o) <==> value == Str(o)
      ensures forall o :: CheckboxChecked(Lookup(formData, field.fieldId), o) <==> value.Multi? && o in value.items
    {
      formData := formData[field.fieldId := value];
      errors := errors[field.fieldId := ""];
    }

    /**
     * Replaces the whole error map by the one built from the visible section
     * and reports whether it is empty. When `trim` throws, the exception
     * leaves before `setErrors`, so nothing changes.
     */
    method ValidateSection() returns (outcome: Outcome)
      requires Valid()
      modifies this
      ensures Valid()
      ensures currentSectionIndex == old(currentSectionIndex) && formData == old(formData)
      ensures var result := SectionErrors(old(CurrentSection().fields), old(formData));
        match result
        case TypeError(id) => outcome == Crashed(id) && errors == old(errors)
        case Errors(m) => errors == m && (outcome == Passed <==> Passes(result)) && !outcome.Crashed?
      ensures !outcome.Crashed? ==> errors.Keys <= FieldIds(CurrentSection().fields)
      ensures forall id :: id in errors ==> errors[id] != "" || outcome.Crashed?
    {
      var result := ValidateFields(CurrentSection().fields, formData);
      ErrorKeysAreFailingFields(CurrentSection().fields, formData);
      MessagesNonEmpty(CurrentSection().fields, formData);
      match result
      case TypeError(id) =>
        outcome := Crashed(id);
      case Errors(newErrors) =>
        errors := newErrors;
        outcome := if newErrors == map[] then Passed else Blocked;
    }

    /** Moves to the next section exactly when the visible section validates. */
    method HandleNext()
      requires Valid() && currentSectionIndex < |sections| - 1
      modifies this
      ensures Valid()
      ensures var result := SectionErrors(old(CurrentSection().fields), old(formData));
        currentSectionIndex == if Passes(result) then old(currentSectionIndex) + 1 else old(currentSectionIndex)
      ensures formData == old(formData)
      ensures var result := SectionErrors(old(CurrentSection().fields), old(formData));
        errors == if result.Errors? then result.messages else old(errors)
    {
      var outcome := ValidateSection();
      if outcome == Passed {
        currentSectionIndex := currentSectionIndex + 1;
      }
    }

    /** Moves to the previous section without validating anything. */
    method HandlePrev()
      requires Valid() && currentSectionIndex > 0
      modifies this
      ensures Valid()
      ensures currentSectionIndex == old(currentSectionIndex) - 1
      ensures formData == old(formData) && errors == old(errors)
    {
      currentSectionIndex := currentSectionIndex - 1;
    }

    /**
     * On the last section: reports the collected values when the section
     * validates, and nothing otherwise; the index never moves.
     */
    method HandleSubmit() returns (submitted: Option<map<string, FieldValue>>)
      requires Valid() && currentSectionIndex == |sections| - 1
      modifies this
      ensures Valid()
      ensures currentSectionIndex == old(currentSectionIndex) && formData == old(formData)
      ensures var result := SectionErrors(old(CurrentSection().fields), old(formData));
        submitted == (if Passes(result) then Some(old(formData)) else None)
        && errors == (if result.Errors? then result.messages else old(errors))
    {
      var outcome := ValidateSection();
      if outcome == Passed {
        submitted := Some(formData);
      } else {
        submitted := None;
      }
    }

    /**
     * A checkbox of `field` for `option` changed to `checked`: the list with
     * the option appended or removed goes through `HandleChange`. Unchecking
     * when the field holds a non-empty string throws and changes nothing.
     */
    method HandleCheckboxChange(field: FormField, option: string, checked: bool)
      modifies this
      ensures var next := NextValues(old(Lookup(formData, field.fieldId)), option, checked);
        if next.Some? then
          formData == old(formData)[field.fieldId := Multi(next.value)] && errors == old(errors)[field.fieldId := ""]
        else
          formData == old(formData) && errors == old(errors)
      ensures currentSectionIndex == old(currentSectionIndex)
      ensures var next := NextValues(old(Lookup(formData, field.fieldId)), option, checked);
        next.Some? ==> (CheckboxChecked(Lookup(formData, field.fieldId), option) <==> checked)
    {
      var next := NextValues(Lookup(formData, field.fieldId), option, checked);
      if next.Some? {
        HandleChange(field, Multi(next.value));
      }
    }
  }
}
