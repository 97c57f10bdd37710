/**
 * Section validation: which fields of the visible section get an error
 * message, which message each gets, and when validation throws.
 *
 * The component checks every field with three independent rules, in the
 * order required, minimum length, maximum length; each rule that applies
 * overwrites the field's message, so the last one wins. `FieldCheck` states
 * the outcome for one field in that priority, and `ValidateFields`, which
 * runs the rules as the component does, is proved to agree with it.
 */
module Validator {
  import opened Schema
  import opened Text

  const RequiredMessage := "This field is required"

  /** JavaScript truthiness of a stored value: `undefined` and `''` are falsy, every array is truthy. */
  predicate Truthy(v: Option<FieldValue>)
  {
    v.Some? && (v.value.Multi? || v.value.s != "")
  }

  /** `value.length`: characters of a string, entries of a list. */
  function Length(v: FieldValue): nat
  {
    match v
    case Str(s) => |s|
    case Multi(items) => |items|
  }

  /** A length limit takes part only when it is present and not 0 (both are falsy). */
  predicate LimitSet(limit: Option<int>)
  {
    limit.Some? && limit.value != 0
  }

  /** `field.validation?.message || fallback` */
  function CustomOr(f: FormField, fallback: string): string
  {
    if f.validation.Some? && f.validation.value.message != "" then f.validation.value.message else fallback
  }

  function MinMessage(f: FormField): string
    requires f.minLength.Some?
  {
    CustomOr(f, "Minimum " + IntToString(f.minLength.value) + " characters required")
  }

  function MaxMessage(f: FormField): string
    requires f.maxLength.Some?
  {
    CustomOr(f, "Maximum " + IntToString(f.maxLength.value) + " characters allowed")
  }

  /** A required field holding a list reaches `value.trim()`, which a list does not have. */
  predicate TrimThrows(f: FormField, v: Option<FieldValue>)
  {
    f.required && v.Some? && v.value.Multi?
  }

  /** `field.required && (!value || value.trim() === '')`, for the values on which it does not throw */
  predicate RequiredViolated(f: FormField, v: Option<FieldValue>)
  {
    f.required && (!Truthy(v) || (v.value.Str? && Trim(v.value.s) == ""))
  }

  /** `field.minLength && value && value.length < field.minLength` */
  predicate MinViolated(f: FormField, v: Option<FieldValue>)
  {
    LimitSet(f.minLength) && Truthy(v) && Length(v.value) < f.minLength.value
  }

  /** `field.maxLength && value && value.length > field.maxLength` */
  predicate MaxViolated(f: FormField, v: Option<FieldValue>)
  {
    LimitSet(f.maxLength) && Truthy(v) && Length(v.value) > f.maxLength.value
  }

  /** The outcome of checking one field. */
  datatype Check = Pass | Fail(message: string) | Throws

  /**
   * The outcome for one field, stated by priority: a throwing `trim` ends the
   * check; otherwise the maximum rule beats the minimum rule, which beats the
   * required rule, because later rules overwrite earlier ones.
   */
  function FieldCheck(f: FormField, v: Option<FieldValue>): (r: Check)
    ensures r.Fail? ==> r.message != ""
    ensures r == Pass <==> !TrimThrows(f, v) && !RequiredViolated(f, v) && !MinViolated(f, v) && !MaxViolated(f, v)
  {
    if TrimThrows(f, v) then Throws
    else if MaxViolated(f, v) then Fail(MaxMessage(f))
    else if MinViolated(f, v) then Fail(MinMessage(f))
    else if RequiredViolated(f, v) then Fail(RequiredMessage)
    else Pass
  }

  /** The check of a field against the stored data. */
  function CheckIn(f: FormField, data: map<string, FieldValue>): Check
  {
    FieldCheck(f, Lookup(data, f.fieldId))
  }

  /**
   * The result of validating a section: the fresh error map, or the `TypeError`
   * that `trim` raised at the named field (then no error map is produced).
   */
  datatype SectionResult = Errors(messages: map<string, string>) | TypeError(fieldId: string)

  /** Validation passes when the error map it builds has no keys. */
  predicate Passes(r: SectionResult)
  {
    r == Errors(map[])
  }

  /**
   * The result of checking `fields` in order, starting from an empty error
   * map: only fields of the section get an entry, every entry has a message
   * to display, and a `TypeError` names a field of the section.
   */
  function SectionErrors(fields: seq<FormField>, data: map<string, FieldValue>): (r: SectionResult)
    ensures r.Errors? ==> r.messages.Keys <= FieldIds(fields)
    ensures r.TypeError? ==> r.fieldId in FieldIds(fields)
    decreases |fields|
  {
    if fields == [] then Errors(map[])
    else
      var f := fields[|fields| - 1];
      assert FieldIds(fields[..|fields| - 1]) + {f.fieldId} <= FieldIds(fields) by {
        forall id | id in FieldIds(fields[..|fields| - 1]) ensures id in FieldIds(fields) {
          var j :| 0 <= j < |fields| - 1 && fields[..|fields| - 1][j].fieldId == id;
          assert fields[j].fieldId == id;
        }
        assert fields[|fields| - 1].fieldId == f.fieldId;
      }
      match SectionErrors(fields[..|fields| - 1], data)
      case TypeError(id) => TypeError(id)
      case Errors(m) =>
        match CheckIn(f, data)
        case Throws => TypeError(f.fieldId)
        case Pass => Errors(m)
        case Fail(msg) => Errors(m[f.fieldId := msg])
  }

  /**
   * The callback `forEach` runs for one field: the three rules one after
   * another, each overwriting the field's entry in `newErrors`; `thrown` when
   * `value.trim()` meets a list.
   */
  method CheckField(field: FormField, value: Option<FieldValue>, newErrors: map<string, string>)
    returns (thrown: bool, updated: map<string, string>)
    ensures thrown <==> FieldCheck(field, value).Throws?
    ensures FieldCheck(field, value) == Pass ==> updated == newErrors
    ensures FieldCheck(field, value).Fail? ==> updated == newErrors[field.fieldId := FieldCheck(field, value).message]
  {
    updated := newErrors;
    if field.required {
      if !Truthy(value) {
        updated := updated[field.fieldId := RequiredMessage];
      } else if value.value.Multi? {
        return true, newErrors;
      } else if Trim(value.value.s) == "" {
        updated := updated[field.fieldId := RequiredMessage];
      }
    }
    if LimitSet(field.minLength) && Truthy(value) && Length(value.value) < field.minLength.value {
      updated := updated[field.fieldId := CustomOr(field, "Minimum " + IntToString(field.minLength.value) + " characters required")];
    }
    if LimitSet(field.maxLength) && Truthy(value) && Length(value.value) > field.maxLength.value {
      updated := updated[field.fieldId := CustomOr(field, "Maximum " + IntToString(field.maxLength.value) + " characters allowed")];
    }
    thrown := false;
  }

  /** The body of `validateSection` up to `setErrors`: every field of the section checked in order on a fresh map. */
  method ValidateFields(fields: seq<FormField>, data: map<string, FieldValue>) returns (r: SectionResult)
    ensures r == SectionErrors(fields, data)
  {
    var newErrors: map<string, string> := map[];
    var i := 0;
    while i < |fields|
      invariant 0 <= i <= |fields|
      invariant SectionErrors(fields[..i], data) == Errors(newErrors)
    {
      var field := fields[i];
      assert fields[..i + 1][..i] == fields[..i];
      var thrown;
      thrown, newErrors := CheckField(field, Lookup(data, field.fieldId), newErrors);
      if thrown {
        TypeErrorPersists(fields, data, i + 1);
        assert fields[..|fields|] == fields;
        return TypeError(field.fieldId);
      }
      i := i + 1;
    }
    assert fields[..i] == fields;
    r := Errors(newErrors);
  }

  /** Once a field has thrown, checking more fields does not change the result. */
  lemma {:induction false} TypeErrorPersists(fields: seq<FormField>, data: map<string, FieldValue>, n: nat)
    requires n <= |fields| && SectionErrors(fields[..n], data).TypeError?
    ensures SectionErrors(fields, data) == SectionErrors(fields[..n], data)
    decreases |fields|
  {
    if n < |fields| {
      var init := fields[..|fields| - 1];
      assert init[..n] == fields[..n];
      TypeErrorPersists(init, data, n);
    } else {
      assert fields[..n] == fields;
    }
  }

  /** The ids of the fields in `fields` whose check fails. */
  function FailingIds(fields: seq<FormField>, data: map<string, FieldValue>): set<string>
  {
    set j | 0 <= j < |fields| && CheckIn(fields[j], data).Fail? :: fields[j].fieldId
  }

  /** The ids of all fields in `fields`. */
  function FieldIds(fields: seq<FormField>): set<string>
  {
    set j | 0 <= j < |fields| :: fields[j].fieldId
  }

  /**
   * The error map is built from nothing: its keys are exactly the fields of
   * the section whose check fails, so no entry from before survives and no
   * field outside the section appears.
   */
  lemma {:induction false} ErrorKeysAreFailingFields(fields: seq<FormField>, data: map<string, FieldValue>)
    ensures SectionErrors(fields, data).Errors? ==> SectionErrors(fields, data).messages.Keys == FailingIds(fields, data)
    ensures SectionErrors(fields, data).Errors? ==> SectionErrors(fields, data).messages.Keys <= FieldIds(fields)
    decreases |fields|
  {
    if fields != [] {
      var init := fields[..|fields| - 1];
      var f := fields[|fields| - 1];
      ErrorKeysAreFailingFields(init, data);
      assert FailingIds(fields, data) == FailingIds(init, data) + (if CheckIn(f, data).Fail? then {f.fieldId} else {}) by {
        forall id | id in FailingIds(fields, data) ensures id in FailingIds(init, data) || (CheckIn(f, data).Fail? && id == f.fieldId) {
          var j :| 0 <= j < |fields| && CheckIn(fields[j], data).Fail? && fields[j].fieldId == id;
          if j < |fields| - 1 {
            assert fields[j] == init[j];
          }
        }
        forall id | id in FailingIds(init, data) ensures id in FailingIds(fields, data) {
          var j :| 0 <= j < |init| && CheckIn(init[j], data).Fail? && init[j].fieldId == id;
          assert fields[j] == init[j];
        }
        if CheckIn(f, data).Fail? {
          assert fields[|fields| - 1] == f;
        }
      }
    }
    if SectionErrors(fields, data).Errors? {
      forall id | id in FailingIds(fields, data) ensures id in FieldIds(fields) {
        var j :| 0 <= j < |fields| && CheckIn(fields[j], data).Fail? && fields[j].fieldId == id;
      }
    }
  }

  /**
   * The message a field ends up with is its own failing check's, unless a
   * later field with the same id also fails (ids are meant to be unique).
   */
  lemma {:induction false} LastFailingFieldSetsMessage(fields: seq<FormField>, data: map<string, FieldValue>, j: nat)
    requires j < |fields| && SectionErrors(fields, data).Errors? && CheckIn(fields[j], data).Fail?
    requires forall k :: j < k < |fields| && fields[k].fieldId == fields[j].fieldId ==> !CheckIn(fields[k], data).Fail?
    ensures fields[j].fieldId in SectionErrors(fields, data).messages
    ensures SectionErrors(fields, data).messages[fields[j].fieldId] == CheckIn(fields[j], data).message
    decreases |fields|
  {
    var init := fields[..|fields| - 1];
    if j < |fields| - 1 {
      assert init[j] == fields[j];
      forall k | j < k < |init| && init[k].fieldId == init[j].fieldId ensures !CheckIn(init[k], data).Fail? {
        assert init[k] == fields[k];
      }
      LastFailingFieldSetsMessage(init, data, j);
    }
  }

  /** Every key the validator writes carries a non-empty message, so every one is displayed. */
  lemma {:induction false} MessagesNonEmpty(fields: seq<FormField>, data: map<string, FieldValue>)
    ensures SectionErrors(fields, data).Errors? ==> forall id :: id in SectionErrors(fields, data).messages ==> SectionErrors(fields, data).messages[id] != ""
    decreases |fields|
  {
    if fields != [] {
      MessagesNonEmpty(fields[..|fields| - 1], data);
    }
  }

  /** Validation throws exactly when some field of the section throws. */
  lemma {:induction false} TypeErrorIffSomeFieldThrows(fields: seq<FormField>, data: map<string, FieldValue>)
    ensures SectionErrors(fields, data).TypeError? <==> exists j :: 0 <= j < |fields| && CheckIn(fields[j], data).Throws?
    decreases |fields|
  {
    if fields != [] {
      var init := fields[..|fields| - 1];
      var last := |fields| - 1;
      TypeErrorIffSomeFieldThrows(init, data);
      if exists j :: 0 <= j < |init| && CheckIn(init[j], data).Throws? {
        var j :| 0 <= j < |init| && CheckIn(init[j], data).Throws?;
        assert fields[j] == init[j];
      } else {
        forall i | 0 <= i < last ensures !CheckIn(fields[i], data).Throws? {
          assert fields[i] == init[i];
        }
      }
    }
  }

  /** A `TypeError` names the first field of the section that throws. */
  lemma {:induction false} TypeErrorNamesFirstThrowingField(fields: seq<FormField>, data: map<string, FieldValue>)
    requires SectionErrors(fields, data).TypeError?
    ensures exists j :: (0 <= j < |fields| && CheckIn(fields[j], data).Throws? && fields[j].fieldId == SectionErrors(fields, data).fieldId
      && forall i :: 0 <= i < j ==> !CheckIn(fields[i], data).Throws?)
    decreases |fields|
  {
    var init := fields[..|fields| - 1];
    var last := |fields| - 1;
    if SectionErrors(init, data).TypeError? {
      TypeErrorNamesFirstThrowingField(init, data);
      var j :| 0 <= j < |init| && CheckIn(init[j], data).Throws? && init[j].fieldId == SectionErrors(init, data).fieldId
        && forall i :: 0 <= i < j ==> !CheckIn(init[i], data).Throws?;
      assert fields[j] == init[j];
      forall i | 0 <= i < j ensures !CheckIn(fields[i], data).Throws? {
        assert fields[i] == init[i];
      }
    } else {
      TypeErrorIffSomeFieldThrows(init, data);
      forall i | 0 <= i < last ensures !CheckIn(fields[i], data).Throws? {
        assert init[i] == fields[i];
      }
    }
  }

  /** Validation passes exactly when every field of the section passes its check. */
  lemma PassesIffAllFieldsPass(fields: seq<FormField>, data: map<string, FieldValue>)
    ensures Passes(SectionErrors(fields, data)) <==> forall j :: 0 <= j < |fields| ==> CheckIn(fields[j], data) == Pass
  {
    ErrorKeysAreFailingFields(fields, data);
    TypeErrorIffSomeFieldThrows(fields, data);
    var r := SectionErrors(fields, data);
    if Passes(r) {
      forall j | 0 <= j < |fields| ensures CheckIn(fields[j], data) == Pass {
        var f := fields[j];
        assert CheckIn(f, data).Fail? ==> f.fieldId in FailingIds(fields, data);
      }
    } else if r.Errors? {
      var id :| id in r.messages;
      assert id in FailingIds(fields, data);
    }
  }

  /** The required rule on a string fires exactly when the string is empty or whitespace only. */
  lemma RequiredStringRule(f: FormField, s: string)
    ensures RequiredViolated(f, Some(Str(s))) <==> f.required && forall i :: 0 <= i < |s| ==> IsWhitespace(s[i])
  {
    TrimEmptyIffAllWhitespace(s);
  }

  /**
   * A required field that is absent, empty or whitespace only gets an error;
   * the message is "This field is required" unless a length rule also fires.
   * An absent or empty value never triggers a length rule.
   */
  lemma RequiredBlankFieldFails(f: FormField, v: Option<FieldValue>)
    requires f.required
    requires v.None? || (v.value.Str? && forall i :: 0 <= i < |v.value.s| ==> IsWhitespace(v.value.s[i]))
    ensures FieldCheck(f, v).Fail?
    ensures !MinViolated(f, v) && !MaxViolated(f, v) ==> FieldCheck(f, v) == Fail(RequiredMessage)
    ensures !Truthy(v) ==> FieldCheck(f, v) == Fail(RequiredMessage)
  {
    if v.Some? {
      RequiredStringRule(f, v.value.s);
    }
  }

  /**
   * A string that is not blank (or whose field is optional) and whose length
   * lies within the limits passes; a limit equal to the length is met, and a
   * limit of 0 is no limit.
   */
  lemma InRangeStringPasses(f: FormField, s: string)
    requires f.required ==> exists i :: 0 <= i < |s| && !IsWhitespace(s[i])
    requires f.minLength.Some? ==> f.minLength.value <= |s|
    requires f.maxLength.Some? && f.maxLength.value != 0 ==> |s| <= f.maxLength.value
    ensures FieldCheck(f, Some(Str(s))) == Pass
  {
    RequiredStringRule(f, s);
  }

  /**
   * When a length rule fires the message is the field's custom message if it
   * has a non-empty one, otherwise the template of the maximum rule if that
   * fires, otherwise that of the minimum rule: the maximum rule runs last.
   */
  lemma LengthRuleMessage(f: FormField, v: Option<FieldValue>)
    requires !TrimThrows(f, v) && (MinViolated(f, v) || MaxViolated(f, v))
    ensures f.validation.Some? && f.validation.value.message != "" ==> FieldCheck(f, v) == Fail(f.validation.value.message)
    ensures (f.validation.None? || f.validation.value.message == "") && MaxViolated(f, v) ==>
      FieldCheck(f, v) == Fail("Maximum " + IntToString(f.maxLength.value) + " characters allowed")
    ensures (f.validation.None? || f.validation.value.message == "") && MinViolated(f, v) && !MaxViolated(f, v) ==>
      FieldCheck(f, v) == Fail("Minimum " + IntToString(f.minLength.value) + " characters required")
    ensures MinViolated(f, v) && MaxViolated(f, v) ==> f.maxLength.value < f.minLength.value
  {
  }

  /**
   * A list (a checkbox selection) is measured by its number of entries; on a
   * required field it makes `trim` throw, whatever its length.
   */
  lemma ListValueRules(f: FormField, items: seq<string>)
    ensures f.required ==> FieldCheck(f, Some(Multi(items))) == Throws
    ensures !f.required ==> (FieldCheck(f, Some(Multi(items))) == Pass <==>
      (LimitSet(f.minLength) ==> |items| >= f.minLength.value) && (LimitSet(f.maxLength) ==> |items| <= f.maxLength.value))
  {
  }

  /** A required field holding a list keeps its whole section from ever passing validation. */
  lemma RequiredListBlocksSection(fields: seq<FormField>, data: map<string, FieldValue>, j: nat)
    requires j < |fields| && fields[j].required
    requires fields[j].fieldId in data && data[fields[j].fieldId].Multi?
    ensures SectionErrors(fields, data).TypeError?
  {
    assert CheckIn(fields[j], data).Throws?;
    TypeErrorIffSomeFieldThrows(fields, data);
  }
}
