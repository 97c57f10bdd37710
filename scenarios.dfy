/**
 * Two runs of the component through its handlers, as a user would drive it.
 */
module Scenarios {
  import opened Schema
  import opened Text
  import opened Validator
  import opened Component

  function TextField(fieldId: string, required: bool): FormField
  {
    FormField(fieldId, Text, fieldId, None, required, None, None, [], None)
  }

  /**
   * One section with one required text field `name`: submitting it empty shows
   * the required message and submits nothing; after typing "Alice" the
   * submission carries exactly that value and the error is gone.
   */
  method SubmitAfterFillingRequiredField() returns (first: Option<map<string, FieldValue>>, second: Option<map<string, FieldValue>>)
    ensures first == None
    ensures second == Some(map["name" := Str("Alice")])
  {
    var name := TextField("name", true);
    var form := new FormSectionComponent([FormSection("Profile", "", [name])]);
    RequiredBlankFieldFails(name, None);
    assert SectionErrors([name], map[]) == Errors(map["name" := RequiredMessage]) by {
      assert [name][..0] == [];
    }
    first := form.HandleSubmit();
    assert form.errors == map["name" := RequiredMessage];
    form.HandleChange(name, Str("Alice"));
    assert !form.ErrorShown("name");
    var filled := map["name" := Str("Alice")];
    assert form.formData == filled;
    assert "Alice"[0] == 'A' && !IsWhitespace("Alice"[0]);
    InRangeStringPasses(name, "Alice");
    assert SectionErrors([name], filled) == Errors(map[]) by {
      assert [name][..0] == [];
    }
    second := form.HandleSubmit();
    assert form.errors == map[];
  }

  /**
   * Two sections whose first holds a required field left empty: Next stays on
   * the first section with the error shown. Once filled in, Next, Prev and Next
   * again reach the second section with the value still there.
   */
  method NextBlocksUntilFilled() returns (blockedAt: int, finalIndex: int, kept: map<string, FieldValue>)
    ensures blockedAt == 0
    ensures finalIndex == 1
    ensures kept == map["roll" := Str("21")]
  {
    var roll := TextField("roll", true);
    var form := new FormSectionComponent([FormSection("One", "", [roll]), FormSection("Two", "", [TextField("note", false)])]);
    RequiredBlankFieldFails(roll, None);
    assert SectionErrors([roll], map[]) == Errors(map["roll" := RequiredMessage]) by {
      assert [roll][..0] == [];
    }
    form.HandleNext();
    blockedAt := form.currentSectionIndex;
    assert form.ErrorShown("roll");
    form.HandleChange(roll, Str("21"));
    var filled := map["roll" := Str("21")];
    assert form.formData == filled;
    assert "21"[0] == '2' && !IsWhitespace("21"[0]);
    InRangeStringPasses(roll, "21");
    assert SectionErrors([roll], filled) == Errors(map[]) by {
      assert [roll][..0] == [];
    }
    form.HandleNext();
    form.HandlePrev();
    form.HandleNext();
    finalIndex := form.currentSectionIndex;
    kept := form.formData;
  }
}
