/**
 * The form schema that the multi-step form renders, and the values it collects.
 *
 * The schema types are rebuilt from the way the form component reads them:
 * `fieldId`, `type`, `label` (here `labelText`, as `label` is a Dafny keyword), `placeholder`, `required`, `minLength`,
 * `maxLength`, `options` and `validation?.message` of a field; `title`,
 * `description` and `fields` of a section.
 */
module Schema {

  datatype Option<+T> = None | Some(value: T)

  /** The `type` of a field, which selects the input the form renders. */
  datatype FieldType = Text | Email | Tel | Date | TextArea | Dropdown | Radio | Checkbox

  /** One choice of a dropdown, radio or checkbox field. */
  datatype FieldOption = FieldOption(value: string, labelText: string)

  /** The optional `validation` record of a field: a custom length-error message. */
  datatype FieldValidation = FieldValidation(message: string)

  /**
   * One input of a section. An absent `required` behaves as `false`; an absent
   * `options` list renders nothing and is written as `[]`; the two length
   * limits are optional numbers.
   */
  datatype FormField = FormField(
    fieldId: string,
    fieldType: FieldType,
    labelText: string,
    placeholder: Option<string>,
    required: bool,
    minLength: Option<int>,
    maxLength: Option<int>,
    options: seq<FieldOption>,
    validation: Option<FieldValidation>)

  /** One page of the form; sections are addressed only by their position. */
  datatype FormSection = FormSection(title: string, description: string, fields: seq<FormField>)

  /**
   * What the form stores for a field: a single string (text-like inputs,
   * dropdown, radio) or a list of strings (a checkbox group).
   */
  datatype FieldValue = Str(s: string) | Multi(items: seq<string>)

  /** `formData[fieldId]`: absent keys read as `undefined`, here `None`. */
  function Lookup(data: map<string, FieldValue>, fieldId: string): Option<FieldValue>
  {
    if fieldId in data then Some(data[fieldId]) else None
  }
}
