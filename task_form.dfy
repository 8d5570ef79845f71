/**
  The task form: its two text fields, how typing replaces one of them, how
  an `initialData` prop replaces both, and the check that decides whether
  pressing the submit button hands the data on or raises an alert.
 */
module TaskForm {
  import opened Types
  import opened Text

  /** The `maxLength` of the title input. */
  const TitleMaxLength := 100
  /** The `maxLength` of the description input. */
  const DescriptionMaxLength := 500

  const TitleErrorMessage := "Please enter a task title"
  const DescriptionErrorMessage := "Please enter a task description"

  /** `keyof TaskFormData`. */
  datatype Field = Title | Description

  /** What pressing submit does: call `onSubmit` with the data, or raise
      one of the two alerts. */
  datatype SubmitOutcome = Submitted(data: TaskFormData) | TitleError | DescriptionError

  /** The characters the input widget for `field` accepts. */
  function MaxLength(field: Field): nat {
    match field
    case Title => TitleMaxLength
    case Description => DescriptionMaxLength
  }

  /** The form data is submitted, unchanged and untrimmed, exactly when
      neither field trims to nothing; a blank title is reported whatever
      the description holds; a blank description is reported only under a
      non-blank title. */
  function Submission(form: TaskFormData): (o: SubmitOutcome)
    ensures o.Submitted? <==> !IsBlank(form.title) && !IsBlank(form.description)
    ensures o.Submitted? ==> o.data == form
    ensures o == TitleError <==> IsBlank(form.title)
    ensures o == DescriptionError <==> !IsBlank(form.title) && IsBlank(form.description)
  {
    if IsBlank(form.title) then TitleError
    else if IsBlank(form.description) then DescriptionError
    else Submitted(form)
  }

  /** Under a blank title the description is never examined. */
  lemma TitleCheckedFirst(title: string, d1: string, d2: string)
    requires IsBlank(title)
    ensures Submission(TaskFormData(title, d1)) == Submission(TaskFormData(title, d2)) == TitleError
  {
  }

  /** The text of the alert an outcome raises; none when it submits. */
  function AlertMessage(o: SubmitOutcome): (m: Option<string>)
    ensures m.None? <==> o.Submitted?
  {
    match o
    case Submitted(_) => None
    case TitleError => Some(TitleErrorMessage)
    case DescriptionError => Some(DescriptionErrorMessage)
  }

  /** `{...prev, [field]: value}`: the named field takes the value, the
      other keeps its text. */
  function WithField(form: TaskFormData, field: Field, value: string): (r: TaskFormData)
    ensures field == Title ==> r.title == value && r.description == form.description
    ensures field == Description ==> r.description == value && r.title == form.title
  {
    match field
    case Title => form.(title := value)
    case Description => form.(description := value)
  }

  /** The form's `formData` state. */
  class Form {
    var formData: TaskFormData

    /** The form mounts empty; a given `initialData` then replaces the
        whole state. */
    constructor (initialData: Option<TaskFormData>)
      ensures formData == initialData.GetOr(TaskFormData("", ""))
    {
      formData := TaskFormData("", "");
      if initialData.Some? {
        formData := initialData.value;
      }
    }

    /** The `initialData` effect, re-run when the prop changes. */
    method InitialDataChanged(initialData: Option<TaskFormData>)
      modifies this
      ensures formData == initialData.GetOr(old(formData))
    {
      if initialData.Some? {
        formData := initialData.value;
      }
    }

    /** `updateField`, called by an input widget that never holds more than
        its `maxLength` characters. */
    method UpdateField(field: Field, value: string)
      requires |value| <= MaxLength(field)
      modifies this
      ensures formData == WithField(old(formData), field, value)
    {
      formData := WithField(formData, field, value);
    }

    /** `handleSubmit`: decides on the current state and changes nothing. */
    method HandleSubmit() returns (o: SubmitOutcome)
      ensures o == Submission(formData)
      ensures o.Submitted? ==> o.data == formData
    {
      if IsBlank(formData.title) {
        return TitleError;
      }
      if IsBlank(formData.description) {
        return DescriptionError;
      }
      return Submitted(formData);
    }
  }
}
