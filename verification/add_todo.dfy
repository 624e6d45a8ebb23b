/** The form that adds a task: a name field, an optional due date and an Add button. */
module AddTodo {
  import opened Wrappers
  import opened JsText

  /** The form's fields and its error text ("" when none). */
  datatype Form = Form(name: string, dueDate: string, error: string)

  /** The `onNewItem(name, dueDate)` call a submission makes. */
  datatype Submission = Submission(name: string, dueDate: string)

  const EmptyForm: Form := Form("", "", "")

  const NameRequired: string := "Task name is required!"

  /** The button is disabled while the trimmed name is empty. */
  predicate Disabled(f: Form) {
    Trim(f.name) == ""
  }

  /** Typing in the name field clears any error. */
  function ChangeName(f: Form, value: string): (r: Form)
    ensures r == Form(value, f.dueDate, "")
  {
    f.(name := value, error := if f.error != "" then "" else f.error)
  }

  function ChangeDate(f: Form, value: string): (r: Form)
    ensures r.dueDate == value && r.name == f.name && r.error == f.error
  {
    f.(dueDate := value)
  }

  /**
   * A click on Add: a blank name shows the required-name error and submits nothing; otherwise the
   * trimmed name and the date are submitted and the form is cleared.
   */
  function ClickAdd(f: Form): (r: (Form, Option<Submission>))
    ensures r.1.Some? <==> !Disabled(f)
    ensures r.1.None? ==> r.0 == f.(error := NameRequired)
    ensures r.1.Some? ==> r.0 == EmptyForm && r.1.value.dueDate == f.dueDate
    ensures r.1.Some? ==> |r.1.value.name| > 0 && Trim(r.1.value.name) == r.1.value.name
  {
    if Trim(f.name) == "" then (f.(error := NameRequired), None)
    else
      TrimIdempotent(f.name);
      (EmptyForm, Some(Submission(Trim(f.name), f.dueDate)))
  }

  /** A key press: Enter on a non-blank name acts as the Add button; anything else does nothing. */
  function PressKey(f: Form, key: string): (r: (Form, Option<Submission>))
    ensures key != "Enter" || Disabled(f) ==> r == (f, None)
    ensures key == "Enter" && !Disabled(f) ==> r == ClickAdd(f)
  {
    if key == "Enter" && Trim(f.name) != "" then ClickAdd(f) else (f, None)
  }

  /** Enter never shows the required-name error: a blank name leaves the form as it was. */
  lemma EnterNeverShowsError(f: Form, key: string)
    requires f.error != NameRequired
    ensures PressKey(f, key).0.error != NameRequired
  {
  }

  /** The submitted name is the field's text without surrounding whitespace. */
  lemma SubmittedNameIsTrimmed(ws: string, name: string, ws2: string)
    requires AllWhitespace(ws) && AllWhitespace(ws2)
    requires |name| > 0 && !IsWhitespace(name[0]) && !IsWhitespace(name[|name| - 1])
    ensures ClickAdd(Form(ws + name + ws2, "", "")).1 == Some(Submission(name, ""))
  {
    TrimSurrounded(ws, name, ws2);
  }

  /** After a submission the button is disabled again. */
  lemma SubmissionDisablesButton(f: Form)
    requires !Disabled(f)
    ensures Disabled(ClickAdd(f).0)
  {
  }
}
