/** The form that adds a task: a text field and a `datetime-local` due-date field. */
module TodoForm {
  import opened Wrappers
  import Text

  /** The arguments of one `onAdd` call: the text as typed and the raw date field. */
  datatype AddRequest = AddRequest(text: string, dueDate: string)

  /** What submitting asks the page to do: nothing for a blank text, else add the untrimmed text. */
  function SubmitRequest(input: string, dueDate: string): (r: Option<AddRequest>)
    ensures r.None? <==> Text.IsBlank(input)
    ensures r.Some? ==> r.value.text == input && r.value.dueDate == dueDate
  {
    Text.TrimEmptyIffBlank(input);
    if Text.Trim(input) == "" then None else Some(AddRequest(input, dueDate))
  }

  class TodoForm {
    var input: string
    var dueDate: string

    constructor ()
      ensures input == "" && dueDate == ""
    {
      input := "";
      dueDate := "";
    }

    method ChangeInput(value: string)
      modifies this
      ensures input == value && dueDate == old(dueDate)
    {
      input := value;
    }

    method ChangeDueDate(value: string)
      modifies this
      ensures dueDate == value && input == old(input)
    {
      dueDate := value;
    }

    /**
      Submitting. A blank input makes no call and leaves both fields as they were;
      otherwise the returned request is the one `onAdd` call and both fields are cleared.
     */
    method Submit() returns (call: Option<AddRequest>)
      modifies this
      ensures call == SubmitRequest(old(input), old(dueDate))
      ensures call.None? ==> input == old(input) && dueDate == old(dueDate)
      ensures call.Some? ==> input == "" && dueDate == ""
    {
      call := SubmitRequest(input, dueDate);
      if call.Some? {
        input := "";
        dueDate := "";
      }
    }
  }

  /**
    A rejected submit followed by typing and a valid submit ends exactly as typing
    and submitting alone would: the rejected step leaves no trace.
   */
  method RetryAfterRejection(form: TodoForm, typed: string) returns (first: Option<AddRequest>, second: Option<AddRequest>)
    requires SubmitRequest(form.input, form.dueDate) == None
    requires SubmitRequest(typed, form.dueDate) != None
    modifies form
    ensures first == None
    ensures second == SubmitRequest(typed, old(form.dueDate))
    ensures form.input == "" && form.dueDate == ""
  {
    first := form.Submit();
    form.ChangeInput(typed);
    second := form.Submit();
  }
}
