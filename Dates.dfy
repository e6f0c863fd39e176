/**
  Due dates as the components store and show them. A stored due date is an ISO-8601
  instant string or null; the editor works on the `datetime-local` text form.
  The conversions by the JavaScript `Date` object are parameters of the model:
  `toIso` stands for converting a field value to its ISO string, `instant` for
  reading the millisecond time of a string (None where JavaScript gets NaN).
 */
module Dates {
  import opened Wrappers

  /** A due date is present when it is a non-empty string (null and '' are both falsy). */
  function IsPresent(due: Option<string>): (r: bool)
    ensures r ==> due.Some?
    ensures due.Some? ==> (r <==> |due.value| > 0)
  {
    due.Some? && due.value != ""
  }

  /** What is stored for a date field: null when the field is empty, its ISO form otherwise. */
  function Normalize(raw: string, toIso: string -> string): (r: Option<string>)
    ensures r.None? <==> raw == ""
    ensures r.Some? ==> r.value == toIso(raw)
  {
    if raw == "" then None else Some(toIso(raw))
  }

  /** The editor's date field for a stored due date: its first 16 characters, or '' without one. */
  function EditField(due: Option<string>): (r: string)
    ensures |r| <= 16
    ensures due.None? ==> r == ""
    ensures due.Some? ==> r <= due.value && |r| == (if |due.value| < 16 then |due.value| else 16)
  {
    match due
    case None => ""
    case Some(s) => if |s| <= 16 then s else s[..16]
  }
}
