/** The note application's forms: `TagForm`, and the validity of the note
    forms the views use. */
module NoteForms {
  import opened Wrappers
  import opened Text
  import opened Models
  import opened Fields

  const TagNameMinLength: int := 3
  /** `TagForm.name`'s `max_length`, the same bound as the model field's. */
  const TagFormNameMaxLength: int := 25

  /** `TagForm`'s cleaning of `name`, a required `CharField` with
      `min_length=3` and `max_length=25`. Only the name comes from the form;
      the owner is set by the view afterwards. */
  function CleanTagName(raw: string): (r: Result<string, set<FieldError>>)
    ensures r.Success? <==>
      TagNameMinLength <= |Strip(raw)| <= TagFormNameMaxLength && !HasNull(Strip(raw))
    ensures r.Success? ==> r.value == Strip(raw) && |r.value| <= TagNameMaxLength
    ensures r.Failure? ==> r.error != {}
    ensures r.Failure? ==> (Required in r.error <==> Strip(raw) == [])
    ensures r.Failure? ==> (TooShort in r.error <==> 1 <= |Strip(raw)| < TagNameMinLength)
    ensures r.Failure? ==> (TooLong in r.error <==> |Strip(raw)| > TagFormNameMaxLength)
    ensures r.Failure? ==> (NullCharacter in r.error <==> HasNull(Strip(raw)))
  {
    CleanCharField(raw, TagNameMinLength, TagFormNameMaxLength)
  }

  /** A note form's `name` and `description` as submitted. */
  datatype NoteSubmission = NoteSubmission(name: string, description: string, tagNames: seq<string>)

  /** Cleaning the note form: both fields are required `CharField`s bounded
      by the model's `max_length`. Yields the stripped name and description. */
  function CleanNote(form: NoteSubmission): (r: Option<(string, string)>)
    ensures r.Some? <==>
      && 1 <= |Strip(form.name)| <= NoteNameMaxLength && !HasNull(Strip(form.name))
      && 1 <= |Strip(form.description)| <= NoteDescriptionMaxLength
      && !HasNull(Strip(form.description))
    ensures r.Some? ==> r.value == (Strip(form.name), Strip(form.description))
  {
    match (CleanCharField(form.name, 1, NoteNameMaxLength),
           CleanCharField(form.description, 1, NoteDescriptionMaxLength))
    case (Success(name), Success(description)) => Some((name, description))
    case _ => None
  }
}
