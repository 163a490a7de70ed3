/** Django's required `forms.CharField`: how a submitted value is cleaned
    and which errors it reports. */
module Fields {
  import opened Wrappers
  import opened Text

  /** A field's errors. `Added` is one a view attaches with `add_error`. */
  datatype FieldError = Required | TooShort | TooLong | NullCharacter | Added(message: string)

  /** The value is stripped; an empty result is only "required" (the
      validators do not run on empty values); otherwise every validator runs
      and reports: `min_length`, `max_length`, and the null-character ban. */
  function CharFieldErrors(raw: string, minLength: int, maxLength: int): (errs: set<FieldError>)
    ensures errs == {} <==>
      Strip(raw) != [] && minLength <= |Strip(raw)| <= maxLength && !HasNull(Strip(raw))
    ensures Strip(raw) == [] ==> errs == {Required}
    ensures Required in errs <==> Strip(raw) == []
    ensures TooShort in errs <==> Strip(raw) != [] && |Strip(raw)| < minLength
    ensures TooLong in errs <==> Strip(raw) != [] && |Strip(raw)| > maxLength
    ensures NullCharacter in errs <==> Strip(raw) != [] && HasNull(Strip(raw))
    ensures forall e :: e in errs ==> !e.Added?
  {
    var v := Strip(raw);
    if v == [] then {Required}
    else
      (if |v| < minLength then {TooShort} else {})
      + (if |v| > maxLength then {TooLong} else {})
      + (if HasNull(v) then {NullCharacter} else {})
  }

  /** The cleaned value, or the field's errors. */
  function CleanCharField(raw: string, minLength: int, maxLength: int): (r: Result<string, set<FieldError>>)
    ensures r.Success? <==> CharFieldErrors(raw, minLength, maxLength) == {}
    ensures r.Success? ==> r.value == Strip(raw)
    ensures r.Failure? ==> r.error == CharFieldErrors(raw, minLength, maxLength)
  {
    var errs := CharFieldErrors(raw, minLength, maxLength);
    if errs == {} then Success(Strip(raw)) else Failure(errs)
  }
}
