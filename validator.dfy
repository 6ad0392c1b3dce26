/** Validation of secret keys and values (internal/validator/validator.go). */
module Validator {
  import opened Errors

  /** ValidateKey: a key must be non-empty and must not contain '='; emptiness is
      reported first. Anything else, white space included, is accepted. */
  function ValidateKey(key: string): (err: Option<Error>)
    ensures err == Some(ErrEmptyKey) <==> key == ""
    ensures err == Some(ErrInvalidKey) <==> key != "" && '=' in key
    ensures err.None? <==> key != "" && '=' !in key
  {
    if key == "" then Some(ErrEmptyKey)
    else if '=' in key then Some(ErrInvalidKey)
    else None
  }

  /** ValidateValue: every value is accepted. */
  function ValidateValue(value: string): (err: Option<Error>)
    ensures err.None?
  {
    None
  }
}
