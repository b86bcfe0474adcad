/** The deployment environment named by `APP_ENVIRONMENT`. */
module Configuration {
  import opened Wrappers
  import opened Text

  datatype Environment = Local | Production

  /** `Environment::as_str`. */
  function AsStr(e: Environment): (s: string)
    ensures forall i :: 0 <= i < |s| ==> 'a' <= s[i] <= 'z'
  {
    match e
    case Local => "local"
    case Production => "production"
  }

  /**
   * `TryFrom<String> for Environment`: the lower-cased value must be
   * `local` or `production`; any other value is refused with a message
   * that starts with the lower-cased value.
   */
  function TryFrom(value: string): (r: Result<Environment, string>)
    ensures r.Ok? <==> ToLower(value) == "local" || ToLower(value) == "production"
    ensures r.Ok? ==> AsStr(r.value) == ToLower(value)
    ensures r.Err? ==> StartsWith(r.error, ToLower(value))
  {
    var lower := ToLower(value);
    if lower == "local" then Ok(Local)
    else if lower == "production" then Ok(Production)
    else
      var message := lower + " is not a supported environment. Use either `local` or `production`.";
      assert message[..|lower|] == lower;
      Err(message)
  }

  /** Every environment's name parses back to it. */
  lemma TryFromAsStr(e: Environment)
    ensures TryFrom(AsStr(e)) == Ok(e)
  {
    LowerWithoutUpper(AsStr(e));
  }

  /** Lower-casing twice is lower-casing once. */
  lemma LowerIdempotent(s: string)
    ensures ToLower(ToLower(s)) == ToLower(s)
  {
  }

  /** Parsing ignores case: any spelling of a name gives the same result. */
  lemma TryFromIgnoresCase(value: string)
    ensures TryFrom(ToLower(value)) == TryFrom(value)
  {
    LowerIdempotent(value);
  }

  /** Every spelling of an environment's name, in any case, parses to it. */
  lemma TryFromAnyCase(value: string, e: Environment)
    requires ToLower(value) == AsStr(e)
    ensures TryFrom(value) == Ok(e)
  {
    TryFromIgnoresCase(value);
    TryFromAsStr(e);
  }

  /** Upper-case spellings are accepted. */
  lemma TryFromUpperCase()
    ensures TryFrom("LOCAL") == Ok(Local)
  {
    forall i | 0 <= i < 5 ensures ToLower("LOCAL")[i] == "local"[i] {
    }
    TryFromAnyCase("LOCAL", Local);
  }
}
