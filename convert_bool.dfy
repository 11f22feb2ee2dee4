/** `convert_command_part_to_bool`: the reading of a yes/no command word. */
module ConvertBool {
  import opened Base
  import opened PyText
  import opened Values

  const TruthyWords: set<string> := {"1", "true", "yes", "y", "on"}

  /** A `bool` is returned as it is; a string is true exactly when its lower-case
      form is one of the words in `TruthyWords`; any other value has no
      `lower()` and raises `AttributeError`. */
  function ConvertCommandPartToBool(part: Value): (r: Result<bool>)
    ensures part.VBool? ==> r == Ok(part.b)
    ensures part.VStr? ==> r == Ok(Lower(part.s) in TruthyWords)
    ensures !part.VBool? && !part.VStr? ==> r.Err? && r.error.kind == AttributeError
  {
    match part
    case VBool(b) => Ok(b)
    case VStr(s) => Ok(Lower(s) in TruthyWords)
    case _ => Fail(AttributeError, "'" + TypeName(part) + "' object has no attribute 'lower'")
  }

  /** Matching ignores case: a word and its lower-case form read the same. */
  lemma ConvertIgnoresCase(s: string)
    ensures ConvertCommandPartToBool(VStr(s)) == ConvertCommandPartToBool(VStr(Lower(s)))
  {
    LowerIdempotent(s);
  }

  /** A string never raises, and every string outside the truthy words,
      whatever its case, reads as false. */
  lemma ConvertStringTotal(s: string)
    ensures ConvertCommandPartToBool(VStr(s)).Ok?
    ensures Lower(s) !in TruthyWords ==> ConvertCommandPartToBool(VStr(s)) == Ok(false)
  {
  }

  lemma ConvertExamples()
    ensures ConvertCommandPartToBool(VStr("TRUE")) == Ok(true)
    ensures ConvertCommandPartToBool(VStr("Yes")) == Ok(true)
    ensures ConvertCommandPartToBool(VStr("false")) == Ok(false)
    ensures ConvertCommandPartToBool(VStr("no")) == Ok(false)
    ensures ConvertCommandPartToBool(VStr("garbage")) == Ok(false)
  {
    assert Lower("TRUE") == "true";
    assert Lower("Yes") == "yes";
    assert Lower("false") == "false";
    assert Lower("no") == "no";
    assert Lower("garbage") == "garbage";
  }
}
