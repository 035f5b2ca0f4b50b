/** The syntactic check on a promotion code (internal/promotion/validation.go). */
module Validation {
  import opened Wrappers
  import opened Codes

  /** The longest code the business rules admit, in bytes. */
  const MaxCodeLength: nat := 5

  const CodeField := "code"
  const EmptyMessage := "code cannot be empty"
  const TooLongMessage := "code must be at most 5 characters"
  const BadCharacterMessage := "code must contain only lowercase letters (a-z)"

  const ErrorPrefix := "validation error: "
  const FieldSeparator := " - "

  /** A rejected input: which field was wrong and why. */
  datatype ValidationError = ValidationError(field: string, message: string)

  const EmptyCode := ValidationError(CodeField, EmptyMessage)
  const TooLong := ValidationError(CodeField, TooLongMessage)
  const InvalidCharacter := ValidationError(CodeField, BadCharacterMessage)

  /** Every byte of `code` is a lowercase ASCII letter. */
  ghost predicate AllLowercase(code: Code) {
    forall i :: 0 <= i < |code| ==> IsLowercase(code[i])
  }

  /** The business rule: one to five lowercase ASCII letters. */
  ghost predicate IsValidCode(code: Code) {
    1 <= |code| <= MaxCodeLength && AllLowercase(code)
  }

  /** The text the error prints: `validation error: <field> - <message>`. */
  function Render(e: ValidationError): (s: string)
    ensures |s| == |ErrorPrefix| + |e.field| + |FieldSeparator| + |e.message|
    ensures s[..|ErrorPrefix|] == ErrorPrefix
    ensures s[|ErrorPrefix|..|ErrorPrefix| + |e.field|] == e.field
    ensures s[|ErrorPrefix| + |e.field|..|s| - |e.message|] == FieldSeparator
    ensures s[|s| - |e.message|..] == e.message
  {
    ErrorPrefix + e.field + FieldSeparator + e.message
  }

  /** Two errors about the same field print the same text only if they carry
      the same message, so the printed text identifies which rule failed. */
  lemma RenderDeterminesMessage(a: ValidationError, b: ValidationError)
    requires a.field == b.field
    requires Render(a) == Render(b)
    ensures a == b
  {
  }

  /** The three rules' errors share the field and differ in message, so by
      `RenderDeterminesMessage` the printed error alone tells which rule failed. */
  lemma RenderedRulesDiffer()
    ensures Render(EmptyCode) != Render(TooLong)
    ensures Render(TooLong) != Render(InvalidCharacter)
    ensures Render(EmptyCode) != Render(InvalidCharacter)
  {
    if Render(EmptyCode) == Render(TooLong) {
      RenderDeterminesMessage(EmptyCode, TooLong);
    }
    if Render(TooLong) == Render(InvalidCharacter) {
      RenderDeterminesMessage(TooLong, InvalidCharacter);
    }
    if Render(EmptyCode) == Render(InvalidCharacter) {
      RenderDeterminesMessage(EmptyCode, InvalidCharacter);
    }
  }

  /** The position of the first byte at or after `from` that is not a
      lowercase letter; the character loop stops there. */
  function FirstNonLowercase(code: Code, from: nat): (r: Option<nat>)
    requires from <= |code|
    ensures r.None? <==> forall i :: from <= i < |code| ==> IsLowercase(code[i])
    ensures r.Some? ==> from <= r.value < |code| && !IsLowercase(code[r.value])
    ensures r.Some? ==> forall i :: from <= i < r.value ==> IsLowercase(code[i])
    decreases |code| - from
  {
    if from == |code| then None
    else if !IsLowercase(code[from]) then Some(from)
    else FirstNonLowercase(code, from + 1)
  }

  /** The three rules in order, the first failure winning: empty, then longer
      than five bytes, then a byte outside `a`-`z`. `None` stands for Go's nil. */
  function ValidateCode(code: Code): (r: Option<ValidationError>)
    ensures r.None? <==> IsValidCode(code)
    ensures r.Some? ==> r.value.field == CodeField
    ensures |code| == 0 ==> r == Some(EmptyCode)
    ensures |code| > MaxCodeLength ==> r == Some(TooLong)
    ensures 1 <= |code| <= MaxCodeLength && !AllLowercase(code) ==> r == Some(InvalidCharacter)
  {
    if |code| == 0 then Some(EmptyCode)
    else if |code| > MaxCodeLength then Some(TooLong)
    else if FirstNonLowercase(code, 0).Some? then Some(InvalidCharacter)
    else None
  }

  /** The accepted and rejected inputs of the package's table tests. */
  lemma ValidationExamples()
    ensures ValidateCode("promo") == None
    ensures ValidateCode("") == Some(EmptyCode)
    ensures ValidateCode("abcdef") == Some(TooLong)
    ensures ValidateCode("Promo") == Some(InvalidCharacter)
    ensures ValidateCode("abc12") == Some(InvalidCharacter)
    ensures ValidateCode("ab_cd") == Some(InvalidCharacter)
    ensures ValidateCode("ab cd") == Some(InvalidCharacter)
  {
    assert !IsLowercase("Promo"[0]);
    assert !IsLowercase("abc12"[3]);
    assert !IsLowercase("ab_cd"[2]);
    assert !IsLowercase("ab cd"[2]);
  }
}
