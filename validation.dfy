/**
 * validarUsuario and the inline schema of the POST handler: the Joi schema
 * `{ nombre: Joi.string().min(3).required() }` applied to `{ nombre: value }`.
 */
module Validation {
  import opened Wrappers
  import opened JsString

  /** What a request body can hold under `nombre`, as far as the schema can tell. */
  datatype JsValue =
    | Undefined             // the field is missing
    | JsStr(s: string)      // a string
    | NonString             // null, a number, a boolean, an object or an array

  /** Which constraint failed; Joi's message text is not modelled. */
  datatype Reason = Missing | NotAString | TooShort

  const MinLength: nat := 3

  /** A name the schema accepts: at least three UTF-16 code units long. */
  predicate IsValidNombre(s: string) {
    JsLength(s) >= MinLength
  }

  /**
   * The schema's verdict. `required()` rejects a missing value first,
   * `string()` rejects anything that is not a string, `min(3)` rejects a
   * string shorter than three. On success the value is the submitted string
   * itself (no conversion applies to it).
   */
  function ValidarUsuario(nombre: JsValue): (r: Result<string, Reason>)
    ensures r.Success? <==> nombre.JsStr? && IsValidNombre(nombre.s)
    ensures r.Success? ==> r.value == nombre.s && |r.value| > 0
    ensures r.Failure? ==> (r.error == Missing <==> nombre.Undefined?)
    ensures r.Failure? ==> (r.error == NotAString <==> nombre.NonString?)
  {
    match nombre
    case Undefined => Failure(Missing)
    case NonString => Failure(NotAString)
    case JsStr(s) => if JsLength(s) < MinLength then Failure(TooShort) else Success(s)
  }

  /** Every string of three or more characters is accepted. */
  lemma AcceptsThreeCharacters(s: string)
    requires |s| >= 3
    ensures ValidarUsuario(JsStr(s)) == Success(s)
  {
  }

  /** A string of at most one character is rejected, even one outside the BMP. */
  lemma RejectsOneCharacter(s: string)
    requires |s| <= 1
    ensures ValidarUsuario(JsStr(s)) == Failure(TooShort)
  {
  }

  /**
   * The length is counted in UTF-16 code units, so two characters are
   * accepted when one of them lies outside the Basic Multilingual Plane.
   */
  lemma {:induction false} AcceptsAstralPair(c: char, d: char)
    requires c as int >= 0x1_0000
    ensures ValidarUsuario(JsStr([c, d])).Success?
  {
    assert [c, d][1..] == [d];
    assert JsLength([d]) >= 1;
  }

  lemma BoundaryExamples()
    ensures ValidarUsuario(JsStr("ab")) == Failure(TooShort)
    ensures ValidarUsuario(JsStr("abc")) == Success("abc")
    ensures ValidarUsuario(JsStr("")) == Failure(TooShort)
    ensures ValidarUsuario(Undefined) == Failure(Missing)
    ensures ValidarUsuario(NonString) == Failure(NotAString)
  {
    assert JsLength("ab") == 2;
  }
}
