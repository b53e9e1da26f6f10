/**
 * The import options (api/views.py:526-539 and the `options.get(...)` reads of the import
 * loops): a JSON request passes its `options` object as it is, a form upload turns its text
 * fields into booleans with `to_bool`.
 */
module Requests {
  import opened Text

  /** A scalar option value: a JSON boolean, integer, string or `null`; form fields are strings. */
  datatype Value = Bool(b: bool) | Int(i: int) | Str(s: string) | Null

  type Options = map<string, Value>

  /** Python truthiness of an option value. */
  predicate Truth(v: Value) {
    match v
    case Bool(b) => b
    case Int(i) => i != 0
    case Str(s) => s != ""
    case Null => false
  }

  /** `options.get(key, default)` used as a condition. */
  predicate Flag(options: Options, key: string, default: bool) {
    if key in options then Truth(options[key]) else default
  }

  /** `str(v)`. */
  function PyText(v: Value): string {
    match v
    case Bool(b) => if b then "True" else "False"
    case Int(i) => if i < 0 then "-" + Decimal(-i) else Decimal(i)
    case Str(s) => s
    case Null => "None"
  }

  /** The words `to_bool` accepts, once lower-cased. */
  predicate YesWord(w: string) { w == "true" || w == "1" || w == "on" || w == "yes" }

  /** `to_bool`: a boolean is itself, anything else is true when its lower-cased text is a yes-word. */
  predicate ToBool(v: Value) {
    if v.Bool? then v.b else YesWord(Lower(PyText(v)))
  }

  /** Upper-casing a text does not change what `lower` makes of it. */
  lemma LowerUpper(s: string)
    ensures Lower(Upper(s)) == Lower(s)
  {
  }

  /** `to_bool` ignores case: `TRUE`, `Yes` and `ON` count like their lower-case forms. */
  lemma ToBoolIgnoresCase(s: string)
    ensures ToBool(Str(Upper(s))) <==> ToBool(Str(s))
  {
    LowerUpper(s);
  }

  /** `to_bool` on a form text accepts exactly the four yes-words, in any case. */
  lemma ToBoolText(s: string)
    ensures ToBool(Str(s)) <==> YesWord(Lower(s))
    ensures !ToBool(Str("false")) && !ToBool(Str("0")) && !ToBool(Str("")) && ToBool(Str("1"))
  {
    assert Lower("false") == "false";
    assert Lower("0") == "0" && Lower("1") == "1";
  }

  /** The options of a form upload: `update` defaults to false, `skip_invalid` to true. */
  function FormOptions(post: map<string, string>): (options: Options)
    ensures options.Keys == {"update", "skip_invalid", "delimiter"}
    ensures options["update"].Bool? && options["skip_invalid"].Bool?
  {
    map[
      "update" := Bool(ToBool(if "update" in post then Str(post["update"]) else Bool(false))),
      "skip_invalid" := Bool(ToBool(if "skip_invalid" in post then Str(post["skip_invalid"]) else Bool(true))),
      "delimiter" := Str(if "delimiter" in post then post["delimiter"] else ",")]
  }

  /**
   * The loops read `skip_invalid` with default false, so a JSON request without it stops at
   * the first error while a form upload without it goes on.
   */
  lemma SkipInvalidDefaults(post: map<string, string>, json: Options)
    requires "skip_invalid" !in post && "skip_invalid" !in json
    ensures Flag(FormOptions(post), "skip_invalid", false)
    ensures !Flag(json, "skip_invalid", false)
  {
  }

  /** A form field is read with `to_bool`; in a JSON request any non-empty string counts as true. */
  lemma TextFlagsDiffer()
    ensures !Flag(FormOptions(map["update" := "false"]), "update", false)
    ensures Flag(map["update" := Str("false")], "update", false)
  {
    ToBoolText("false");
  }
}
