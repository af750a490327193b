/**
 * The loosely typed values a Firestore document field can hold, as far as the
 * dispatcher looks at them, and the JavaScript operations it applies to them:
 * truthiness (`x ? a : b`), strict equality with `false` (`x === false`) and
 * `String.prototype.includes`.
 */
module JsValues {

  datatype JsValue =
    | Undefined        // the field is absent from the document
    | Null
    | Bool(b: bool)
    | Num(n: int)      // integral numbers; fractions and NaN are not modelled
    | Str(s: string)
    | Object           // a map, an array, a timestamp, a reference: always truthy

  /** The falsy values of the language that can appear in a document field. */
  const Falsy: set<JsValue> := {Undefined, Null, Bool(false), Num(0), Str("")}

  /** JavaScript's ToBoolean on the values above: false exactly on the values in `Falsy`. */
  predicate Truthy(v: JsValue): (r: bool)
    ensures r <==> v !in Falsy
  {
    match v
    case Undefined => false
    case Null => false
    case Bool(b) => b
    case Num(n) => n != 0
    case Str(s) => s != ""
    case Object => true
  }

  /** `v === false`: the one falsy value that is a boolean. */
  predicate IsStrictlyFalse(v: JsValue): (r: bool)
    ensures r <==> v.Bool? && !Truthy(v)
  {
    v == Bool(false)
  }

  /**
   * `v === false` implies falsiness, but not the other way round: every other
   * falsy value fails the strict test.
   */
  lemma StrictlyFalseIsNarrowerThanFalsy(v: JsValue)
    ensures IsStrictlyFalse(v) ==> !Truthy(v)
    ensures forall f :: f in Falsy - {Bool(false)} ==> !Truthy(f) && !IsStrictlyFalse(f)
  {
  }

  /** Does `needle` occur in `text` at position 0? */
  predicate StartsWith(text: string, needle: string) {
    |needle| <= |text| && text[..|needle|] == needle
  }

  /** Does `needle` occur in `text` starting at index `i`? */
  predicate OccursAt(text: string, needle: string, i: int) {
    0 <= i && i + |needle| <= |text| && text[i..i + |needle|] == needle
  }

  /** `text.includes(needle)`: `needle` occurs somewhere in `text` as a contiguous part. */
  predicate Contains(text: string, needle: string): (r: bool)
    ensures r <==> exists i :: OccursAt(text, needle, i)
    decreases |text|
  {
    if StartsWith(text, needle) then
      assert OccursAt(text, needle, 0);
      true
    else if text == [] then
      false
    else
      OccursInTail(text, needle);
      Contains(text[1..], needle)
  }

  /** Past position 0, an occurrence in `text` is an occurrence in its tail, one index earlier. */
  lemma OccursInTail(text: string, needle: string)
    requires text != [] && !StartsWith(text, needle)
    ensures (exists i :: OccursAt(text, needle, i)) <==> (exists i :: OccursAt(text[1..], needle, i))
  {
    if i :| OccursAt(text, needle, i) {
      assert i != 0;
      assert text[1..][i - 1..i - 1 + |needle|] == text[i..i + |needle|];
      assert OccursAt(text[1..], needle, i - 1);
    }
    if i :| OccursAt(text[1..], needle, i) {
      assert text[1..][i..i + |needle|] == text[i + 1..i + 1 + |needle|];
      assert OccursAt(text, needle, i + 1);
    }
  }

  /** For a one-character needle (a weekday digit), `includes` is membership of that character. */
  lemma {:induction false} ContainsOneChar(text: string, c: char)
    ensures Contains(text, [c]) <==> c in text
    decreases |text|
  {
    if text != [] {
      ContainsOneChar(text[1..], c);
      assert text == [text[0]] + text[1..];
      assert StartsWith(text, [c]) <==> text[0] == c;
    }
  }
}
