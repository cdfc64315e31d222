/** Values shared by every part of the model: optional request fields, the
    JavaScript truthiness the handlers test them with, and plain substring
    containment (the model's reading of SQL `LIKE '%needle%'`). */
module Common {

  /** A request field that may be absent (`undefined` in the request object). */
  datatype Option<+T> = None | Some(value: T)

  /** JavaScript truthiness of a string-valued request field: `undefined` and
      the empty string are falsy, every other string is truthy. */
  predicate Truthy(o: Option<string>) {
    o.Some? && o.value != ""
  }

  /** The string `RegExp.prototype.test` matches against: an absent value is
      converted to the text "undefined". */
  function JsString(o: Option<string>): string {
    match o
    case Some(v) => v
    case None => "undefined"
  }

  /** `needle` occurs in `hay` starting at index `i`. */
  predicate OccursAt(hay: string, needle: string, i: int) {
    0 <= i && i + |needle| <= |hay| && hay[i..i + |needle|] == needle
  }

  /** Substring search, scanning `hay` from the left. */
  function Contains(hay: string, needle: string): bool
    decreases |hay|
  {
    if needle <= hay then true
    else if |hay| == 0 then false
    else Contains(hay[1..], needle)
  }

  /** The scan finds `needle` exactly when it occurs somewhere in `hay`. */
  lemma {:induction false} ContainsIsSubstring(hay: string, needle: string)
    ensures Contains(hay, needle) <==> exists i :: OccursAt(hay, needle, i)
    decreases |hay|
  {
    if needle <= hay {
      assert OccursAt(hay, needle, 0);
    } else if |hay| == 0 {
      assert forall i :: !OccursAt(hay, needle, i);
    } else {
      ContainsIsSubstring(hay[1..], needle);
      forall i | OccursAt(hay[1..], needle, i)
        ensures OccursAt(hay, needle, i + 1)
      {
        assert hay[i + 1..i + 1 + |needle|] == hay[1..][i..i + |needle|];
      }
      forall i | OccursAt(hay, needle, i)
        ensures OccursAt(hay[1..], needle, i - 1)
      {
        if i == 0 {
          assert false;
        }
        assert hay[i..i + |needle|] == hay[1..][i - 1..i - 1 + |needle|];
      }
    }
  }
}
