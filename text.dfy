/** Case-insensitive substring matching, as used by the search filters
    (`ILIKE '%q%'` in the durable store, `q.lower() in s.lower()` in the
    prototype). Only ASCII letters are folded. */
module Text {
  import opened Wrappers

  /** Python truthiness of an optional string: present and non-empty. */
  predicate Truthy(s: Option<string>) { s.Some? && s.value != "" }

  /** Lower-cases an ASCII upper-case letter; every other character is kept. */
  function Lower(c: char): (r: char)
    ensures 'A' <= c <= 'Z' ==> r as int == c as int + 32
    ensures !('A' <= c <= 'Z') ==> r == c
    ensures !('A' <= r <= 'Z')
  {
    if 'A' <= c <= 'Z' then (c as int + 32) as char else c
  }

  function LowerStr(s: string): (r: string)
    ensures |r| == |s|
    ensures forall i :: 0 <= i < |s| ==> r[i] == Lower(s[i])
  {
    if s == [] then [] else [Lower(s[0])] + LowerStr(s[1..])
  }

  /** `needle` occurs in `hay` starting at position `i`. */
  predicate OccursAt(hay: string, needle: string, i: int) {
    0 <= i <= |hay| - |needle| && hay[i..i + |needle|] == needle
  }

  /** `needle` occurs in `hay` at some position (Python's `needle in hay`). */
  predicate Contains(hay: string, needle: string) {
    exists i :: 0 <= i <= |hay| && OccursAt(hay, needle, i)
  }

  predicate ContainsIgnoreCase(hay: string, needle: string) {
    Contains(LowerStr(hay), LowerStr(needle))
  }

  /** Lower-casing twice changes nothing more. */
  lemma {:induction false} LowerStrIdempotent(s: string)
    ensures LowerStr(LowerStr(s)) == LowerStr(s)
  {
    var l := LowerStr(s);
    assert forall i :: 0 <= i < |s| ==> LowerStr(l)[i] == Lower(l[i]) == l[i];
  }

  /** The match ignores case on both sides: lower-casing either argument
      first gives the same answer. */
  lemma MatchIgnoresCase(hay: string, needle: string)
    ensures ContainsIgnoreCase(LowerStr(hay), needle) == ContainsIgnoreCase(hay, needle)
    ensures ContainsIgnoreCase(hay, LowerStr(needle)) == ContainsIgnoreCase(hay, needle)
  {
    LowerStrIdempotent(hay);
    LowerStrIdempotent(needle);
  }
}
