/**
 * Substring search over C strings, as `strstr` does it: the program
 * looks for ".lua" in file names and its tests look for text in the
 * terminal buffer.
 */
module Strings {
  /** needle sits in hay at offset k. */
  predicate At(hay: string, needle: string, k: int) {
    0 <= k <= |hay| - |needle| && hay[k..k + |needle|] == needle
  }

  /** `strstr(hay, needle) != NULL`, the C library's substring search. */
  predicate HasSubstring(hay: string, needle: string) {
    exists k | 0 <= k <= |hay| :: At(hay, needle, k)
  }

  lemma ContainsAt(hay: string, needle: string, k: int)
    requires At(hay, needle, k)
    ensures HasSubstring(hay, needle)
  {
  }

  /** Text found in b is found in any a + b + c. */
  lemma ContainsWithin(a: string, b: string, c: string, needle: string)
    requires HasSubstring(b, needle)
    ensures HasSubstring(a + b + c, needle)
  {
    var k :| 0 <= k <= |b| && At(b, needle, k);
    assert 0 <= k <= |b| - |needle| && b[k..k + |needle|] == needle;
    assert (a + b + c)[|a| + k..|a| + k + |needle|] == b[k..k + |needle|];
    ContainsAt(a + b + c, needle, |a| + k);
  }

  /** Containment is transitive. */
  lemma ContainsTrans(a: string, b: string, needle: string)
    requires HasSubstring(a, b) && HasSubstring(b, needle)
    ensures HasSubstring(a, needle)
  {
    var i :| 0 <= i <= |a| && At(a, b, i);
    var j :| 0 <= j <= |b| && At(b, needle, j);
    assert 0 <= i <= |a| - |b| && a[i..i + |b|] == b;
    assert 0 <= j <= |b| - |needle| && b[j..j + |needle|] == needle;
    forall k | 0 <= k < |needle|
      ensures a[i + j + k] == needle[k]
    {
      assert a[i..i + |b|][j + k] == a[i + j + k];
    }
    assert a[i + j..i + j + |needle|] == needle;
    ContainsAt(a, needle, i + j);
  }
}
