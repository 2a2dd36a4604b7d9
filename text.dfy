/** Text helpers shared by the extractor, the query builder and the ranker:
    optional arguments, Python truthiness of strings, ASCII lower-casing and
    Python's substring test `needle in haystack`. */
module Text {

  /** An optional argument: Python's `None` or a value. */
  datatype Option<T> = None | Some(value: T)

  /** Python truthiness of an optional string: `None` and `""` are both false. */
  predicate Truthy(o: Option<string>)
  {
    o.Some? && o.value != ""
  }

  predicate IsUpperChar(c: char)
  {
    'A' <= c <= 'Z'
  }

  /** `str.lower()` on one character, restricted to ASCII letters. */
  function LowerChar(c: char): (d: char)
    ensures !IsUpperChar(d)
    ensures !IsUpperChar(c) ==> d == c
  {
    if IsUpperChar(c) then (c as int + 32) as char else c
  }

  /** `str.lower()`, restricted to ASCII letters. */
  function Lower(s: string): (r: string)
    ensures |r| == |s|
    ensures forall i :: 0 <= i < |s| ==> r[i] == LowerChar(s[i])
  {
    seq(|s|, i requires 0 <= i < |s| => LowerChar(s[i]))
  }

  /** `needle` occurs in `haystack` starting at position `i`. */
  ghost predicate OccursAt(needle: string, haystack: string, i: int)
  {
    0 <= i && i + |needle| <= |haystack| && haystack[i..i + |needle|] == needle
  }

  /** Python's `needle in haystack` on strings, as a left-to-right search;
      the empty string occurs in every string. */
  function IsSubstring(needle: string, haystack: string): bool
    decreases |haystack|
  {
    if |needle| > |haystack| then false
    else haystack[..|needle|] == needle || IsSubstring(needle, haystack[1..])
  }

  /** The search finds `needle` exactly when it occurs somewhere in `haystack`. */
  lemma {:induction false} IsSubstringIff(needle: string, haystack: string)
    ensures IsSubstring(needle, haystack) <==> exists i :: OccursAt(needle, haystack, i)
    decreases |haystack|
  {
    if |needle| > |haystack| {
    } else if haystack[..|needle|] == needle {
      assert OccursAt(needle, haystack, 0);
    } else {
      IsSubstringIff(needle, haystack[1..]);
      if IsSubstring(needle, haystack[1..]) {
        var i :| OccursAt(needle, haystack[1..], i);
        assert haystack[1..][i..i + |needle|] == haystack[i + 1..i + 1 + |needle|];
        assert OccursAt(needle, haystack, i + 1);
      } else {
        forall i | OccursAt(needle, haystack, i)
          ensures false
        {
          assert i != 0;
          assert haystack[1..][i - 1..i - 1 + |needle|] == haystack[i..i + |needle|];
          assert OccursAt(needle, haystack[1..], i - 1);
        }
      }
    }
  }

  /** Substrings of a string are substrings of any string that contains it at a known place. */
  lemma OccursInConcat(needle: string, a: string, b: string, c: string)
    requires IsSubstring(needle, b)
    ensures IsSubstring(needle, a + b + c)
  {
    IsSubstringIff(needle, b);
    var i :| OccursAt(needle, b, i);
    assert (a + b + c)[|a| + i..|a| + i + |needle|] == b[i..i + |needle|];
    assert OccursAt(needle, a + b + c, |a| + i);
    IsSubstringIff(needle, a + b + c);
  }

  /** Occurrence is transitive. */
  lemma SubstringTrans(a: string, b: string, c: string)
    requires IsSubstring(a, b) && IsSubstring(b, c)
    ensures IsSubstring(a, c)
  {
    IsSubstringIff(a, b);
    IsSubstringIff(b, c);
    var i :| OccursAt(a, b, i);
    var j :| OccursAt(b, c, j);
    assert b[i..i + |a|] == a && c[j..j + |b|] == b;
    forall k | 0 <= k < |a| ensures c[j + i + k] == a[k] {
      assert a[k] == b[i + k] == c[j..j + |b|][i + k];
    }
    assert c[j + i..j + i + |a|] == a;
    assert OccursAt(a, c, j + i);
    IsSubstringIff(a, c);
  }
}
