/**
 * The two String.prototype operations the book-name filter uses:
 * `toLowerCase` (restricted here to the ASCII letters) and `includes`.
 */
module Text {

  /** Lower-case one character: 'A'..'Z' map to 'a'..'z', everything else is kept. */
  function LowerChar(c: char): (r: char)
    ensures 'A' <= c <= 'Z' ==> 'a' <= r <= 'z' && r as int - 'a' as int == c as int - 'A' as int
    ensures !('A' <= c <= 'Z') ==> r == c
  {
    if 'A' <= c <= 'Z' then (c as int + ('a' as int - 'A' as int)) as char else c
  }

  /** `s.toLowerCase()`, character by character. */
  function ToLower(s: string): (r: string)
    ensures |r| == |s|
    ensures forall i :: 0 <= i < |s| ==> r[i] == LowerChar(s[i])
  {
    seq(|s|, i requires 0 <= i < |s| => LowerChar(s[i]))
  }

  /** Lower-casing twice is lower-casing once. */
  lemma ToLowerIdempotent(s: string)
    ensures ToLower(ToLower(s)) == ToLower(s)
  {
  }

  /** Upper- and lower-case spellings of the same ASCII text lower-case alike. */
  lemma ToLowerExample()
    ensures ToLower("ABC") == ToLower("aBc") == ToLower("abc") == "abc"
  {
    assert ToLower("ABC") == [LowerChar('A'), LowerChar('B'), LowerChar('C')];
    assert ToLower("aBc") == [LowerChar('a'), LowerChar('B'), LowerChar('c')];
    assert ToLower("abc") == [LowerChar('a'), LowerChar('b'), LowerChar('c')];
  }

  /** `needle` occurs in `hay` starting at index `i`. */
  predicate OccursAt(hay: string, needle: string, i: nat)
  {
    i + |needle| <= |hay| && hay[i..i + |needle|] == needle
  }

  /** `hay.includes(needle)`: the needle is a prefix of some suffix of the haystack. */
  predicate Includes(hay: string, needle: string)
    decreases |hay|
  {
    needle <= hay || (hay != [] && Includes(hay[1..], needle))
  }

  /** `Includes` holds exactly when the needle occurs at some position of the haystack. */
  lemma {:induction false} IncludesIff(hay: string, needle: string)
    ensures Includes(hay, needle) <==> exists i: nat :: i <= |hay| && OccursAt(hay, needle, i)
  {
    if needle <= hay {
      assert OccursAt(hay, needle, 0);
    } else if hay == [] {
      assert forall i: nat :: i <= |hay| ==> !OccursAt(hay, needle, i);
    } else {
      IncludesIff(hay[1..], needle);
      if exists i: nat :: i <= |hay| && OccursAt(hay, needle, i) {
        var i: nat :| i <= |hay| && OccursAt(hay, needle, i);
        assert i != 0;
        assert hay[1..][i - 1..i - 1 + |needle|] == hay[i..i + |needle|];
        assert OccursAt(hay[1..], needle, i - 1);
      }
      if Includes(hay[1..], needle) {
        var j: nat :| j <= |hay[1..]| && OccursAt(hay[1..], needle, j);
        assert hay[j + 1..j + 1 + |needle|] == hay[1..][j..j + |needle|];
        assert OccursAt(hay, needle, j + 1);
      }
    }
  }
}
