/** The string operations the board-word guard relies on: str.lower and the `in` substring test. */
module Text {

  function LowerChar(c: char): char
  {
    if 'A' <= c <= 'Z' then (c as int - 'A' as int + 'a' as int) as char else c
  }

  function Lower(s: string): (r: string)
    ensures |r| == |s|
  {
    seq(|s|, i requires 0 <= i < |s| => LowerChar(s[i]))
  }

  /** Lowering twice is lowering once. */
  lemma LowerIdempotent(s: string)
    ensures Lower(Lower(s)) == Lower(s)
  {
  }

  /** `needle` sits in `hay` starting at index `at`. */
  predicate Occurs(needle: string, hay: string, at: int)
  {
    0 <= at && at + |needle| <= |hay| && hay[at..at + |needle|] == needle
  }

  /** Python's `needle in hay` for strings; the empty string occurs in every string. */
  predicate IsSubstring(needle: string, hay: string)
    decreases |hay|
  {
    (|needle| <= |hay| && hay[..|needle|] == needle)
    || (|hay| > 0 && IsSubstring(needle, hay[1..]))
  }

  lemma {:induction false} SubstringIffOccurs(needle: string, hay: string)
    ensures IsSubstring(needle, hay) <==> exists at :: Occurs(needle, hay, at)
    decreases |hay|
  {
    var atStart := |needle| <= |hay| && hay[..|needle|] == needle;
    if atStart {
      assert Occurs(needle, hay, 0);
    }
    if |hay| > 0 {
      SubstringIffOccurs(needle, hay[1..]);
      if IsSubstring(needle, hay[1..]) {
        var k :| Occurs(needle, hay[1..], k);
        assert hay[1..][k..k + |needle|] == hay[k + 1..k + 1 + |needle|];
        assert Occurs(needle, hay, k + 1);
      }
      if !atStart && exists at :: Occurs(needle, hay, at) {
        var at :| Occurs(needle, hay, at);
        assert at != 0;
        assert hay[1..][at - 1..at - 1 + |needle|] == hay[at..at + |needle|];
        assert Occurs(needle, hay[1..], at - 1);
      }
    } else if exists at :: Occurs(needle, hay, at) {
      var at :| Occurs(needle, hay, at);
      assert at == 0 && |needle| == 0;
    }
  }

  /** Every string contains itself, so an equality test is subsumed by the substring test. */
  lemma SelfIsSubstring(s: string)
    ensures IsSubstring(s, s)
  {
  }
}
