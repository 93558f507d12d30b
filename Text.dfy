/**
 * The string operations the catalogue relies on: `str.lower()` (restricted to
 * ASCII) and Python's substring test `needle in hay`.
 */
module Text {

  predicate IsUpper(c: char) {
    'A' <= c <= 'Z'
  }

  /** One character lower-cased: ASCII capitals move down by 32, all else stays. */
  function LowerChar(c: char): (r: char)
    ensures !IsUpper(r)
  {
    if IsUpper(c) then (c as int + 32) as char else c
  }

  /** `s.lower()` on ASCII text: the same length, every character lower-cased in place. */
  function Lower(s: string): (r: string)
    ensures |r| == |s|
    ensures forall i :: 0 <= i < |s| ==> r[i] == LowerChar(s[i])
  {
    if s == [] then [] else [LowerChar(s[0])] + Lower(s[1..])
  }

  predicate StartsWith(prefix: string, s: string) {
    |prefix| <= |s| && s[..|prefix|] == prefix
  }

  /** `needle in hay`: the needle starts at the front of hay or somewhere in its tail. */
  predicate Contains(needle: string, hay: string)
    ensures Contains(needle, hay) ==> |needle| <= |hay|
    decreases |hay|
  {
    StartsWith(needle, hay) || (|hay| > 0 && Contains(needle, hay[1..]))
  }

  /** The needle occurs in hay starting at position i. */
  ghost predicate OccursAt(needle: string, hay: string, i: int) {
    0 <= i && i + |needle| <= |hay| && hay[i..i + |needle|] == needle
  }

  /** Contains holds exactly when the needle occurs at some position of hay. */
  lemma {:induction false} ContainsIffOccurs(needle: string, hay: string)
    ensures Contains(needle, hay) <==> exists i :: OccursAt(needle, hay, i)
    decreases |hay|
  {
    if |hay| > 0 {
      ContainsIffOccurs(needle, hay[1..]);
      if StartsWith(needle, hay) {
        assert OccursAt(needle, hay, 0);
      }
      if Contains(needle, hay[1..]) {
        var j :| OccursAt(needle, hay[1..], j);
        assert hay[j + 1..j + 1 + |needle|] == hay[1..][j..j + |needle|];
        assert OccursAt(needle, hay, j + 1);
      }
      if i :| OccursAt(needle, hay, i) {
        if i == 0 {
          assert StartsWith(needle, hay);
        } else {
          assert hay[1..][i - 1..i - 1 + |needle|] == hay[i..i + |needle|];
          assert OccursAt(needle, hay[1..], i - 1);
        }
      }
    } else {
      if Contains(needle, hay) {
        assert OccursAt(needle, hay, 0);
      }
      if i :| OccursAt(needle, hay, i) {
        assert StartsWith(needle, hay);
      }
    }
  }

  /** The empty string occurs in every string, as `"" in s` is always True. */
  lemma EmptyContainedEverywhere(hay: string)
    ensures Contains("", hay)
  {
    assert StartsWith("", hay);
  }

  /** A needle holding a character that hay lacks does not occur in hay. */
  lemma MissingCharNotContained(needle: string, hay: string, c: char)
    requires c in needle && c !in hay
    ensures !Contains(needle, hay)
  {
    ContainsIffOccurs(needle, hay);
  }
}
