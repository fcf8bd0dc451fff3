/** Ordinal substring search, as `String.Contains(string)` performs it. */
module Text {

  /** `part` occurs in `s` starting at offset `i`. */
  predicate OccursAt(s: string, part: string, i: int) {
    0 <= i && i + |part| <= |s| && s[i..i + |part|] == part
  }

  /** `s` contains `part` as a contiguous substring (ordinal comparison, no case folding). */
  predicate Contains(s: string, part: string)
    decreases |s|
  {
    part <= s || (|s| > 0 && Contains(s[1..], part))
  }

  /** The recursive search agrees with the offset definition, in both directions. */
  lemma {:induction false} ContainsIff(s: string, part: string)
    ensures Contains(s, part) <==> exists i :: OccursAt(s, part, i)
    decreases |s|
  {
    if part <= s {
      assert OccursAt(s, part, 0);
    } else if |s| > 0 {
      ContainsIff(s[1..], part);
      forall i | OccursAt(s, part, i)
        ensures OccursAt(s[1..], part, i - 1)
      {
        assert i != 0;
        SliceOfTail(s, i - 1, i - 1 + |part|);
      }
      if Contains(s[1..], part) {
        var i :| OccursAt(s[1..], part, i);
        SliceOfTail(s, i, i + |part|);
        assert OccursAt(s, part, i + 1);
      }
    }
  }

  /** A slice of the tail is the slice one position further on. */
  lemma SliceOfTail(s: string, i: int, j: int)
    requires 0 <= i <= j <= |s| - 1
    ensures s[1..][i..j] == s[i + 1..j + 1]
  {
    assert forall k :: 0 <= k < j - i ==> s[1..][i..j][k] == s[i + 1..j + 1][k];
  }

  /** Every string contains the empty string. */
  lemma ContainsEmpty(s: string)
    ensures Contains(s, "")
  {
  }
}
