/**
 * The payload test: a case-sensitive regular-expression search for
 * `seq \d+` anywhere in the payload text.
 */
module Payload {

  /** The digits `\d` matches (only the ASCII ones are modelled). */
  predicate IsDigit(c: char)
  {
    '0' <= c <= '9'
  }

  /** `seq \d+` matches exactly the slice `s[i..j]`: the four characters `seq `, then one or more digits. */
  ghost predicate MatchesAt(s: string, i: int, j: int)
  {
    0 <= i && i + 4 < j <= |s| && s[i..i + 4] == "seq " && forall k :: i + 4 <= k < j ==> IsDigit(s[k])
  }

  /** A regular-expression search for `seq \d+` succeeds somewhere in `s`. */
  ghost predicate Matches(s: string)
  {
    exists i, j :: MatchesAt(s, i, j)
  }

  /** Scans `s` left to right for `seq ` followed by a digit. */
  function ContainsSeqNumber(s: string): bool
  {
    if |s| < 5 then false
    else (s[..4] == "seq " && IsDigit(s[4])) || ContainsSeqNumber(s[1..])
  }

  lemma MatchShifts(s: string, i: int, j: int)
    requires |s| > 0
    ensures MatchesAt(s[1..], i, j) ==> MatchesAt(s, i + 1, j + 1)
    ensures i > 0 && MatchesAt(s, i, j) ==> MatchesAt(s[1..], i - 1, j - 1)
  {
    if MatchesAt(s[1..], i, j) {
      assert s[i + 1..i + 5] == s[1..][i..i + 4];
      forall k | i + 5 <= k < j + 1 ensures IsDigit(s[k]) {
        assert s[k] == s[1..][k - 1];
      }
    }
    if i > 0 && MatchesAt(s, i, j) {
      assert s[1..][i - 1..i + 3] == s[i..i + 4];
      forall k | i + 3 <= k < j - 1 ensures IsDigit(s[1..][k]) {
        assert s[1..][k] == s[k + 1];
      }
    }
  }

  /**
   * The scanner finds a match exactly when the regular-expression search does:
   * one digit after `seq ` is enough for `\d+`, and the match may start anywhere.
   */
  lemma {:induction false} ContainsSeqNumberIsSearch(s: string)
    ensures ContainsSeqNumber(s) <==> Matches(s)
  {
    if |s| < 5 {
      assert !Matches(s);
    } else {
      ContainsSeqNumberIsSearch(s[1..]);
      if s[..4] == "seq " && IsDigit(s[4]) {
        assert MatchesAt(s, 0, 5);
      } else if ContainsSeqNumber(s[1..]) {
        var i, j :| MatchesAt(s[1..], i, j);
        MatchShifts(s, i, j);
      } else if Matches(s) {
        var i, j :| MatchesAt(s, i, j);
        if i == 0 {
          assert false;
        }
        MatchShifts(s, i, j);
        assert false;
      }
    }
  }

  /**
   * The search is case-sensitive, needs a digit after the space, and finds the
   * pattern in the middle of other text.
   */
  lemma PayloadExamples()
    ensures !Matches("SEQ 1")
    ensures !Matches("seq x")
    ensures !Matches("seq")
    ensures Matches("abc seq 42 def")
  {
    ContainsSeqNumberIsSearch("SEQ 1");
    assert "SEQ 1"[..4] != "seq " by { assert "SEQ 1"[..4][0] == 'S'; }
    assert |"SEQ 1"[1..]| == 4;
    ContainsSeqNumberIsSearch("seq x");
    ContainsSeqNumberIsSearch("seq");
    assert MatchesAt("abc seq 42 def", 4, 10);
  }
}
