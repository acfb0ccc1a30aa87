/**
 * The phone search `re.search(r'\d{11}|375\d{9}', data)`: the leftmost
 * position where the pattern matches wins, and at each position the first
 * alternative is tried before the second.
 */
module PhonePattern {
  import opened Wrappers
  import opened Text

  /** `n` digits of `s` start at position `p`. */
  predicate DigitRun(s: string, p: nat, n: nat) {
    p + n <= |s| && forall k :: p <= k < p + n ==> IsDigit(s[k])
  }

  const CountryCode := "375"

  /** What the pattern matches when tried at position `p`. */
  function MatchAt(s: string, p: nat): Option<string> {
    if DigitRun(s, p, 11) then Some(s[p..p + 11])
    else if p + 12 <= |s| && s[p..p + 3] == CountryCode && DigitRun(s, p + 3, 9) then Some(s[p..p + 12])
    else None
  }

  /** The match `re.search` reports when scanning from position `from` on. */
  function Search(s: string, from: nat): Option<string>
    decreases |s| + 1 - from
  {
    if from > |s| then None
    else if MatchAt(s, from).Some? then MatchAt(s, from)
    else Search(s, from + 1)
  }

  /** `p` is the first position at or after `from` where eleven digits start. */
  ghost predicate FirstRunAt(s: string, from: nat, p: nat) {
    from <= p && DigitRun(s, p, 11) && forall q: nat :: from <= q < p ==> !DigitRun(s, q, 11)
  }

  /**
   * The `375\d{9}` alternative never decides the match: wherever it would
   * match, `\d{11}` matches first, so a match is always eleven digits.
   */
  lemma SecondAlternativeNeverWins(s: string, p: nat)
    ensures MatchAt(s, p).Some? <==> DigitRun(s, p, 11)
    ensures MatchAt(s, p).Some? ==> MatchAt(s, p).value == s[p..p + 11]
  {
    if p + 12 <= |s| && s[p..p + 3] == CountryCode && DigitRun(s, p + 3, 9) {
      assert s[p] == s[p..p + 3][0] == '3';
      assert s[p + 1] == s[p..p + 3][1] == '7';
      assert s[p + 2] == s[p..p + 3][2] == '5';
      assert DigitRun(s, p, 11);
    }
  }

  /** The search finds the leftmost run of eleven digits, and fails exactly when there is none. */
  lemma {:induction false} SearchFindsLeftmostRun(s: string, from: nat)
    ensures Search(s, from).Some? ==>
      exists p: nat :: FirstRunAt(s, from, p) && Search(s, from).value == s[p..p + 11]
    ensures Search(s, from).None? <==> forall q: nat :: from <= q ==> !DigitRun(s, q, 11)
    decreases |s| + 1 - from
  {
    if from > |s| {
    } else {
      SecondAlternativeNeverWins(s, from);
      if MatchAt(s, from).Some? {
        assert FirstRunAt(s, from, from);
      } else {
        SearchFindsLeftmostRun(s, from + 1);
        if Search(s, from + 1).Some? {
          var p: nat :| FirstRunAt(s, from + 1, p) && Search(s, from + 1).value == s[p..p + 11];
          assert FirstRunAt(s, from, p);
        }
      }
    }
  }

  /** A twelve-digit number starting with 375 yields only its first eleven digits. */
  lemma CountryCodeNumberTruncated(s: string)
    requires |s| == 12 && s[..3] == CountryCode
    requires forall k :: 0 <= k < 12 ==> IsDigit(s[k])
    ensures Search(s, 0) == Some(s[..11])
  {
    assert DigitRun(s, 0, 11);
  }
}
