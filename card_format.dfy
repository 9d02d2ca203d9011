/**
  The format check on a payment card number made by the reservation endpoint:
  Python's `re.match(r'^[0-9]{16}$', card_number)`.

  The matcher is written piece by piece after the pattern: `re.match` only tries a
  match at position 0 (so `^` adds nothing), `[0-9]{16}` consumes exactly sixteen
  characters from the code-point range '0'..'9', and `$` (no MULTILINE flag)
  succeeds at the end of the string or just before a newline that is the last
  character. The lemma `CardNumberAccepted` then states the accepted language
  outright.
*/
module CardFormat {

  /** Number of digits the pattern demands. */
  const CardDigits: nat := 16

  /** `[0-9]`: one character in the range '0'..'9' (no other Unicode digit). */
  predicate IsAsciiDigit(c: char) {
    '0' <= c <= '9'
  }

  predicate AllAsciiDigits(s: string) {
    forall i :: 0 <= i < |s| ==> IsAsciiDigit(s[i])
  }

  /** `$` without MULTILINE, applied to what is left of the input. */
  predicate EndAnchor(rest: string) {
    rest == [] || rest == ['\n']
  }

  /** `[0-9]{n}$` matched at the start of `s`. */
  predicate DigitsThenEnd(s: string, n: nat)
    decreases n
  {
    if n == 0 then EndAnchor(s)
    else |s| > 0 && IsAsciiDigit(s[0]) && DigitsThenEnd(s[1..], n - 1)
  }

  /** The whole check: `re.match(r'^[0-9]{16}$', s)` is not None. */
  predicate MatchesCardPattern(s: string) {
    DigitsThenEnd(s, CardDigits)
  }

  /** `[0-9]{n}$` accepts exactly n digits, optionally followed by one final newline. */
  lemma {:induction false} DigitsThenEndExactly(s: string, n: nat)
    ensures DigitsThenEnd(s, n) <==>
              (|s| == n && AllAsciiDigits(s)) ||
              (|s| == n + 1 && AllAsciiDigits(s[..n]) && s[n] == '\n')
    decreases n
  {
    if n > 0 && |s| > 0 {
      DigitsThenEndExactly(s[1..], n - 1);
      if |s| >= n {
        assert s[1..][..n - 1] == s[..n][1..];
        assert forall i :: 1 <= i < n ==> s[..n][1..][i - 1] == s[..n][i];
      }
      assert forall i :: 1 <= i < |s| ==> s[1..][i - 1] == s[i];
    }
  }

  /** The card number is accepted iff it is sixteen ASCII digits, or those sixteen and a single trailing newline. */
  lemma CardNumberAccepted(s: string)
    ensures MatchesCardPattern(s) <==>
              (|s| == 16 && AllAsciiDigits(s)) ||
              (|s| == 17 && AllAsciiDigits(s[..16]) && s[16] == '\n')
  {
    DigitsThenEndExactly(s, CardDigits);
  }

  /** A well-formed sample card number. */
  lemma AcceptedSample()
    ensures MatchesCardPattern("1234567890123456")
  {
    var s := "1234567890123456";
    assert AllAsciiDigits(s) by {
      forall i | 0 <= i < |s| ensures IsAsciiDigit(s[i]) {
        assert s[i] in "0123456789";
      }
    }
    CardNumberAccepted(s);
  }

  /** The same digits followed by one newline are accepted too, as `$` matches before a final newline. */
  lemma AcceptedSampleWithNewline()
    ensures MatchesCardPattern("1234567890123456\n")
  {
    var s := "1234567890123456\n";
    assert s[..16] == "1234567890123456";
    AcceptedSample();
    CardNumberAccepted("1234567890123456");
    CardNumberAccepted(s);
  }

  /** Malformed sample card numbers of the wrong length: too short, too long, two newlines. */
  lemma RejectedLengthSamples()
    ensures !MatchesCardPattern("1234")
    ensures !MatchesCardPattern("12345678901234567")
    ensures !MatchesCardPattern("1234567890123456\n\n")
  {
    CardNumberAccepted("1234");
    CardNumberAccepted("12345678901234567");
    assert "12345678901234567"[16] != '\n';
    CardNumberAccepted("1234567890123456\n\n");
  }

  /** Malformed sample card numbers of the right length: letters at the end, a leading blank. */
  lemma RejectedCharacterSamples()
    ensures !MatchesCardPattern("12345678901234ab")
    ensures !MatchesCardPattern(" 1234567890123456")
  {
    CardNumberAccepted("12345678901234ab");
    assert !IsAsciiDigit("12345678901234ab"[14]);
    CardNumberAccepted(" 1234567890123456");
    assert !IsAsciiDigit(" 1234567890123456"[0]);
  }
}
