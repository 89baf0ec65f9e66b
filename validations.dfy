/** The two format checks shared by the controllers:
    isValidEmail, the regular expression /^[^\s@]+@[^\s@]+\.[^\s@]+$/, and
    isValidPhoneNumber, the regular expression /^0\d{9}$/. */
module Validations {
  import opened Numerals

  /** The characters JavaScript's `\s` matches. */
  predicate IsWhitespace(c: char)
  {
    var u := c as int;
    u == 0x09 || u == 0x0A || u == 0x0B || u == 0x0C || u == 0x0D || u == 0x20 ||
    u == 0xA0 || u == 0x1680 || (0x2000 <= u <= 0x200A) || u == 0x2028 || u == 0x2029 ||
    u == 0x202F || u == 0x205F || u == 0x3000 || u == 0xFEFF
  }

  /** The class [^\s@]. */
  predicate IsEmailChar(c: char)
  {
    !IsWhitespace(c) && c != '@'
  }

  predicate AllEmailChars(s: string)
  {
    forall k :: 0 <= k < |s| ==> IsEmailChar(s[k])
  }

  /** The regular expression's meaning: three non-empty runs of [^\s@], the
      first two separated by '@' at index i, the last two by '.' at index j. */
  predicate IsValidEmail(s: string)
  {
    exists i, j :: 0 < i < j < |s| && i + 1 < j && j + 1 < |s| && s[i] == '@' && s[j] == '.' &&
      AllEmailChars(s[..i]) && AllEmailChars(s[i + 1..j]) && AllEmailChars(s[j + 1..])
  }

  /** A domain part with a '.' that is neither its first nor its last character. */
  predicate HasInnerDot(d: string)
  {
    exists k :: 1 <= k < |d| - 1 && d[k] == '.'
  }

  /** An address is L '@' D with L and D non-empty, free of '@' and
      whitespace, and D holding an inner dot. */
  predicate IsAddressShape(s: string)
  {
    exists i :: 0 < i < |s| && s[i] == '@' && AllEmailChars(s[..i]) &&
      AllEmailChars(s[i + 1..]) && |s[i + 1..]| > 0 && HasInnerDot(s[i + 1..])
  }

  lemma EmailShape(s: string)
    ensures IsValidEmail(s) <==> IsAddressShape(s)
  {
    if IsValidEmail(s) {
      var i, j :| 0 < i < j < |s| && i + 1 < j && j + 1 < |s| && s[i] == '@' && s[j] == '.' &&
        AllEmailChars(s[..i]) && AllEmailChars(s[i + 1..j]) && AllEmailChars(s[j + 1..]);
      RunsMakeShape(s, i, j);
    }
    if IsAddressShape(s) {
      var i :| 0 < i < |s| && s[i] == '@' && AllEmailChars(s[..i]) &&
        AllEmailChars(s[i + 1..]) && |s[i + 1..]| > 0 && HasInnerDot(s[i + 1..]);
      var k :| 1 <= k < |s[i + 1..]| - 1 && s[i + 1..][k] == '.';
      ShapeMakesRuns(s, i, k);
    }
  }

  /** The three runs of the regular expression form an address. */
  lemma RunsMakeShape(s: string, i: int, j: int)
    requires 0 < i < j < |s| && i + 1 < j && j + 1 < |s| && s[i] == '@' && s[j] == '.'
    requires AllEmailChars(s[..i]) && AllEmailChars(s[i + 1..j]) && AllEmailChars(s[j + 1..])
    ensures IsAddressShape(s)
  {
    var d := s[i + 1..];
    assert d[j - i - 1] == '.';
    forall k | 0 <= k < |d| ensures IsEmailChar(d[k]) {
      if k < j - i - 1 {
        assert d[k] == s[i + 1..j][k];
      } else if k > j - i - 1 {
        assert d[k] == s[j + 1..][k - (j - i)];
      }
    }
  }

  /** An address with its inner dot at index k of the domain matches the
      regular expression. */
  lemma ShapeMakesRuns(s: string, i: int, k: int)
    requires 0 < i < |s| && s[i] == '@' && AllEmailChars(s[..i]) && AllEmailChars(s[i + 1..])
    requires 1 <= k < |s[i + 1..]| - 1 && s[i + 1..][k] == '.'
    ensures IsValidEmail(s)
  {
    var d := s[i + 1..];
    var j := i + 1 + k;
    assert s[j] == '.';
    var mid, tail := s[i + 1..j], s[j + 1..];
    forall m | 0 <= m < |mid| ensures IsEmailChar(mid[m]) {
      assert mid[m] == d[m];
    }
    forall m | 0 <= m < |tail| ensures IsEmailChar(tail[m]) {
      assert tail[m] == d[k + 1 + m];
    }
  }

  /** A string with a whitespace character anywhere is rejected. */
  lemma WhitespaceRejected(s: string, p: int)
    requires 0 <= p < |s| && IsWhitespace(s[p])
    ensures !IsValidEmail(s)
  {
    forall i, j | 0 < i < j < |s| && i + 1 < j && j + 1 < |s| && s[i] == '@' && s[j] == '.'
      ensures !(AllEmailChars(s[..i]) && AllEmailChars(s[i + 1..j]) && AllEmailChars(s[j + 1..]))
    {
      if p < i {
        assert s[..i][p] == s[p];
      } else if i < p < j {
        assert s[i + 1..j][p - i - 1] == s[p];
      } else if p > j {
        assert s[j + 1..][p - j - 1] == s[p];
      }
    }
  }

  /** A string with two '@' characters is rejected. */
  lemma TwoAtsRejected(s: string, p: int, q: int)
    requires 0 <= p < q < |s| && s[p] == '@' && s[q] == '@'
    ensures !IsValidEmail(s)
  {
    forall i, j | 0 < i < j < |s| && i + 1 < j && j + 1 < |s| && s[i] == '@' && s[j] == '.'
      ensures !(AllEmailChars(s[..i]) && AllEmailChars(s[i + 1..j]) && AllEmailChars(s[j + 1..]))
    {
      var x := if p != i then p else q;
      if x < i {
        assert s[..i][x] == s[x];
      } else if i < x < j {
        assert s[i + 1..j][x - i - 1] == s[x];
      } else {
        assert s[j + 1..][x - j - 1] == s[x];
      }
    }
  }

  lemma EmailExamples()
    ensures IsValidEmail("a@b.c")
    ensures !IsValidEmail("a@.com") && !IsValidEmail("a@com.") && !IsValidEmail("@b.c")
  {
    var s := "a@b.c";
    assert s[..1] == "a" && s[2..3] == "b" && s[4..] == "c";
    assert 0 < 1 < 3 < |s| && 1 + 1 < 3 && 3 + 1 < |s| && s[1] == '@' && s[3] == '.' &&
      AllEmailChars(s[..1]) && AllEmailChars(s[1 + 1..3]) && AllEmailChars(s[3 + 1..]);
  }

  /** (\d){n} on the whole of s. */
  predicate DigitRun(s: string, n: nat)
  {
    if n == 0 then s == [] else |s| > 0 && IsDigit(s[0]) && DigitRun(s[1..], n - 1)
  }

  /** The regular expression /^0\d{9}$/. */
  predicate IsValidPhoneNumber(s: string)
  {
    |s| > 0 && s[0] == '0' && DigitRun(s[1..], 9)
  }

  lemma {:induction false} DigitRunIff(s: string, n: nat)
    ensures DigitRun(s, n) <==> |s| == n && AllDigits(s)
  {
    if n > 0 && |s| > 0 {
      DigitRunIff(s[1..], n - 1);
      if |s| == n && AllDigits(s) {
        assert AllDigits(s[1..]) by {
          forall k | 0 <= k < |s[1..]| ensures IsDigit(s[1..][k]) { assert s[1..][k] == s[k + 1]; }
        }
      }
      if DigitRun(s, n) {
        forall k | 0 <= k < |s| ensures IsDigit(s[k]) {
          if k > 0 { assert s[k] == s[1..][k - 1]; }
        }
      }
    }
  }

  /** A valid phone number is exactly ten decimal digits starting with '0'. */
  lemma PhoneShape(s: string)
    ensures IsValidPhoneNumber(s) <==> |s| == 10 && s[0] == '0' && AllDigits(s)
  {
    if |s| > 0 {
      DigitRunIff(s[1..], 9);
      if |s| == 10 && s[0] == '0' && AllDigits(s) {
        assert AllDigits(s[1..]) by {
          forall k | 0 <= k < |s[1..]| ensures IsDigit(s[1..][k]) { assert s[1..][k] == s[k + 1]; }
        }
      }
      if IsValidPhoneNumber(s) {
        forall k | 0 <= k < |s| ensures IsDigit(s[k]) {
          if k > 0 { assert s[k] == s[1..][k - 1]; }
        }
      }
    }
  }
}
