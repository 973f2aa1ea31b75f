/**
 * The Korean mobile-number check that the consultation form, the consultation
 * endpoint and the profile endpoint apply to the digits of a phone field:
 * `/^01[016789]\d{7,8}$/`.
 */
module MobilePhone {
  import opened JsText

  /** The third digit of a mobile prefix: 010, 011, 016, 017, 018 or 019. */
  predicate IsCarrierDigit(c: char) {
    c == '0' || c == '1' || c == '6' || c == '7' || c == '8' || c == '9'
  }

  /** `/^01[016789]\d{7,8}$/.test(d)`. */
  predicate IsMobileNumber(d: string) {
    (|d| == 10 || |d| == 11) && d[0] == '0' && d[1] == '1' && IsCarrierDigit(d[2]) && AllDigits(d[3..])
  }

  /** A mobile number is ten or eleven digits and nothing else, so taking its digits
      leaves it as it is. */
  lemma MobileNumberIsDigits(d: string)
    requires IsMobileNumber(d)
    ensures AllDigits(d) && 10 <= |d| <= 11
    ensures DigitsOf(d) == d
  {
    forall i | 0 <= i < |d|
      ensures IsDigit(d[i])
    {
      if i >= 3 {
        assert d[i] == d[3..][i - 3];
      }
    }
    DigitsOfAllDigits(d);
  }

  /** "01012345678" passes the check; a landline number does not. */
  lemma MobileNumberExamples()
    ensures IsMobileNumber("01012345678")
    ensures IsMobileNumber("0161234567")
    ensures !IsMobileNumber("0212345678")
    ensures !IsMobileNumber("010123456")
  {
    assert AllDigits("01012345678"[3..]) by {
      assert "01012345678"[3..] == "12345678";
    }
    assert AllDigits("0161234567"[3..]) by {
      assert "0161234567"[3..] == "1234567";
    }
  }
}
