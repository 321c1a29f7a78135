/** A reference reading of the chain-id format the handler demands: a
    0x-prefixed, unpadded, non-zero hexadecimal string. The library predicate
    itself is not part of this model; this definition states the format its
    error message describes, so that the handler can be instantiated with it. */
module ChainIdFormat {
  import opened JsValues

  predicate IsHexDigit(u: CodeUnit) {
    Unit('0') <= u <= Unit('9') || Unit('a') <= u <= Unit('f')
  }

  /** `0x` followed by one or more lower-case hex digits, the first of which is
      not `0`: no padding, and the value is not zero. */
  predicate IsPrefixedFormattedHex(s: JsString) {
    && |s| >= 3
    && s[0] == Unit('0') && s[1] == Unit('x')
    && s[2] != Unit('0')
    && forall i :: 2 <= i < |s| ==> IsHexDigit(s[i])
  }

  /** The predicate on JavaScript values: only strings can match. */
  predicate IsPrefixedFormattedHexValue(v: JsValue) {
    v.Str? && IsPrefixedFormattedHex(v.s)
  }

  /** The value of one hex digit. */
  function DigitValue(u: CodeUnit): (d: nat)
    requires IsHexDigit(u)
    ensures d < 16
    ensures d == 0 <==> u == Unit('0')
  {
    if u <= Unit('9') then (u - Unit('0')) as int else (u - Unit('a')) as int + 10
  }

  /** Reads the digits after the prefix as a number. */
  function HexValue(digits: JsString): nat
    requires forall i :: 0 <= i < |digits| ==> IsHexDigit(digits[i])
  {
    if digits == [] then 0
    else
      16 * HexValue(digits[..|digits| - 1]) + DigitValue(digits[|digits| - 1])
  }

  /** A well-formed chain id denotes a positive number: "non-zero" holds. */
  lemma {:induction false} FormattedHexIsNonZero(s: JsString)
    requires IsPrefixedFormattedHex(s)
    ensures HexValue(s[2..]) > 0
  {
    LeadingNonZeroDigitIsPositive(s[2..]);
  }

  lemma {:induction false} LeadingNonZeroDigitIsPositive(digits: JsString)
    requires |digits| >= 1 && digits[0] != Unit('0')
    requires forall i :: 0 <= i < |digits| ==> IsHexDigit(digits[i])
    ensures HexValue(digits) > 0
  {
    if |digits| > 1 {
      var init := digits[..|digits| - 1];
      assert init[0] == digits[0];
      LeadingNonZeroDigitIsPositive(init);
    }
  }

  /** A well-formed chain id is already lower case, so lower-casing keeps it. */
  lemma FormattedHexIsLowerCase(s: JsString)
    requires IsPrefixedFormattedHex(s)
    ensures Lower(s) == s
  {
  }

  /** The sample chain ids: "0x1" passes; padded, zero and unprefixed ids
      fail. */
  lemma SampleChainIds()
    ensures IsPrefixedFormattedHex(Encode("0x1"))
    ensures !IsPrefixedFormattedHex(Encode("0x01"))
    ensures !IsPrefixedFormattedHex(Encode("0x0"))
    ensures !IsPrefixedFormattedHex(Encode("1"))
  {
    assert IsPrefixedFormattedHex(Encode("0x1")) by {
      EncodeBmp("0x1");
    }
    assert !IsPrefixedFormattedHex(Encode("0x01")) by {
      EncodeBmp("0x01");
    }
    assert !IsPrefixedFormattedHex(Encode("0x0")) by {
      EncodeBmp("0x0");
    }
    assert !IsPrefixedFormattedHex(Encode("1")) by {
      EncodeBmp("1");
    }
  }

  /** Ids are judged after lower-casing: `0xA` lower-cases to `0xa`, which has
      the format; `0xG` lower-cases to `0xg`, which does not; `0x01` is
      unchanged by lower-casing and lacks the format. */
  lemma SampleChainIdsLowerCased()
    ensures Lower(Encode("0xA")) == Encode("0xa")
    ensures IsPrefixedFormattedHexValue(Str(Lower(Encode("0xA"))))
    ensures !IsPrefixedFormattedHexValue(Str(Lower(Encode("0xG"))))
    ensures Lower(Encode("0x01")) == Encode("0x01")
    ensures !IsPrefixedFormattedHexValue(Str(Lower(Encode("0x01"))))
  {
    UpperHexSample();
    NonHexSample();
    PaddedSample();
  }

  lemma UpperHexSample()
    ensures Lower(Encode("0xA")) == Encode("0xa")
    ensures IsPrefixedFormattedHex(Encode("0xa"))
  {
    EncodeBmp("0xA");
    EncodeBmp("0xa");
  }

  lemma NonHexSample()
    ensures !IsPrefixedFormattedHex(Lower(Encode("0xG")))
  {
    EncodeBmp("0xG");
    assert Lower(Encode("0xG"))[2] == Unit('g');
  }

  lemma PaddedSample()
    ensures Lower(Encode("0x01")) == Encode("0x01")
    ensures !IsPrefixedFormattedHex(Encode("0x01"))
  {
    EncodeBmp("0x01");
  }
}
