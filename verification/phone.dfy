/** Phone canonicalisation (`formatPhoneNumber`): keep the digits, drop a
    leading US country code `1` from an eleven-digit number, prefix `+1`. */
module PhoneFormat {
  import opened Text

  /** `phone.replace(/\D/g, '')`: the input's digits, in order. */
  function StripNonDigits(s: string): (r: string)
    ensures AllDigits(r) && |r| <= |s|
  {
    if s == [] then [] else (if IsDigit(s[0]) then [s[0]] else []) + StripNonDigits(s[1..])
  }

  /** The eleven-digit case in which the leading `1` is taken for the country code. */
  predicate HasCountryCode(digits: string) {
    |digits| == 11 && digits[0] == '1'
  }

  function FormatPhoneNumber(phone: string): (r: string)
    ensures |r| >= 2 && r[..2] == "+1"
    ensures AllDigits(r[2..])
    ensures var d := StripNonDigits(phone);
            |r| == |d| + 2 - (if HasCountryCode(d) then 1 else 0)
    ensures var d := StripNonDigits(phone);
            d == (if HasCountryCode(d) then "1" else "") + r[2..]
  {
    var digits := StripNonDigits(phone);
    var cleaned := if HasCountryCode(digits) then digits[1..] else digits;
    var r := "+1" + cleaned;
    assert r[2..] == cleaned;
    r
  }

  // ---------------------------------------------------------------------------
  // Properties of the digit filter

  lemma {:induction false} StripAppend(a: string, b: string)
    ensures StripNonDigits(a + b) == StripNonDigits(a) + StripNonDigits(b)
    decreases |a|
  {
    if a == [] {
      assert a + b == b;
    } else {
      StripAppend(a[1..], b);
      var head := if IsDigit(a[0]) then [a[0]] else [];
      assert (a + b)[1..] == a[1..] + b;
      assert (a + b)[0] == a[0];
      assert StripNonDigits(a + b) == head + StripNonDigits(a[1..] + b);
      assert StripNonDigits(a) == head + StripNonDigits(a[1..]);
    }
  }

  lemma {:induction false} StripDigitsOnly(s: string)
    requires AllDigits(s)
    ensures StripNonDigits(s) == s
    decreases |s|
  {
    if s != [] {
      StripDigitsOnly(s[1..]);
    }
  }

  lemma {:induction false} StripNoDigits(s: string)
    requires NoDigits(s)
    ensures StripNonDigits(s) == []
    decreases |s|
  {
    if s != [] {
      StripNoDigits(s[1..]);
    }
  }

  /** Inserting (or, read backwards, removing) a run of non-digit characters
      anywhere in the input does not change the canonical form. */
  lemma InsertNonDigits(a: string, junk: string, b: string)
    requires NoDigits(junk)
    ensures FormatPhoneNumber(a + junk + b) == FormatPhoneNumber(a + b)
  {
    StripAppend(a + junk, b);
    StripAppend(a, junk);
    StripAppend(a, b);
    StripNoDigits(junk);
    assert StripNonDigits(a + junk) == StripNonDigits(a);
    assert StripNonDigits(a + junk + b) == StripNonDigits(a + b);
  }

  /** Formatting digits that are already behind `+1` reads the `+1`'s `1` as
      part of the number. */
  lemma StripCanonical(cleaned: string)
    requires AllDigits(cleaned)
    ensures StripNonDigits("+1" + cleaned) == "1" + cleaned
  {
    StripAppend("+1", cleaned);
    StripDigitsOnly(cleaned);
    assert StripNonDigits("+1") == "1" by {
      assert "+1"[1..] == "1";
      assert "1"[1..] == [];
    }
  }

  /** Formatting `+1` followed by digits keeps it when there are ten of
      them, and otherwise reads the `+1`'s `1` as a digit of the number. */
  lemma FormatCanonical(cleaned: string)
    requires AllDigits(cleaned)
    ensures FormatPhoneNumber("+1" + cleaned) == if |cleaned| == 10 then "+1" + cleaned else "+11" + cleaned
  {
    StripCanonical(cleaned);
    var d := "1" + cleaned;
    if |cleaned| == 10 {
      assert HasCountryCode(d);
      assert d[1..] == cleaned;
    } else {
      assert !HasCountryCode(d);
      assert "+1" + d == "+11" + cleaned;
    }
  }

  /** Formatting is idempotent exactly when ten digits follow the `+1`;
      otherwise a second pass prepends another `1`. */
  lemma FormatIdempotentIff(phone: string)
    ensures var p := FormatPhoneNumber(phone);
            FormatPhoneNumber(p) == p <==> |p| == 12
    ensures var p := FormatPhoneNumber(phone);
            |p| != 12 ==> FormatPhoneNumber(p) == "+11" + p[2..]
  {
    var p := FormatPhoneNumber(phone);
    var cleaned := p[2..];
    assert p == "+1" + cleaned;
    FormatCanonical(cleaned);
  }

  /** A number already in canonical form, `+1` and ten digits, is a fixed point. */
  lemma CanonicalIsFixedPoint(ten: string)
    requires |ten| == 10 && AllDigits(ten)
    ensures FormatPhoneNumber("+1" + ten) == "+1" + ten
  {
    FormatCanonical(ten);
  }
}
