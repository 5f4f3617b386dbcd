/** How the three phone checks fit together: what the browser formatter
    (static/js/scripts.js) produces, what the server pattern
    (school_management/utils/validators.py) accepts and what
    `ContactForm.clean_phone` (school_management/forms.py) lets through. */
module PhonePipeline {
  import opened Basics
  import PhoneFormat
  import PhoneValidator
  import ContactForm

  /** Every string the pattern accepts passes `clean_phone` unchanged. */
  lemma ValidatedPhonePassesCleanPhone(s: string)
    requires PhoneValidator.IsPhoneNumber(s)
    ensures ContactForm.CleanPhone(Some(s)) == Ok(s)
  {
    PhoneValidator.AcceptedLength(s);
  }

  /** The converse does not hold: `clean_phone` checks the length only. */
  lemma CleanPhoneWeakerThanPattern()
    ensures ContactForm.CleanPhone(Some("abcdefghijklmno")).Ok?
    ensures !PhoneValidator.IsPhoneNumber("abcdefghijklmno")
  {
    PhoneValidator.RejectsNonDigit("abcdefghijklmno", 1);
  }

  /** The digits `d` laid out as `(ddd) ddd-dd-dd` from its first ten have the
      shape the pattern describes. */
  lemma AssembledShape(d: string)
    requires |d| >= 10 && forall i :: 0 <= i < |d| ==> IsDigit(d[i])
    ensures PhoneValidator.PhoneShape("(" + d[0..3] + ") " + d[3..6] + "-" + d[6..8] + "-" + d[8..10])
  {
    var r := "(" + d[0..3] + ") " + d[3..6] + "-" + d[6..8] + "-" + d[8..10];
    forall i | 0 <= i < 15 && PhoneValidator.LiteralAt(i).None? ensures IsDigit(r[i]) {
      var k := if i < 4 then i - 1 else if i < 9 then i - 3 else if i < 12 then i - 4 else i - 5;
      assert r[i] == d[k];
    }
  }

  /** With ten or more digits typed, the formatted value matches the pattern. */
  lemma FullNumberMatchesPattern(v: string)
    requires |PhoneFormat.Digits(v)| >= PhoneFormat.MaxDigits
    ensures PhoneValidator.IsPhoneNumber(PhoneFormat.Format(v))
  {
    PhoneFormat.TenDigitShape(v);
    AssembledShape(PhoneFormat.Digits(v));
    PhoneValidator.PhoneNumberShape(PhoneFormat.Format(v));
  }

  /** With fewer than ten digits typed, the formatted value is too short. */
  lemma ShortNumberFailsPattern(v: string)
    requires |PhoneFormat.Digits(v)| < PhoneFormat.MaxDigits
    ensures !PhoneValidator.IsPhoneNumber(PhoneFormat.Format(v))
  {
    PhoneFormat.WorkingDigitsSpec(v);
    PhoneFormat.FormatLength(v);
    if PhoneValidator.IsPhoneNumber(PhoneFormat.Format(v)) {
      PhoneValidator.AcceptedLength(PhoneFormat.Format(v));
    }
  }

  /** The formatted field value is accepted by the server pattern exactly
      when the typed value held at least ten digits. */
  lemma FormattedMatchesPatternIff(v: string)
    ensures PhoneValidator.IsPhoneNumber(PhoneFormat.Format(v)) <==> |PhoneFormat.Digits(v)| >= PhoneFormat.MaxDigits
  {
    if |PhoneFormat.Digits(v)| >= PhoneFormat.MaxDigits {
      FullNumberMatchesPattern(v);
    } else {
      ShortNumberFailsPattern(v);
    }
  }

  /** A full ten-digit entry formats to a value `clean_phone` accepts. */
  lemma FormattedFullNumberAccepted(v: string)
    requires |PhoneFormat.Digits(v)| >= PhoneFormat.MaxDigits
    ensures ContactForm.CleanPhone(Some(PhoneFormat.Format(v))) == Ok(PhoneFormat.Format(v))
  {
    FormattedMatchesPatternIff(v);
    ValidatedPhonePassesCleanPhone(PhoneFormat.Format(v));
  }

  /** A shorter entry formats to a value `clean_phone` rejects. */
  lemma FormattedShortNumberRejected(v: string)
    requires |PhoneFormat.Digits(v)| < PhoneFormat.MaxDigits
    ensures ContactForm.CleanPhone(Some(PhoneFormat.Format(v))).Err?
  {
    PhoneFormat.FormatLength(v);
    PhoneFormat.WorkingDigitsSpec(v);
  }
}
