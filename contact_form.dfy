/** `ContactForm.clean_phone` (school_management/forms.py): the phone field
    must be present and exactly fifteen characters long. */
module ContactForm {
  import opened Basics

  const PhoneRequired := "Phone number is required."

  function InvalidPhone(phone: string): string
  {
    "Please enter a valid phone number: " + phone
  }

  /** `phone` is `cleaned_data.get("phone")`; an error is the message of the
      `ValidationError` raised. */
  function CleanPhone(phone: Option<string>): (r: Result<string>)
    ensures phone.None? ==> r == Err(PhoneRequired)
    ensures phone.Some? && |phone.value| != 15 ==> r == Err(InvalidPhone(phone.value))
    ensures r.Ok? <==> phone.Some? && |phone.value| == 15
    ensures r.Ok? ==> r.value == phone.value
  {
    match phone
    case None => Err(PhoneRequired)
    case Some(p) => if |p| != 15 then Err(InvalidPhone(p)) else Ok(p)
  }
}
