/** Concrete runs of the form that exercise the rules end to end. */
module Scenarios {
  import opened Optional
  import opened Countries
  import opened Validators
  import opened Form

  /** The résumé of the end-to-end run: a 500,000-byte PNG. */
  const Png: File := File("resume.png", "image/png", 500000)

  /** The form once Jane Doe has filled in every field for the US/Canada rule. */
  const Filled: FormState :=
    FormState("Jane Doe", "+1", "2015550123", "jane@example.com", Some(Png), false, false, NoError, false)

  /** Typing the name, choosing +1, typing ten digits, typing the address and
      choosing the PNG leads from a fresh form to `Filled`, and `Filled` passes
      every submit-time check. */
  lemma FillingInTheForm(validEmail: string -> bool)
    requires validEmail("jane@example.com")
    ensures
      var s1 := Step(Initial, NameChanged("Jane Doe"), validEmail);
      var s2 := Step(s1, CountrySelected("+1"), validEmail);
      var s3 := Step(s2, PhoneTyped("2015550123"), validEmail);
      var s4 := Step(s3, EmailChanged("jane@example.com"), validEmail);
      Step(s4, FilesChosen([Png]), validEmail) == Filled
    ensures ValidateSubmission(Filled, validEmail) == NoError
  {
  }

  /** Pressing submit on `Filled` sends one body whose phone entry is
      "+1 2015550123" and leaves the request in flight. */
  lemma SubmittingTheForm(validEmail: string -> bool)
    requires validEmail("jane@example.com")
    ensures
      var sent := BeginSubmit(Filled, validEmail);
      && sent.1.Some?
      && sent.1.value[1] == Field("phone", TextPart("+1 2015550123"))
      && Step(Filled, SubmitClicked, validEmail) == Filled.(loading := true)
  {
    FillingInTheForm(validEmail);
    var sent := BeginSubmit(Filled, validEmail);
    assert sent == (Filled.(loading := true), Some(BuildPayload(ApplicationOf(Filled))));
    assert "+1" + " " + "2015550123" == "+1 2015550123";
    assert Step(Filled, SubmitClicked, validEmail) == sent.0;
  }

  /** With the request for `Filled` in flight, a 200 response marks the form
      submitted; a 500 response shows the busy message and keeps every
      entered value. */
  lemma AnsweringTheRequest(validEmail: string -> bool)
    ensures
      var waiting := Filled.(loading := true);
      var done := Step(waiting, ResponseArrived(HttpResponse(200)), validEmail);
      var failed := Step(waiting, ResponseArrived(HttpResponse(500)), validEmail);
      && done.isSubmitted && !done.loading
      && !failed.isSubmitted && !failed.loading && failed.error == SystemBusy
      && SameFields(Filled, failed)
  {
  }

  /** Switching from India (+91, ten digits) to Australia (+61, nine digits)
      clears the digits already entered. */
  lemma SwitchingCountryClearsPhone(validEmail: string -> bool)
    ensures
      var typed := Step(Initial, PhoneTyped("9876543210"), validEmail);
      var t := Step(typed, CountrySelected("+61"), validEmail);
      && typed.phone == "9876543210"
      && t.phone == "" && MaxDigits(t) == 9
  {
    ActiveCountryOfTableCode(0);
    assert MaxDigits(Initial) == 10;
    assert AdmissiblePhone("9876543210", 10);
    var typed := Step(Initial, PhoneTyped("9876543210"), validEmail);
    assert typed == HandlePhoneInput(Initial, "9876543210");
    assert typed == Initial.(phone := "9876543210");
    var t := Step(typed, CountrySelected("+61"), validEmail);
    assert t == SelectCountry(typed, "+61");
    ActiveCountryOfTableCode(3);
    assert Config[3].code == "+61";
    assert MaxDigits(t) == Config[3].maxLength;
  }

  /** A keystroke that would make the number longer than the country allows,
      or that adds a letter, is dropped; a backspace character is kept. */
  lemma PhoneFilterExamples()
    ensures HandlePhoneInput(Initial.(phone := "987654321"), "98765432109").phone == "987654321"
    ensures HandlePhoneInput(Initial, "98a").phone == ""
    ensures HandlePhoneInput(Initial, ['9', Backspace]).phone == ['9', Backspace]
  {
  }
}
