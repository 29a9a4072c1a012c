/** The field validators of the intake form (app/page.tsx): the phone
    keystroke filter, the resume file check, and the error messages the form
    displays. */
module Validators {
  import opened Optional

  // ---------------------------------------------------------------------
  // Phone keystroke filter
  // ---------------------------------------------------------------------

  /** U+0008. Inside a regular-expression character class `\b` denotes this
      character, so the phone pattern `[0-9\b]` admits it beside the digits. */
  const Backspace: char := '\U{8}'

  /** A character the phone pattern's class admits: an ASCII digit or backspace. */
  predicate IsPhoneChar(ch: char) {
    ('0' <= ch <= '9') || ch == Backspace
  }

  /** Every character of `value` is admitted by the class. */
  ghost predicate AllPhoneChars(value: string) {
    forall i | 0 <= i < |value| :: IsPhoneChar(value[i])
  }

  /** Scans `value` from index `from` to its end for characters outside the class. */
  function ScanPhoneChars(value: string, from: nat): (b: bool)
    requires from <= |value|
    ensures b <==> forall i | from <= i < |value| :: IsPhoneChar(value[i])
    decreases |value| - from
  {
    from == |value| || (IsPhoneChar(value[from]) && ScanPhoneChars(value, from + 1))
  }

  /** The anchored pattern `^[0-9\b]+$`: one or more admitted characters and
      nothing else. */
  function MatchesPhonePattern(value: string): (b: bool)
    ensures b <==> |value| > 0 && AllPhoneChars(value)
  {
    |value| > 0 && ScanPhoneChars(value, 0)
  }

  /** The value a phone keystroke may leave in the field when the active
      country allows `maxLength` digits: the empty string, or a non-empty run
      of digits and backspaces no longer than `maxLength`. */
  ghost predicate AdmissiblePhone(value: string, maxLength: nat) {
    value == "" || (AllPhoneChars(value) && |value| <= maxLength)
  }

  /** Whether the phone input handler stores the new field value. */
  function PhoneInputAccepted(value: string, maxLength: nat): (b: bool)
    ensures b <==> AdmissiblePhone(value, maxLength)
    ensures b ==> |value| <= maxLength
  {
    value == "" || (MatchesPhonePattern(value) && |value| <= maxLength)
  }

  // ---------------------------------------------------------------------
  // Resume file check
  // ---------------------------------------------------------------------

  /** A selected or dropped file: its name, MIME type and size in bytes. */
  datatype File = File(name: string, mimeType: string, size: nat)

  const MaxPdfSize: nat := 5000000
  const MaxImageSize: nat := 1000000
  const PdfType: string := "application/pdf"
  const ImagePrefix: string := "image/"

  predicate IsPdf(f: File) {
    f.mimeType == PdfType
  }

  predicate IsImage(f: File) {
    ImagePrefix <= f.mimeType
  }

  /** A file the form keeps: a PDF of at most 5,000,000 bytes or an image of
      at most 1,000,000 bytes. */
  ghost predicate AcceptableFile(f: File) {
    (IsPdf(f) && f.size <= MaxPdfSize) || (IsImage(f) && f.size <= MaxImageSize)
  }

  // ---------------------------------------------------------------------
  // Error messages
  // ---------------------------------------------------------------------

  /** The message the form displays, by kind. `NoError` is the empty message. */
  datatype FormError =
    | NoError
    | InvalidFormat
    | PdfTooLarge(size: nat)
    | ImageTooLarge(size: nat)
    | MissingFields
    | InvalidEmail
    | PhoneLength(digits: nat, caption: string)
    | SystemBusy

  /** The file check, applied in the order the handler applies it: format
      first, then the size limit of the file's kind. */
  function CheckFile(f: File): (e: FormError)
    ensures e == NoError <==> AcceptableFile(f)
    ensures e == InvalidFormat <==> !IsPdf(f) && !IsImage(f)
    ensures e.PdfTooLarge? <==> IsPdf(f) && f.size > MaxPdfSize
    ensures e.ImageTooLarge? <==> IsImage(f) && f.size > MaxImageSize
    ensures e.PdfTooLarge? || e.ImageTooLarge? ==> e.size == f.size
    ensures e in {NoError, InvalidFormat, PdfTooLarge(f.size), ImageTooLarge(f.size)}
  {
    PdfIsNotImage(f);
    if !IsPdf(f) && !IsImage(f) then InvalidFormat
    else if IsPdf(f) && f.size > MaxPdfSize then PdfTooLarge(f.size)
    else if IsImage(f) && f.size > MaxImageSize then ImageTooLarge(f.size)
    else NoError
  }

  /** A MIME type is never both the PDF type and an image type. */
  lemma PdfIsNotImage(f: File)
    ensures !(IsPdf(f) && IsImage(f))
  {
    if IsPdf(f) {
      assert f.mimeType[0] != ImagePrefix[0];
    }
  }

  /** The size limits are inclusive: a file exactly at its kind's limit is
      kept, one byte more is refused. */
  lemma SizeLimitsInclusive(name: string, imageType: string)
    requires ImagePrefix <= imageType
    ensures CheckFile(File(name, PdfType, MaxPdfSize)) == NoError
    ensures CheckFile(File(name, PdfType, MaxPdfSize + 1)) == PdfTooLarge(5000001)
    ensures CheckFile(File(name, imageType, MaxImageSize)) == NoError
    ensures CheckFile(File(name, imageType, MaxImageSize + 1)) == ImageTooLarge(1000001)
  {
  }

  /** Decimal digits of `n`, as a template literal renders a whole number. */
  function NatToDecimal(n: nat): (s: string)
    ensures |s| > 0
    ensures forall i | 0 <= i < |s| :: '0' <= s[i] <= '9'
    ensures |s| > 1 ==> s[0] != '0'
    decreases n
  {
    var d := [('0' as int + n % 10) as char];
    if n < 10 then d else NatToDecimal(n / 10) + d
  }

  /** The value of a string of decimal digits. */
  function DecimalValue(s: string): nat
    requires forall i | 0 <= i < |s| :: '0' <= s[i] <= '9'
    decreases |s|
  {
    if |s| == 0 then 0
    else 10 * DecimalValue(s[..|s| - 1]) + (s[|s| - 1] as int - '0' as int)
  }

  /** Rendering a number in decimal loses nothing. */
  lemma {:induction false} DecimalRoundTrip(n: nat)
    ensures DecimalValue(NatToDecimal(n)) == n
    decreases n
  {
    var s := NatToDecimal(n);
    if n >= 10 {
      var p := NatToDecimal(n / 10);
      DecimalRoundTrip(n / 10);
      assert s[..|s| - 1] == p;
    }
  }

  /** The displayed text of an error, or None for the two size errors, whose
      text embeds the size in megabytes formatted from a floating-point
      quotient. */
  function ErrorText(e: FormError): (t: Option<string>)
    ensures t.None? <==> e.PdfTooLarge? || e.ImageTooLarge?
    ensures t == Some("") <==> e == NoError
  {
    match e
    case NoError => Some("")
    case InvalidFormat => Some("Invalid format! Please upload a PDF or an Image (JPG/PNG).")
    case PdfTooLarge(_) => None
    case ImageTooLarge(_) => None
    case MissingFields => Some("Please fill in all fields.")
    case InvalidEmail => Some("Please enter a valid email address.")
    case PhoneLength(digits, caption) =>
      Some("Please enter a valid " + NatToDecimal(digits) + "-digit number for " + caption)
    case SystemBusy => Some("System busy. Make sure n8n is active.")
  }
}
