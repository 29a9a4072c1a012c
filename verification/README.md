# HireFlow candidate portal: a Dafny model of the intake form

The candidate portal is a single client-side form. A job applicant enters a
name, picks a country and types a phone number, gives an email address and
attaches a résumé. The form then posts these as multipart data to a webhook.
This project models the form's controller in `app/page.tsx` as an immutable
state record with one pure transition per event handler. It proves the rules
the handlers enforce.

- `optional.dfy`: module `Optional`, the `Option` datatype for absent values.
- `countries.dfy`: module `Countries`. It holds the eight-row country table
  (dialling code, caption, required digit count, placeholder) and the lookup
  of the active country. The lookup returns the first row with the selected
  code, or else the first row of the table.
- `validators.dfy`: module `Validators`. It holds the phone keystroke filter
  for the pattern `^[0-9\b]+$`, the résumé check (MIME type, then the size
  limit for that kind of file), and the error kinds with their display text.
- `form.dfy`: module `Form`. It holds the `FormState` record and the
  handlers: phone input, country change, file validation, file input, drag,
  drop. It also holds the submit pipeline: ordered validation, the multipart
  body and its decoder, and the handling of the response. Finally it holds
  the form as an event machine, with an invariant proved for every state
  reachable from a fresh form.
- `scenarios.dfy`: module `Scenarios`, with concrete runs. One is a complete
  US/Canada application whose request returns either 200 or 500. One is a
  switch from India to Australia. The last is a set of keystrokes the phone
  filter drops or keeps.

The submit handler is asynchronous. Other handlers stay live while its request
is in flight. The model therefore splits it into two halves:

- `BeginSubmit` validates the form, builds the body and raises `loading`.
- `FinishSubmit` consumes the `Response`, which is an HTTP status or a thrown
  error.

`Submit` composes the two halves for the case where nothing happens in
between. In the event machine, `Step` handles the guards:

- A click while `loading` is ignored, because the button is `disabled={loading}`
  (`app/page.tsx:351`).
- A response arrives only while a request is in flight.
- Once `isSubmitted` holds, the confirmation view replaces the form
  (`app/page.tsx:174`), so no further event changes the state.

The email check is a parameter, `validEmail: string -> bool`. It stands for
`validateEmail`, which is the pattern test applied to the lower-cased address.

In two places the form's own text promises less than its code does. The
model follows the code:

- The comment above the phone check says "numbers only"
  (`app/page.tsx:48`). But the pattern `[0-9\b]` (`app/page.tsx:50`) also
  admits U+0008, because inside a character class `\b` means backspace. The
  stored number therefore holds digits and backspaces.
- The upload label says "Resume ONLY (PDF/PNG/JPG)" (`app/page.tsx:297`). The
  format error names PDF, JPG and PNG (`app/page.tsx:63`). The file input's
  `accept` list names only PDF, JPEG and PNG (`app/page.tsx:310`). But
  `validateFile` passes every MIME type that starts with `image/`
  (`app/page.tsx:60`), and so does the model. An `accept` list only steers the
  browser's file picker; a dropped file bypasses it entirely.

## Model

| member | source | states |
|---|---|---|
| Countries.FindFrom | app/page.tsx:33 | the index found is the first row at or after the start whose code matches; no index exactly when no row from there on matches |
| Countries.ActiveCountry | app/page.tsx:32-34 | the active country is a table row: the first row with the selected code when one exists, otherwise the first row of the table |
| Countries.ConfigWellFormed | app/page.tsx:9-18 | dialling codes are unique, every required length is positive, and the first row is "+91" with 10 digits |
| Countries.ActiveCountryOfTableCode | app/page.tsx:32-34 | selecting any table code makes exactly that row active (this relies on unique codes) |
| Countries.ActiveCountryLengthPositive | app/page.tsx:9-18 | whatever code is selected, the active country requires at least one digit |
| Validators.ScanPhoneChars | app/page.tsx:50 | the scan succeeds exactly when every character from the start index on is a digit or U+0008 |
| Validators.MatchesPhonePattern | app/page.tsx:50 | `^[0-9\b]+$` matches exactly the non-empty strings made of ASCII digits and U+0008 |
| Validators.PhoneInputAccepted | app/page.tsx:48-50 | a typed value is stored exactly when it is empty, or when it consists of digits and U+0008 and is no longer than the country's length |
| Validators.CheckFile | app/page.tsx:55-77 | the file is accepted exactly when it is a PDF of at most 5,000,000 bytes or an `image/*` of at most 1,000,000 bytes; a non-PDF non-image gives the format error; an oversize file gives the size error of its kind, carrying its size |
| Validators.PdfIsNotImage | app/page.tsx:59-60 | no MIME type is both "application/pdf" and an `image/` type, so the two size checks never compete |
| Validators.SizeLimitsInclusive | app/page.tsx:56-77 | a file exactly at its kind's limit is accepted, and one byte more is refused with that kind's size error |
| Validators.NatToDecimal | app/page.tsx:124 | the digit count in the length message is a non-empty string of decimal digits without a leading zero |
| Validators.DecimalRoundTrip | app/page.tsx:124 | reading the rendered digit count back gives the original number |
| Validators.ErrorText | app/page.tsx:63-152 | the empty message corresponds exactly to "no error"; every error except the two size errors has a fixed text |
| Form.HandlePhoneInput | app/page.tsx:45-53 | an admissible keystroke replaces the phone and changes nothing else; any other keystroke leaves the whole state unchanged |
| Form.SelectCountry | app/page.tsx:250-253 | a country change stores the code, clears the phone and changes nothing else, so the phone fits the new country |
| Form.ValidateFile | app/page.tsx:55-82 | returns true exactly for an acceptable file; then the error is cleared and the file is replaced. On refusal only the error changes (format error, or the size error of the file's kind) and the previous file stays |
| Form.HandleFileChange | app/page.tsx:84-89 | an empty file list changes nothing. An acceptable first file is stored and the error cleared, with nothing else changed. A refused first file sets the file check's error, with nothing else changed |
| Form.HandleDrag | app/page.tsx:91-99 | drag enter and drag over raise the drag flag, drag leave lowers it, and nothing else changes |
| Form.HandleDrop | app/page.tsx:101-108 | a drop always lowers the drag flag. An acceptable first dropped file is then stored and the error cleared. A refused one sets the file check's error. Nothing else changes |
| Form.ValidateSubmission | app/page.tsx:111-126 | checks run in order: any missing field gives the missing-fields error; else a rejected email gives the email error; else a wrong phone length gives the length error naming the country's length and caption; otherwise there is no error |
| Form.BuildPayload | app/page.tsx:131-136 | the body has exactly four entries, keyed name, phone, email and resume, in that order |
| Form.PayloadRoundTrip | app/page.tsx:131-136 | decoding a built body (the phone entry is split at its last space) gives back the application, when the number holds no space |
| Form.BeginSubmit | app/page.tsx:110-141 | a body is produced exactly when all three checks pass; on failure only the error changes: it becomes the error of the first failing check, and `loading` is not raised; on success the error is cleared, `loading` is raised, and the phone entry is code, space and number |
| Form.FinishSubmit | app/page.tsx:143-155 | loading ends and the entered values are kept; a 2xx response marks the form submitted, anything else sets the busy message |
| Form.Submit | app/page.tsx:110-156 | for a whole submission, the form ends submitted exactly when validation passes and the response is 2xx; the entered values never change; a failed request leaves the busy message |
| Form.Step | app/page.tsx:110-156 | a form becomes submitted only on a 2xx response to the request in flight. Loading starts only on a submit click whose checks all pass, and ends only on a response. Clicks, responses and drags never change the entered values, and typing never changes the file. Once submitted, no event changes the state |
| Form.InitialInv | app/page.tsx:21-29 | a fresh form satisfies the invariant |
| Form.PhoneHandlersPreserveInv | app/page.tsx:45-53 | phone keystrokes and country changes keep the phone within the active country's length and made only of digits and U+0008 |
| Form.FileHandlersPreserveInv | app/page.tsx:84-108 | file input, drag and drop keep the invariant; in particular, a kept file always passed the file check |
| Form.SubmitHandlersPreserveInv | app/page.tsx:110-156 | both halves of a submission keep the invariant while the form is shown |
| Form.StepPreservesInv | app/page.tsx:45-156 | every event handler keeps the invariant |
| Form.RunPreservesInv | app/page.tsx:20-34 | every state reachable from a fresh form satisfies the invariant |
| Form.SentPayloadIsValid | app/page.tsx:113-136 | a body is sent only for a complete form. Its number has exactly the active country's length and holds only digits and U+0008, its file passed the file check, and the body decodes to the form's values |
| Form.DragFlagFollowsLastSignal | app/page.tsx:91-108 | while the form is shown, the drag flag equals the latest drag or drop signal, and no other event moves it |
| Form.SubmittedIsFinal | app/page.tsx:174-200 | a submitted form stays exactly as it is under any sequence of events |
| Scenarios.FillingInTheForm | app/page.tsx:111-126 | filling in Jane Doe, +1, 2015550123, an email and a 500,000-byte PNG yields a form that passes every submit check |
| Scenarios.SubmittingTheForm | app/page.tsx:128-141 | pressing submit on that form sends the phone entry "+1 2015550123" and leaves the request in flight |
| Scenarios.AnsweringTheRequest | app/page.tsx:143-155 | for that request, a 200 response marks the form submitted; a 500 response sets the busy message and keeps every value |
| Scenarios.SwitchingCountryClearsPhone | app/page.tsx:250-253 | switching from India (10 digits) to Australia (9 digits) clears the ten digits already typed |
| Scenarios.PhoneFilterExamples | app/page.tsx:50 | an eleventh digit and a letter are dropped, and a backspace character is kept |

## Left out

- Validators.ErrorText: does not give the text of the two size errors. That text shows the size in megabytes via `toFixed(2)` of a floating-point quotient (`app/page.tsx:68`, `app/page.tsx:74`). The model carries the byte size in the error kind instead.
- The email regular expression (`app/page.tsx:36-42`) is a parameter, `validEmail`, not a definition. Lower-casing is folded into it too.
- The network request (`app/page.tsx:138-141`) is not performed. Its result enters as a `Response` value: an HTTP status, or a thrown error. Any status outside 200..299, and any thrown error, count as failure.
- The confetti animation (`app/page.tsx:158-172`) uses timers, the clock, randomness and floating point. It does not touch form state.
- The "Submit Another" page reload (`app/page.tsx:192`) is a browser side effect and is not modelled. A reload would restart from `Initial`.
- JSX rendering and styling (`app/page.tsx:174-366`) are presentation. The exceptions are the guards `Step` models: the disabled submit button, and the confirmation view replacing the form.
- `components/ui/spline.tsx` is a lazy-loading wrapper around a third-party 3D renderer and has no logic of its own.
- String lengths are counted in Unicode scalar values, while the browser counts UTF-16 code units. The two agree on every value the phone filter accepts, since accepted values are ASCII digits and U+0008 only.
- The file's bytes are not modelled: a `File` is its name, MIME type and size. The body carries the file as a whole.
- The handlers call `console.error(err)` (`app/page.tsx:151`), `preventDefault` and `stopPropagation` (`app/page.tsx:92-93`, `app/page.tsx:102-103`). They change nothing in the form's state and are not modelled.
- The name and email handlers store the typed value unchanged. They appear only as events of `Step`.
