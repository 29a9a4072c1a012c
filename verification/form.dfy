/** The state of the candidate-intake form and one pure transition per event
    handler (app/page.tsx, CandidatePortal). The network request is not
    performed: its result enters as a `Response` value. */
module Form {
  import opened Optional
  import opened Countries
  import opened Validators

  /** Everything the form component keeps in its state hooks. */
  datatype FormState = FormState(
    name: string,
    countryCode: string,
    phone: string,
    email: string,
    file: Option<File>,
    isSubmitted: bool,
    loading: bool,
    error: FormError,
    dragActive: bool)

  /** The state of a freshly rendered form. */
  const Initial: FormState :=
    FormState("", DefaultCode, "", "", None, false, false, NoError, false)

  /** The number of digits the active country demands. */
  function MaxDigits(s: FormState): nat {
    ActiveCountry(s.countryCode).maxLength
  }

  /** The values the user entered are the same in both states. */
  ghost predicate SameFields(s: FormState, t: FormState) {
    && t.name == s.name
    && t.countryCode == s.countryCode
    && t.phone == s.phone
    && t.email == s.email
    && t.file == s.file
  }

  // ---------------------------------------------------------------------
  // Field handlers
  // ---------------------------------------------------------------------

  /** A keystroke in the phone field proposes `value`; it is stored only when
      admissible for the active country, and otherwise silently dropped. */
  function HandlePhoneInput(s: FormState, value: string): (s': FormState)
    ensures AdmissiblePhone(value, MaxDigits(s)) ==> s' == s.(phone := value)
    ensures !AdmissiblePhone(value, MaxDigits(s)) ==> s' == s
  {
    if PhoneInputAccepted(value, MaxDigits(s)) then s.(phone := value) else s
  }

  /** Choosing a country in the selector stores its code and clears the phone. */
  function SelectCountry(s: FormState, code: string): (s': FormState)
    ensures s' == s.(countryCode := code, phone := "")
    ensures |s'.phone| <= MaxDigits(s')
  {
    s.(countryCode := code, phone := "")
  }

  /** Checks a chosen file; returns the new state and whether it was kept.
      A refused file leaves the current file in place and only sets the error. */
  function ValidateFile(s: FormState, f: File): (r: (FormState, bool))
    ensures r.1 <==> AcceptableFile(f)
    ensures r.1 ==> r.0 == s.(error := NoError, file := Some(f))
    ensures !r.1 ==> r.0 == s.(error := r.0.error)
    ensures !IsPdf(f) && !IsImage(f) ==> r.0.error == InvalidFormat
    ensures IsPdf(f) && f.size > MaxPdfSize ==> r.0.error == PdfTooLarge(f.size)
    ensures IsImage(f) && f.size > MaxImageSize ==> r.0.error == ImageTooLarge(f.size)
  {
    var e := CheckFile(f);
    if e != NoError then (s.(error := e), false)
    else (s.(error := NoError, file := Some(f)), true)
  }

  /** The file input changed; `files` is its file list (empty when none). */
  function HandleFileChange(s: FormState, files: seq<File>): (s': FormState)
    ensures |files| == 0 ==> s' == s
    ensures |files| > 0 && AcceptableFile(files[0]) ==> s' == s.(file := Some(files[0]), error := NoError)
    ensures |files| > 0 && !AcceptableFile(files[0]) ==> s' == s.(error := CheckFile(files[0]))
    ensures s'.file == s.file || (s'.file == Some(files[0]) && AcceptableFile(files[0]))
  {
    if |files| > 0 then ValidateFile(s, files[0]).0 else s
  }

  /** The drag events the drop zone listens to with the drag handler. */
  datatype DragKind = DragEnter | DragOver | DragLeave

  /** Entering or moving over the drop zone raises the drag flag; leaving
      lowers it. */
  function HandleDrag(s: FormState, k: DragKind): (s': FormState)
    ensures s'.dragActive <==> k != DragLeave
    ensures s' == s.(dragActive := s'.dragActive)
  {
    match k
    case DragEnter => s.(dragActive := true)
    case DragOver => s.(dragActive := true)
    case DragLeave => s.(dragActive := false)
  }

  /** A drop always lowers the drag flag, then checks the first dropped file. */
  function HandleDrop(s: FormState, files: seq<File>): (s': FormState)
    ensures !s'.dragActive
    ensures |files| == 0 ==> s' == s.(dragActive := false)
    ensures |files| > 0 && AcceptableFile(files[0]) ==>
      s' == s.(dragActive := false, file := Some(files[0]), error := NoError)
    ensures |files| > 0 && !AcceptableFile(files[0]) ==>
      s' == s.(dragActive := false, error := CheckFile(files[0]))
    ensures s'.file == s.file || (s'.file == Some(files[0]) && AcceptableFile(files[0]))
  {
    var t := s.(dragActive := false);
    if |files| > 0 then ValidateFile(t, files[0]).0 else t
  }

  // ---------------------------------------------------------------------
  // Submission
  // ---------------------------------------------------------------------

  /** Name, phone and email are non-empty and a file is attached. */
  predicate Complete(s: FormState) {
    s.name != "" && s.phone != "" && s.email != "" && s.file.Some?
  }

  /** The submit-time checks, in order, stopping at the first failure.
      `validEmail` is the email pattern test applied to the lower-cased address. */
  function ValidateSubmission(s: FormState, validEmail: string -> bool): (e: FormError)
    ensures e == MissingFields <==> !Complete(s)
    ensures e == InvalidEmail <==> Complete(s) && !validEmail(s.email)
    ensures e.PhoneLength? <==> Complete(s) && validEmail(s.email) && |s.phone| != MaxDigits(s)
    ensures e.PhoneLength? ==> e == PhoneLength(MaxDigits(s), ActiveCountry(s.countryCode).caption)
    ensures e == NoError <==> Complete(s) && validEmail(s.email) && |s.phone| == MaxDigits(s)
  {
    if !Complete(s) then MissingFields
    else if !validEmail(s.email) then InvalidEmail
    else if |s.phone| != MaxDigits(s) then
      PhoneLength(MaxDigits(s), ActiveCountry(s.countryCode).caption)
    else NoError
  }

  /** A submitted application, as the backend receives it. */
  datatype Application = Application(
    name: string, countryCode: string, phone: string, email: string, resume: File)

  /** One entry of the multipart body: a text value or a file. */
  datatype Part = TextPart(text: string) | FilePart(file: File)
  datatype Field = Field(key: string, part: Part)

  /** The multipart body: name, phone as code and number joined by one space,
      email, and the resume file, in that order. */
  function BuildPayload(a: Application): (p: seq<Field>)
    ensures |p| == 4
    ensures p[0].key == "name" && p[1].key == "phone" && p[2].key == "email" && p[3].key == "resume"
  {
    [ Field("name", TextPart(a.name)),
      Field("phone", TextPart(a.countryCode + " " + a.phone)),
      Field("email", TextPart(a.email)),
      Field("resume", FilePart(a.resume)) ]
  }

  /** The last position below `upto` that holds `ch`. */
  function LastIndexBefore(t: string, ch: char, upto: nat): (r: Option<nat>)
    requires upto <= |t|
    ensures r.Some? ==> r.value < upto && t[r.value] == ch
    ensures r.Some? ==> forall j | r.value < j < upto :: t[j] != ch
    ensures r.None? <==> forall j | 0 <= j < upto :: t[j] != ch
    decreases upto
  {
    if upto == 0 then None
    else if t[upto - 1] == ch then Some(upto - 1)
    else LastIndexBefore(t, ch, upto - 1)
  }

  /** Reads an application back out of a multipart body, splitting the phone
      entry at its last space. */
  function DecodePayload(p: seq<Field>): Option<Application> {
    if |p| != 4 then None
    else if p[0].key != "name" || p[1].key != "phone" || p[2].key != "email" || p[3].key != "resume" then None
    else if !p[0].part.TextPart? || !p[1].part.TextPart? || !p[2].part.TextPart? || !p[3].part.FilePart? then None
    else
      var joined := p[1].part.text;
      match LastIndexBefore(joined, ' ', |joined|)
      case None => None
      case Some(k) =>
        Some(Application(p[0].part.text, joined[..k], joined[k + 1..], p[2].part.text, p[3].part.file))
  }

  /** A body built from an application whose number holds no space decodes
      to that application. */
  lemma PayloadRoundTrip(a: Application)
    requires forall i | 0 <= i < |a.phone| :: a.phone[i] != ' '
    ensures DecodePayload(BuildPayload(a)) == Some(a)
  {
    var joined := a.countryCode + " " + a.phone;
    var n := |a.countryCode|;
    assert joined[n] == ' ';
    assert forall j | n < j < |joined| :: joined[j] == a.phone[j - n - 1];
    var r := LastIndexBefore(joined, ' ', |joined|);
    assert r.Some?;
    assert r.value == n;
    assert joined[..n] == a.countryCode;
    assert joined[n + 1..] == a.phone;
  }

  /** The application a state would send. */
  function ApplicationOf(s: FormState): Application
    requires s.file.Some?
  {
    Application(s.name, s.countryCode, s.phone, s.email, s.file.value)
  }

  /** The result of the network request: an HTTP status, or a thrown error. */
  datatype Response = HttpResponse(status: int) | Threw

  /** The response counts as success: a status in 200..299. */
  predicate ResponseOk(r: Response) {
    r.HttpResponse? && 200 <= r.status <= 299
  }

  /** Pressing submit: clear the error, validate, and on success raise the
      loading flag and produce the body of the one request. On failure no
      body is produced and only the error changes. */
  function BeginSubmit(s: FormState, validEmail: string -> bool): (r: (FormState, Option<seq<Field>>))
    ensures r.1.Some? <==> Complete(s) && validEmail(s.email) && |s.phone| == MaxDigits(s)
    ensures r.1.None? ==> r.0 == s.(error := ValidateSubmission(s, validEmail)) && r.0.error != NoError
    ensures r.1.Some? ==> r.0 == s.(error := NoError, loading := true)
    ensures r.1.Some? ==>
      && s.file.Some? && |r.1.value| == 4
      && r.1.value[1] == Field("phone", TextPart(s.countryCode + " " + s.phone))
      && r.1.value[3] == Field("resume", FilePart(s.file.value))
  {
    var e := ValidateSubmission(s, validEmail);
    if e != NoError then (s.(error := e), None)
    else (s.(error := NoError, loading := true), Some(BuildPayload(ApplicationOf(s))))
  }

  /** The request settled: success marks the form submitted, anything else
      shows the generic busy message; either way loading ends. */
  function FinishSubmit(s: FormState, resp: Response): (s': FormState)
    ensures SameFields(s, s') && !s'.loading && s'.dragActive == s.dragActive
    ensures ResponseOk(resp) ==> s'.isSubmitted && s'.error == s.error
    ensures !ResponseOk(resp) ==> s'.isSubmitted == s.isSubmitted && s'.error == SystemBusy
  {
    if ResponseOk(resp) then s.(isSubmitted := true, loading := false)
    else s.(error := SystemBusy, loading := false)
  }

  /** A whole submission with nothing else happening while the request is in
      flight; returns the final state and the body sent, if any. */
  function Submit(s: FormState, validEmail: string -> bool, resp: Response): (r: (FormState, Option<seq<Field>>))
    requires !s.isSubmitted && !s.loading
    ensures SameFields(s, r.0) && !r.0.loading
    ensures r.1.Some? <==> Complete(s) && validEmail(s.email) && |s.phone| == MaxDigits(s)
    ensures r.1.None? ==> r.0 == s.(error := ValidateSubmission(s, validEmail))
    ensures r.0.isSubmitted <==> r.1.Some? && ResponseOk(resp)
    ensures r.1.Some? && !ResponseOk(resp) ==> r.0.error == SystemBusy
    ensures r.1.Some? && ResponseOk(resp) ==> r.0.error == NoError
  {
    var (t, body) := BeginSubmit(s, validEmail);
    if body.None? then (t, body) else (FinishSubmit(t, resp), body)
  }

  // ---------------------------------------------------------------------
  // The form as an event machine
  // ---------------------------------------------------------------------

  /** The user and network events the form reacts to. */
  datatype Event =
    | NameChanged(value: string)
    | CountrySelected(code: string)
    | PhoneTyped(value: string)
    | EmailChanged(value: string)
    | FilesChosen(files: seq<File>)
    | Dragged(kind: DragKind)
    | Dropped(files: seq<File>)
    | SubmitClicked
    | ResponseArrived(resp: Response)

  /** One event. Once submitted, the form is replaced by the confirmation view
      and reacts to nothing; the submit button is disabled while loading; a
      response arrives only for the request in flight. */
  function Step(s: FormState, e: Event, validEmail: string -> bool): (s': FormState)
    ensures s.isSubmitted ==> s' == s
    ensures s'.isSubmitted && !s.isSubmitted ==> e.ResponseArrived? && s.loading && ResponseOk(e.resp)
    ensures s'.loading && !s.loading ==> e.SubmitClicked? && ValidateSubmission(s, validEmail) == NoError
    ensures !s'.loading && s.loading ==> e.ResponseArrived?
    ensures e.SubmitClicked? || e.ResponseArrived? || e.Dragged? ==> SameFields(s, s')
    ensures e.NameChanged? || e.EmailChanged? || e.PhoneTyped? || e.CountrySelected? ==> s'.file == s.file
  {
    if s.isSubmitted then s
    else match e
      case NameChanged(v) => s.(name := v)
      case CountrySelected(c) => SelectCountry(s, c)
      case PhoneTyped(v) => HandlePhoneInput(s, v)
      case EmailChanged(v) => s.(email := v)
      case FilesChosen(fs) => HandleFileChange(s, fs)
      case Dragged(k) => HandleDrag(s, k)
      case Dropped(fs) => HandleDrop(s, fs)
      case SubmitClicked => if s.loading then s else BeginSubmit(s, validEmail).0
      case ResponseArrived(r) => if s.loading then FinishSubmit(s, r) else s
  }

  /** The state after the events `evs`, in order, starting from `s`. */
  function Run(s: FormState, evs: seq<Event>, validEmail: string -> bool): FormState
    decreases |evs|
  {
    if |evs| == 0 then s
    else Step(Run(s, evs[..|evs| - 1], validEmail), evs[|evs| - 1], validEmail)
  }

  /** What every reachable state satisfies: the phone fits the active country
      and holds only digits and backspaces, a kept file passed the file check,
      and a submitted form has no request in flight. */
  ghost predicate Inv(s: FormState) {
    && |s.phone| <= MaxDigits(s)
    && AllPhoneChars(s.phone)
    && (s.file.Some? ==> AcceptableFile(s.file.value))
    && (s.isSubmitted ==> !s.loading)
  }

  lemma InitialInv()
    ensures Inv(Initial)
  {
  }

  /** The invariant survives a phone keystroke and a country change. */
  lemma PhoneHandlersPreserveInv(s: FormState, value: string, code: string)
    requires Inv(s)
    ensures Inv(HandlePhoneInput(s, value))
    ensures Inv(SelectCountry(s, code))
  {
  }

  /** The invariant survives choosing or dropping files and dragging. */
  lemma FileHandlersPreserveInv(s: FormState, files: seq<File>, k: DragKind)
    requires Inv(s)
    ensures Inv(HandleFileChange(s, files))
    ensures Inv(HandleDrop(s, files))
    ensures Inv(HandleDrag(s, k))
  {
  }

  /** The invariant survives both halves of a submission while the form is
      shown. */
  lemma SubmitHandlersPreserveInv(s: FormState, validEmail: string -> bool, resp: Response)
    requires Inv(s) && !s.isSubmitted
    ensures Inv(BeginSubmit(s, validEmail).0)
    ensures Inv(FinishSubmit(s, resp))
  {
  }

  /** Every handler preserves the invariant. */
  lemma StepPreservesInv(s: FormState, e: Event, validEmail: string -> bool)
    requires Inv(s)
    ensures Inv(Step(s, e, validEmail))
  {
    if !s.isSubmitted {
      match e
      case PhoneTyped(v) => PhoneHandlersPreserveInv(s, v, s.countryCode);
      case CountrySelected(c) => PhoneHandlersPreserveInv(s, s.phone, c);
      case FilesChosen(fs) => FileHandlersPreserveInv(s, fs, DragLeave);
      case Dropped(fs) => FileHandlersPreserveInv(s, fs, DragLeave);
      case Dragged(k) => FileHandlersPreserveInv(s, [], k);
      case SubmitClicked => SubmitHandlersPreserveInv(s, validEmail, Threw);
      case ResponseArrived(r) => SubmitHandlersPreserveInv(s, validEmail, r);
      case NameChanged(_) =>
      case EmailChanged(_) =>
    }
  }

  /** Every state reachable from a fresh form satisfies the invariant. */
  lemma {:induction false} RunPreservesInv(evs: seq<Event>, validEmail: string -> bool)
    ensures Inv(Run(Initial, evs, validEmail))
    decreases |evs|
  {
    if |evs| == 0 {
      InitialInv();
    } else {
      RunPreservesInv(evs[..|evs| - 1], validEmail);
      StepPreservesInv(Run(Initial, evs[..|evs| - 1], validEmail), evs[|evs| - 1], validEmail);
    }
  }

  /** A body is sent only for a complete form whose number has exactly the
      active country's length, contains only digits and backspaces, and whose
      file passed the file check; the body decodes to the form's values. */
  lemma SentPayloadIsValid(s: FormState, validEmail: string -> bool)
    requires Inv(s)
    ensures BeginSubmit(s, validEmail).1.Some? ==>
      && s.file.Some?
      && |s.phone| == MaxDigits(s)
      && AllPhoneChars(s.phone)
      && AcceptableFile(s.file.value)
      && DecodePayload(BeginSubmit(s, validEmail).1.value) == Some(ApplicationOf(s))
  {
    if BeginSubmit(s, validEmail).1.Some? {
      assert forall i | 0 <= i < |s.phone| :: s.phone[i] != ' ' by {
        forall i | 0 <= i < |s.phone| ensures s.phone[i] != ' ' {
          assert IsPhoneChar(s.phone[i]);
        }
      }
      PayloadRoundTrip(ApplicationOf(s));
    }
  }

  /** The last drag-flag signal among `evs`: true for entering or moving over
      the drop zone, false for leaving it or dropping on it. */
  function LastDragSignal(evs: seq<Event>): Option<bool>
    decreases |evs|
  {
    if |evs| == 0 then None
    else match evs[|evs| - 1]
      case Dragged(k) => Some(k != DragLeave)
      case Dropped(_) => Some(false)
      case _ => LastDragSignal(evs[..|evs| - 1])
  }

  /** While the form is shown, the drag flag reflects the latest drag or drop
      event, and no other event moves it. */
  lemma {:induction false} DragFlagFollowsLastSignal(s: FormState, evs: seq<Event>, validEmail: string -> bool)
    requires !Run(s, evs, validEmail).isSubmitted
    ensures Run(s, evs, validEmail).dragActive == ValueOr(LastDragSignal(evs), s.dragActive)
    decreases |evs|
  {
    if |evs| > 0 {
      var prefix := evs[..|evs| - 1];
      var t := Run(s, prefix, validEmail);
      assert !t.isSubmitted;
      DragFlagFollowsLastSignal(s, prefix, validEmail);
    }
  }

  /** A submitted form is final: no later event changes it. */
  lemma {:induction false} SubmittedIsFinal(s: FormState, evs: seq<Event>, validEmail: string -> bool)
    requires s.isSubmitted
    ensures Run(s, evs, validEmail) == s
    decreases |evs|
  {
    if |evs| > 0 {
      SubmittedIsFinal(s, evs[..|evs| - 1], validEmail);
    }
  }
}
