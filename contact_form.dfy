/** The contact form on the page: four controlled fields and three flags
    (submitting, success banner, error banner). A submission is two events,
    its start and the arrival of the fetch outcome, so that typing and the
    banner timers can fall between them as they can on the page. */
module ContactForm {
  import ContactRelay

  datatype Field = Name | Email | Subject | Message

  datatype FormData = FormData(name: string, email: string, subject: string, message: string)

  const EmptyForm: FormData := FormData("", "", "", "")

  function Get(f: FormData, field: Field): string
  {
    match field
    case Name => f.name
    case Email => f.email
    case Subject => f.subject
    case Message => f.message
  }

  /** `{ ...prev, [name]: value }`: the named field takes the value, the
      others keep theirs. */
  function With(f: FormData, field: Field, value: string): (g: FormData)
    ensures Get(g, field) == value
    ensures forall other :: other != field ==> Get(g, other) == Get(f, other)
  {
    match field
    case Name => f.(name := value)
    case Email => f.(email := value)
    case Subject => f.(subject := value)
    case Message => f.(message := value)
  }

  /** The `required` attribute on every field: the browser submits the form
      only when no field is empty. */
  predicate Filled(f: FormData)
  {
    forall field :: Get(f, field) != ""
  }

  /** The body `JSON.stringify(formData)` as the relay reads it back: four
      strings. */
  function AsPayload(f: FormData): (p: ContactRelay.Payload)
    ensures ContactRelay.AllFieldsPresent(p) <==> Filled(f)
    ensures ContactRelay.Converts(p) && p.message.Str?
  {
    var p := ContactRelay.Payload(ContactRelay.Str(f.name), ContactRelay.Str(f.email),
                                  ContactRelay.Str(f.subject), ContactRelay.Str(f.message));
    assert Filled(f) <== f.name != "" && f.email != "" && f.subject != "" && f.message != "" by {
      if f.name != "" && f.email != "" && f.subject != "" && f.message != "" {
        forall field ensures Get(f, field) != "" {
        }
      }
    }
    assert Get(f, Name) == f.name && Get(f, Email) == f.email;
    assert Get(f, Subject) == f.subject && Get(f, Message) == f.message;
    p
  }

  /** What `fetch` gives back: a response with its status, or a rejection
      (network failure). */
  datatype FetchOutcome = Responded(status: int) | NetworkError

  /** `response.ok`: a 2xx status. */
  predicate Succeeded(o: FetchOutcome)
  {
    o.Responded? && 200 <= o.status <= 299
  }

  // ---------------------------------------------------------------------
  // The component's state and its transitions

  datatype FormState = FormState(formData: FormData, isSubmitting: bool,
                                 submitSuccess: bool, submitError: bool)

  const Initial: FormState := FormState(EmptyForm, false, false, false)

  /** The two banners are never shown together, and neither is shown while a
      submission is in flight. */
  predicate Consistent(s: FormState)
  {
    !(s.submitSuccess && s.submitError) && (s.isSubmitting ==> !s.submitSuccess && !s.submitError)
  }

  /** Typing into one field: only that field changes, never a flag. */
  function Change(s: FormState, field: Field, value: string): (t: FormState)
    ensures Get(t.formData, field) == value
    ensures forall other :: other != field ==> Get(t.formData, other) == Get(s.formData, other)
    ensures t.isSubmitting == s.isSubmitting
    ensures t.submitSuccess == s.submitSuccess && t.submitError == s.submitError
  {
    s.(formData := With(s.formData, field, value))
  }

  /** The synchronous start of `handleSubmit`: from any state, a consistent
      in-flight state with both banners down and the fields as they were. */
  function Begin(s: FormState): (t: FormState)
    ensures Consistent(t) && t.isSubmitting
    ensures !t.submitSuccess && !t.submitError
    ensures t.formData == s.formData
  {
    s.(isSubmitting := true, submitSuccess := false, submitError := false)
  }

  /** The end of `handleSubmit`: on success the success flag is raised and
      the fields are emptied; on an error status or a rejected fetch the
      error flag is raised; in every case (`finally`) submitting ends. */
  function Finish(s: FormState, o: FetchOutcome): (t: FormState)
    ensures !t.isSubmitting
    ensures Succeeded(o) ==> t.submitSuccess && t.formData == EmptyForm
    ensures !Succeeded(o) ==> t.submitError && t.formData == s.formData
    ensures t.submitSuccess ==> Succeeded(o) || s.submitSuccess
    ensures t.submitError ==> !Succeeded(o) || s.submitError
    ensures Consistent(s) && s.isSubmitting ==> Consistent(t)
  {
    if Succeeded(o) then
      s.(formData := EmptyForm, submitSuccess := true, isSubmitting := false)
    else
      s.(submitError := true, isSubmitting := false)
  }

  /** The five-second timers: each lowers its own banner, touches nothing
      else, and keeps the state consistent. */
  function ClearSuccess(s: FormState): (t: FormState)
    ensures !t.submitSuccess
    ensures t.formData == s.formData && t.isSubmitting == s.isSubmitting
    ensures t.submitError == s.submitError
    ensures Consistent(s) ==> Consistent(t)
  {
    s.(submitSuccess := false)
  }

  function ClearError(s: FormState): (t: FormState)
    ensures !t.submitError
    ensures t.formData == s.formData && t.isSubmitting == s.isSubmitting
    ensures t.submitSuccess == s.submitSuccess
    ensures Consistent(s) ==> Consistent(t)
  {
    s.(submitError := false)
  }

  /** Every transition keeps the state consistent; finishing needs the
      submission to be in flight, which the disabled button guarantees. */
  lemma TransitionsKeepConsistent(s: FormState, field: Field, value: string, o: FetchOutcome)
    requires Consistent(s)
    ensures Consistent(Initial)
    ensures Consistent(Change(s, field, value))
    ensures Consistent(Begin(s))
    ensures s.isSubmitting ==> Consistent(Finish(s, o))
    ensures Consistent(ClearSuccess(s)) && Consistent(ClearError(s))
  {
  }

  /** Without the guard, a second outcome arriving after the first could
      show both banners: the exclusion depends on one submission at a time. */
  lemma FinishNeedsInFlight()
    ensures var s := Finish(Finish(Begin(Initial), NetworkError), Responded(200));
      s.submitSuccess && s.submitError
  {
  }

  /** One submission, start to finish: exactly one banner, matching the
      outcome; the fields are emptied on success and kept as typed
      otherwise; typing never touches the flags. */
  lemma {:induction false} SubmissionRound(s: FormState, o: FetchOutcome)
    requires Consistent(s) && !s.isSubmitting
    ensures var t := Finish(Begin(s), o);
      && Consistent(t) && !t.isSubmitting
      && (t.submitSuccess <==> Succeeded(o))
      && (t.submitError <==> !Succeeded(o))
      && t.formData == (if Succeeded(o) then EmptyForm else s.formData)
  {
    assert Begin(s).isSubmitting;
    TransitionsKeepConsistent(Begin(s), Name, "", o);
  }

  /** A change of one field while a submission is in flight is lost if the
      submission succeeds, and kept if it fails. */
  lemma {:induction false} TypingDuringSubmission(s: FormState, field: Field, value: string, o: FetchOutcome)
    ensures Get(Finish(Change(Begin(s), field, value), o).formData, field)
         == if Succeeded(o) then "" else value
  {
  }

  /** The form against the relay: the status the relay answers for the
      submitted fields decides the banner. A filled-in form whose mail is
      delivered shows success and is emptied; a form with an empty field
      (which only a browser without the `required` check would send), or one
      whose mail fails to send, shows the error and keeps its fields. */
  lemma {:induction false} RelayRound(s: FormState, config: ContactRelay.Config, send: ContactRelay.SendOutcome)
    requires Consistent(s) && !s.isSubmitting
    ensures var r := ContactRelay.Post(ContactRelay.Parsed(AsPayload(s.formData)), config, send);
      var t := Finish(Begin(s), Responded(r.response.status));
      && (r.response.status == 400 <==> !Filled(s.formData))
      && (t.submitSuccess <==> Filled(s.formData) && send == ContactRelay.Delivered)
      && (t.submitError <==> !(Filled(s.formData) && send == ContactRelay.Delivered))
      && t.formData == (if t.submitSuccess then EmptyForm else s.formData)
  {
    var p := AsPayload(s.formData);
    var r := ContactRelay.Post(ContactRelay.Parsed(p), config, send);
    if !Filled(s.formData) {
      ContactRelay.MissingFieldRejected(p, config, send);
    }
    SubmissionRound(s, Responded(r.response.status));
  }

  // ---------------------------------------------------------------------
  // The component

  class ContactSection {
    var formData: FormData
    var isSubmitting: bool
    var submitSuccess: bool
    var submitError: bool

    function State(): FormState
      reads this
    {
      FormState(formData, isSubmitting, submitSuccess, submitError)
    }

    ghost predicate Valid()
      reads this
    {
      Consistent(State())
    }

    constructor ()
      ensures Valid() && State() == Initial
    {
      formData := EmptyForm;
      isSubmitting, submitSuccess, submitError := false, false, false;
    }

    /** `disabled={isSubmitting}` on the submit button. */
    predicate ButtonDisabled()
      reads this
    {
      isSubmitting
    }

    /** `handleChange`. */
    method HandleChange(field: Field, value: string)
      requires Valid()
      modifies this
      ensures Valid() && State() == Change(old(State()), field, value)
    {
      formData := With(formData, field, value);
      TransitionsKeepConsistent(old(State()), field, value, NetworkError);
    }

    /** The start of `handleSubmit`, reachable only through the enabled
      button; returns the fields as sent in the request body. */
    method BeginSubmit() returns (sent: FormData)
      requires Valid() && !ButtonDisabled()
      modifies this
      ensures Valid() && State() == Begin(old(State()))
      ensures sent == old(formData)
    {
      sent := formData;
      isSubmitting, submitSuccess, submitError := true, false, false;
    }

    /** The rest of `handleSubmit`, once the fetch has settled. */
    method FinishSubmit(outcome: FetchOutcome)
      requires Valid() && isSubmitting
      modifies this
      ensures Valid() && State() == Finish(old(State()), outcome)
    {
      if outcome.Responded? && 200 <= outcome.status <= 299 {
        submitSuccess := true;
        formData := EmptyForm;
      } else {
        submitError := true;
      }
      isSubmitting := false;
      TransitionsKeepConsistent(old(State()), Name, "", outcome);
    }

    /** The success banner's timer firing. */
    method SuccessTimerFires()
      requires Valid()
      modifies this
      ensures Valid() && State() == ClearSuccess(old(State()))
    {
      submitSuccess := false;
    }

    /** The error banner's timer firing. */
    method ErrorTimerFires()
      requires Valid()
      modifies this
      ensures Valid() && State() == ClearError(old(State()))
    {
      submitError := false;
    }
  }

  /** A whole submission of the section's form to the relay, with the mail
      transport's outcome as a parameter. */
  method SubmitToRelay(section: ContactSection, config: ContactRelay.Config, send: ContactRelay.SendOutcome)
    returns (response: ContactRelay.Response)
    requires section.Valid() && !section.ButtonDisabled()
    modifies section
    ensures section.Valid() && !section.isSubmitting
    ensures response.status == 200 <==> Filled(old(section.formData)) && send == ContactRelay.Delivered
    ensures section.submitSuccess <==> response.status == 200
    ensures section.submitError <==> response.status != 200
    ensures section.formData == if section.submitSuccess then EmptyForm else old(section.formData)
  {
    ghost var before := section.State();
    var sent := section.BeginSubmit();
    var result := ContactRelay.Post(ContactRelay.Parsed(AsPayload(sent)), config, send);
    response := result.response;
    section.FinishSubmit(Responded(response.status));
    RelayRound(before, config, send);
  }
}
