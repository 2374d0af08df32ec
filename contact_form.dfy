/**
  The contact form session: three text fields and a submission status
  (`idle`, `loading`, `success`, `error`). The relay call is abstracted as
  its outcome: the response is ok, the response is not ok, or the call
  throws. The browser's own gate on submission (the `required` fields, the
  email field's syntax check, the disabled button) is modelled as the
  condition under which a press of the send button reaches the handler.
*/
module ContactForm {

  datatype Status = Idle | Loading | Success | Error

  /** The `formState` record. */
  datatype FormState = FormState(name: string, email: string, message: string)

  /** The `name` attribute of the input that fired a change event. */
  datatype Field = Name | Email | Message

  /** What the awaited relay call ends with. */
  datatype Outcome = Ok | NotOk | Throws

  const EmptyForm: FormState := FormState("", "", "")

  function Get(form: FormState, field: Field): string
  {
    match field
    case Name => form.name
    case Email => form.email
    case Message => form.message
  }

  /** The updater `handleChange` hands to `setFormState`: overwrite the named
      field, keep the others. */
  function Set(form: FormState, field: Field, value: string): (r: FormState)
    ensures Get(r, field) == value
    ensures forall other :: other != field ==> Get(r, other) == Get(form, other)
  {
    match field
    case Name => form.(name := value)
    case Email => form.(email := value)
    case Message => form.(message := value)
  }

  /** The submit button is disabled exactly while a request is pending. */
  predicate SubmitDisabled(status: Status)
  {
    status == Loading
  }

  predicate ShowsSuccessMessage(status: Status)
  {
    status == Success
  }

  predicate ShowsErrorMessage(status: Status)
  {
    status == Error
  }

  /** The browser dispatches `submit` only when the button is enabled, every
      `required` field is non-empty and the email field passed its syntax
      check (`emailAccepted`, the browser's verdict, taken as an input). */
  predicate Dispatches(form: FormState, status: Status, emailAccepted: bool)
    ensures Dispatches(form, status, emailAccepted) <==>
      !SubmitDisabled(status) && emailAccepted && forall f :: Get(form, f) != ""
  {
    && !SubmitDisabled(status) && emailAccepted
    && Get(form, Name) != "" && Get(form, Email) != "" && Get(form, Message) != ""
  }

  // ---------------------------------------------------------------------------
  // The session as values
  // ---------------------------------------------------------------------------

  datatype Session = Session(form: FormState, status: Status)

  const Initial: Session := Session(EmptyForm, Idle)

  /** `handleSubmit` up to its `await`: status goes to loading; the fields
      are what gets sent. */
  function Submitted(s: Session): (r: Session)
    ensures r.status == Loading && r.form == s.form
  {
    s.(status := Loading)
  }

  /** `handleSubmit` after its `await`. */
  function Responded(s: Session, outcome: Outcome): (r: Session)
    ensures outcome == Ok ==> r == Session(EmptyForm, Success)
    ensures outcome != Ok ==> r == Session(s.form, Error)
  {
    match outcome
    case Ok => Session(EmptyForm, Success)
    case _ => s.(status := Error)
  }

  /** `handleChange`. */
  function Changed(s: Session, field: Field, value: string): (r: Session)
    ensures r.status == s.status
    ensures Get(r.form, field) == value
    ensures forall other :: other != field ==> Get(r.form, other) == Get(s.form, other)
  {
    s.(form := Set(s.form, field, value))
  }

  /** What the user and the network can do. */
  datatype Event =
    | PressSend(emailAccepted: bool)
    | Response(outcome: Outcome)
    | Edit(field: Field, value: string)

  /** One event. A response only ever settles a pending submission: the
      relay call is made by `handleSubmit` alone, and while it is pending
      the button is disabled, so no other call is in flight. The status
      changes only on a dispatched press (to `loading`) or on a response
      while loading (to `success` or `error`). */
  function Step(s: Session, e: Event): (r: Session)
    ensures r.status != s.status ==>
      (e.PressSend? && Dispatches(s.form, s.status, e.emailAccepted) && r.status == Loading)
      || (e.Response? && s.status == Loading && r.status in {Success, Error})
    ensures e.Response? && s.status != Loading ==> r == s
    ensures r.form != s.form ==> e.Edit? || (e.Response? && e.outcome == Ok && r.form == EmptyForm)
  {
    match e
    case PressSend(accepted) => if Dispatches(s.form, s.status, accepted) then Submitted(s) else s
    case Response(outcome) => if s.status == Loading then Responded(s, outcome) else s
    case Edit(field, value) => Changed(s, field, value)
  }

  function Run(s: Session, events: seq<Event>): Session
    decreases |events|
  {
    if events == [] then s else Run(Step(s, events[0]), events[1..])
  }

  lemma RunTwo(s: Session, a: Event, b: Event)
    ensures Run(s, [a, b]) == Step(Step(s, a), b)
  {
    var once := Step(s, a);
    assert [a, b][0] == a && [a, b][1..] == [b];
    assert Run(s, [a, b]) == Run(once, [b]);
    assert [b][0] == b && [b][1..] == [];
    assert Run(once, [b]) == Run(Step(once, b), []);
  }

  /** The state just before event `i` dispatches a submission. */
  predicate DispatchedAt(s: Session, events: seq<Event>, i: nat)
    requires i < |events|
  {
    var before := Run(s, events[..i]);
    events[i].PressSend? && Dispatches(before.form, before.status, events[i].emailAccepted)
  }

  /** From `idle`, the status moves (to `loading`, and from there to
      `success` or `error`) only after some event dispatched a submission. */
  lemma {:induction false} LeavesIdleOnlyBySubmitting(s: Session, events: seq<Event>)
    requires s.status == Idle
    requires Run(s, events).status != Idle
    ensures exists i :: 0 <= i < |events| && DispatchedAt(s, events, i)
    decreases |events|
  {
    var next := Step(s, events[0]);
    if DispatchedAt(s, events, 0) {
    } else {
      assert events[..0] == [];
      assert next.status == Idle;
      LeavesIdleOnlyBySubmitting(next, events[1..]);
      var j :| 0 <= j < |events[1..]| && DispatchedAt(next, events[1..], j);
      assert events[..j + 1][0] == events[0] && events[..j + 1][1..] == events[1..][..j];
      assert Run(s, events[..j + 1]) == Run(next, events[1..][..j]);
      assert DispatchedAt(s, events, j + 1);
    }
  }

  /** Once the form has left `idle` it never returns there: no timer resets
      the status. */
  lemma {:induction false} NeverBackToIdle(s: Session, events: seq<Event>)
    requires s.status != Idle
    ensures Run(s, events).status != Idle
    decreases |events|
  {
    if events != [] {
      NeverBackToIdle(Step(s, events[0]), events[1..]);
    }
  }

  /** Edits never change the status: only a dispatched submission and a
      response do. */
  lemma {:induction false} EditsKeepStatus(s: Session, edits: seq<Event>)
    requires forall i :: 0 <= i < |edits| ==> edits[i].Edit?
    ensures Run(s, edits).status == s.status
    decreases |edits|
  {
    if edits != [] {
      EditsKeepStatus(Step(s, edits[0]), edits[1..]);
    }
  }

  /** While a request is pending, pressing send does nothing. */
  lemma PressIgnoredWhileLoading(s: Session, accepted: bool)
    requires s.status == Loading
    ensures Step(s, PressSend(accepted)) == s
  {
  }

  /** A form with an empty required field never reaches `loading` through
      the send button. */
  lemma EmptyFieldNeverSubmits(s: Session, field: Field, accepted: bool)
    requires Get(s.form, field) == ""
    ensures Step(s, PressSend(accepted)) == s
  {
  }

  /** A dispatched submission that succeeds ends in `success` with every
      field cleared. */
  lemma SuccessfulSubmission(s: Session)
    requires Dispatches(s.form, s.status, true)
    ensures Run(s, [PressSend(true), Response(Ok)]) == Session(EmptyForm, Success)
  {
    RunTwo(s, PressSend(true), Response(Ok));
  }

  /** A dispatched submission that fails (response not ok, or the call
      throws) ends in `error` with the fields as they were, so pressing send
      again re-submits the same fields without retyping. */
  lemma FailedSubmissionKeepsFields(s: Session, outcome: Outcome)
    requires Dispatches(s.form, s.status, true) && outcome != Ok
    ensures Run(s, [PressSend(true), Response(outcome)]) == Session(s.form, Error)
    ensures Dispatches(s.form, Error, true)
  {
    RunTwo(s, PressSend(true), Response(outcome));
  }

  /** Edits made while the request is pending are not sent, and a success
      then clears them as well. */
  lemma SuccessClearsEditsMadeWhileLoading(s: Session, field: Field, value: string)
    requires s.status == Loading
    ensures Run(s, [Edit(field, value), Response(Ok)]) == Session(EmptyForm, Success)
  {
    RunTwo(s, Edit(field, value), Response(Ok));
  }

  /** While a request is pending and no response has come, the button stays
      disabled and neither status message shows, whatever the user does. */
  lemma {:induction false} PendingUntilResponse(s: Session, events: seq<Event>)
    requires s.status == Loading
    requires forall i :: 0 <= i < |events| ==> !events[i].Response?
    ensures Run(s, events).status == Loading
    decreases |events|
  {
    if events != [] {
      PendingUntilResponse(Step(s, events[0]), events[1..]);
    }
  }

  /** After a dispatched press, no success or error message shows and the
      button is disabled until a response arrives. */
  lemma NoMessageUntilResponse(s: Session, accepted: bool, events: seq<Event>)
    requires Dispatches(s.form, s.status, accepted)
    requires forall i :: 0 <= i < |events| ==> !events[i].Response?
    ensures var r := Run(s, [PressSend(accepted)] + events);
      SubmitDisabled(r.status) && !ShowsSuccessMessage(r.status) && !ShowsErrorMessage(r.status)
  {
    var all := [PressSend(accepted)] + events;
    assert all[0] == PressSend(accepted) && all[1..] == events;
    PendingUntilResponse(Submitted(s), events);
  }

  // ---------------------------------------------------------------------------
  // The component's state, updated in place
  // ---------------------------------------------------------------------------

  class Contact {
    var formState: FormState
    var status: Status

    function Current(): Session
      reads this
    {
      Session(formState, status)
    }

    /** Mount: empty fields, `idle`. */
    constructor ()
      ensures Current() == Initial
    {
      formState := EmptyForm;
      status := Idle;
    }

    /** The first half of `handleSubmit`: set `loading` and send the fields. */
    method HandleSubmit() returns (sent: FormState)
      modifies this
      ensures sent == old(formState)
      ensures Current() == Submitted(old(Current()))
    {
      status := Loading;
      sent := formState;
    }

    /** The second half of `handleSubmit`, once the relay call settles. */
    method ReceiveResponse(outcome: Outcome)
      requires status == Loading
      modifies this
      ensures Current() == Step(old(Current()), Response(outcome))
      ensures Current() == Responded(old(Current()), outcome)
    {
      if outcome == Ok {
        status := Success;
        formState := FormState("", "", "");
      } else {
        status := Error;
      }
    }

    method HandleChange(field: Field, value: string)
      modifies this
      ensures Current() == Changed(old(Current()), field, value)
    {
      formState := Set(formState, field, value);
    }
  }
}
