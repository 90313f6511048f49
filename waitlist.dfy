/**
 * The waitlist form (src/components/WaitlistForm.js): three state cells, email,
 * error and submitted, changed by typing, by submitting and by the timeout that
 * a successful submission schedules.
 *
 * The form's state is a class whose fields are the state cells; pendingResets
 * counts the setTimeout callbacks scheduled and not yet run, so that the timeout
 * becomes an event the environment may deliver only while one is pending.
 * FormState and the step functions below state each handler's effect on values;
 * the lemmas relate several steps.
 */
module Waitlist {
  import opened EmailValidation
  import Dom

  const InvalidEmailMessage := "Please enter a valid email address."

  datatype FormState = FormState(email: string, error: string, submitted: bool, pendingResets: nat)

  /** useState(''), useState(false), useState(''), and no timeout scheduled. */
  const Initial := FormState("", "", false, 0)

  /** handleSubmit (after preventDefault). */
  function Submit(s: FormState): FormState {
    if !ValidateEmail(s.email) then s.(error := InvalidEmailMessage)
    else FormState("", "", true, s.pendingResets + 1)
  }

  /** The callback scheduled by a successful submission: setSubmitted(false). */
  function Expire(s: FormState): FormState
    requires s.pendingResets > 0
  {
    s.(submitted := false, pendingResets := s.pendingResets - 1)
  }

  /** The input's onChange handler: setEmail(e.target.value). */
  function Type(s: FormState, value: string): FormState {
    s.(email := value)
  }

  /** What can happen to the form.  A reset can fire only while one is pending. */
  datatype FormEvent = Typed(value: string) | Submitted | ResetFired

  function Step(s: FormState, ev: FormEvent): FormState {
    match ev
    case Typed(v) => Type(s, v)
    case Submitted => Submit(s)
    case ResetFired => if s.pendingResets > 0 then Expire(s) else s
  }

  function Run(s: FormState, evs: seq<FormEvent>): FormState
    decreases |evs|
  {
    if evs == [] then s else Run(Step(s, evs[0]), evs[1..])
  }

  /** The success banner is shown only while a reset that will hide it is pending,
      and the error banner holds either nothing or the one message the form sets. */
  predicate Consistent(s: FormState) {
    && (s.submitted ==> s.pendingResets > 0)
    && (s.error == "" || s.error == InvalidEmailMessage)
  }

  /** An address the regular expression rejects sets the error message and leaves
      the typed address and the success flag as they were. */
  lemma SubmitRejected(s: FormState)
    requires !RegexMatch(s.email)
    ensures Submit(s).error == InvalidEmailMessage
    ensures Submit(s).email == s.email && Submit(s).submitted == s.submitted
    ensures Submit(s).pendingResets == s.pendingResets
  {
    ValidateEmailMatchesRegex(s.email);
  }

  /** An address the regular expression accepts clears the error and the input,
      shows the success banner and schedules one reset. */
  lemma SubmitAccepted(s: FormState)
    requires RegexMatch(s.email)
    ensures Submit(s) == FormState("", "", true, s.pendingResets + 1)
  {
    ValidateEmailMatchesRegex(s.email);
  }

  /** Submitting a rejected address again changes nothing more. */
  lemma SubmitRejectedTwice(s: FormState)
    requires !RegexMatch(s.email)
    ensures Submit(Submit(s)) == Submit(s)
  {
    ValidateEmailMatchesRegex(s.email);
  }

  /** A successful submission followed by its timeout leaves an empty form with
      no banner, and as many resets pending as before. */
  lemma SubmitThenExpire(s: FormState)
    requires RegexMatch(s.email)
    ensures Submit(s).pendingResets > 0
    ensures Expire(Submit(s)) == s.(email := "", error := "", submitted := false)
  {
    ValidateEmailMatchesRegex(s.email);
  }

  lemma StepKeepsConsistent(s: FormState, ev: FormEvent)
    requires Consistent(s)
    ensures Consistent(Step(s, ev))
  {
  }

  /** Every state the form can reach from its initial state is consistent. */
  lemma {:induction false} RunKeepsConsistent(s: FormState, evs: seq<FormEvent>)
    requires Consistent(s)
    ensures Consistent(Run(s, evs))
    decreases |evs|
  {
    if evs != [] {
      StepKeepsConsistent(s, evs[0]);
      RunKeepsConsistent(Step(s, evs[0]), evs[1..]);
    }
  }

  lemma ReachableIsConsistent(evs: seq<FormEvent>)
    ensures Consistent(Run(Initial, evs))
  {
    RunKeepsConsistent(Initial, evs);
  }

  class WaitlistForm {
    var email: string
    var error: string
    var submitted: bool
    /** setTimeout callbacks scheduled by handleSubmit and not yet run. */
    var pendingResets: nat

    ghost function State(): FormState
      reads this
    {
      FormState(email, error, submitted, pendingResets)
    }

    constructor ()
      ensures State() == Initial
    {
      email, error, submitted, pendingResets := "", "", false, 0;
    }

    /** onChange of the e-mail input. */
    method OnChange(value: string)
      modifies this
      ensures State() == Type(old(State()), value)
      ensures email == value
      ensures error == old(error) && submitted == old(submitted) && pendingResets == old(pendingResets)
    {
      email := value;
    }

    /** handleSubmit: the default submission is prevented on every call; an invalid
        address only sets the error, a valid one clears the form and shows success. */
    method HandleSubmit(e: Dom.Event)
      modifies this, e
      ensures e.defaultPrevented
      ensures State() == Submit(old(State()))
      ensures !ValidateEmail(old(email)) ==>
        && error == InvalidEmailMessage
        && email == old(email) && submitted == old(submitted) && pendingResets == old(pendingResets)
      ensures ValidateEmail(old(email)) ==>
        && error == "" && submitted && email == ""
        && pendingResets == old(pendingResets) + 1
    {
      e.PreventDefault();
      if !ValidateEmail(email) {
        error := InvalidEmailMessage;
        return;
      }
      error := "";
      submitted := true;
      pendingResets := pendingResets + 1;
      email := "";
    }

    /** The scheduled timeout runs: it hides the success banner and nothing else. */
    method ResetFires()
      requires pendingResets > 0
      modifies this
      ensures State() == Expire(old(State()))
      ensures !submitted
      ensures email == old(email) && error == old(error)
      ensures pendingResets == old(pendingResets) - 1
    {
      submitted := false;
      pendingResets := pendingResets - 1;
    }
  }
}
