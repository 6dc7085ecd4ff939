/**
  The admin page's password gate: a submitted value is empty, the shared
  secret, or wrong; only the secret authenticates, and refresh loads the
  responses only once authenticated. Authentication lasts for the page load.
 */
module AdminGate {

  /** The shared secret compared client-side. */
  const AdminPassword := "my-secret-password"

  datatype Gate = Gate(isAuthed: bool)

  const Locked := Gate(false)

  /** The login error line after an event (`Untouched`: not written). */
  datatype LoginMessage = Untouched | AskForPassword | Cleared | WrongPassword

  /** One event's result: the next gate state, the login message, whether
      the dashboard is revealed, and whether `loadResponses` is started. */
  datatype GateStep = GateStep(next: Gate, message: LoginMessage, showDashboard: bool, loads: bool)

  /** The login form's submit handler. */
  function Submit(g: Gate, value: string): (r: GateStep)
    ensures r.loads <==> value == AdminPassword
    ensures r.loads ==> r.next.isAuthed && r.showDashboard && r.message == Cleared
    ensures !r.loads ==> r.next == g && !r.showDashboard
    ensures value == "" ==> r.message == AskForPassword
    ensures value != "" && value != AdminPassword ==> r.message == WrongPassword
  {
    if value == "" then GateStep(g, AskForPassword, false, false)
    else if value == AdminPassword then GateStep(Gate(true), Cleared, true, true)
    else GateStep(g, WrongPassword, false, false)
  }

  /** The refresh button's click handler. */
  function Refresh(g: Gate): (r: GateStep)
    ensures r.next == g && r.message == Untouched && !r.showDashboard
    ensures r.loads <==> g.isAuthed
  {
    if !g.isAuthed then GateStep(g, Untouched, false, false)
    else GateStep(g, Untouched, false, true)
  }

  datatype Event = SubmitForm(value: string) | ClickRefresh

  function Step(g: Gate, e: Event): GateStep
  {
    match e
    case SubmitForm(value) => Submit(g, value)
    case ClickRefresh => Refresh(g)
  }

  function Run(g: Gate, events: seq<Event>): Gate
    decreases |events|
  {
    if events == [] then g else Run(Step(g, events[0]).next, events[1..])
  }

  /** Some event of `events` submits the secret. */
  predicate SecretSubmitted(events: seq<Event>)
  {
    exists i :: 0 <= i < |events| && events[i] == SubmitForm(AdminPassword)
  }

  /** Every event starts a load only in a gate that is (then) authenticated. */
  lemma LoadsOnlyWhenAuthed(g: Gate, e: Event)
    ensures Step(g, e).loads ==> Step(g, e).next.isAuthed
    ensures e.ClickRefresh? ==> (Step(g, e).loads <==> g.isAuthed)
  {
  }

  /** After any sequence of events, the gate is open exactly when it was open
      already or the secret was submitted at some point: nothing closes it. */
  lemma {:induction false} AuthedIffSecretSubmitted(g: Gate, events: seq<Event>)
    ensures Run(g, events).isAuthed <==> g.isAuthed || SecretSubmitted(events)
    decreases |events|
  {
    if events != [] {
      var g' := Step(g, events[0]).next;
      AuthedIffSecretSubmitted(g', events[1..]);
      assert g'.isAuthed <==> g.isAuthed || events[0] == SubmitForm(AdminPassword);
      if SecretSubmitted(events) {
        var i :| 0 <= i < |events| && events[i] == SubmitForm(AdminPassword);
        if i > 0 {
          assert events[1..][i - 1] == events[i];
        }
      }
      if SecretSubmitted(events[1..]) {
        var i :| 0 <= i < |events[1..]| && events[1..][i] == SubmitForm(AdminPassword);
        assert events[i + 1] == events[1..][i];
      }
    }
  }

  /** From the locked page, a refresh loads only after the secret was submitted. */
  lemma RefreshLoadsOnlyAfterSecret(events: seq<Event>)
    ensures Refresh(Run(Locked, events)).loads <==> SecretSubmitted(events)
  {
    AuthedIffSecretSubmitted(Locked, events);
  }
}
