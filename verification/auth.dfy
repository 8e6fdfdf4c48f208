/** The sign-in screen (views/AuthView.tsx): three modes, a loading flag that
    blocks resubmission, and a delayed completion that branches on the mode
    captured when the form was submitted. The network delay is modelled as an
    explicit `TimerFires` event. */
module Auth {
  import Seqs

  datatype Mode = Login | Signup | Forgot

  /** The completion scheduled by a submit, with the mode its closure captured. */
  datatype Pending = NoTimer | Timer(captured: Mode)

  datatype AuthState = AuthState(mode: Mode, isLoading: bool, pending: Pending)

  const InitialAuth: AuthState := AuthState(Login, false, NoTimer)

  /** What a step does outside the component's state. */
  datatype Effect = NoEffect | CallOnLogin | ShowAlert

  datatype Outcome = Outcome(state: AuthState, effect: Effect)

  /** User actions, plus the firing of the submit's timer. */
  datatype AuthEvent = PressForgot | PressRegister | PressBack | Submit | TimerFires

  // ---------------------------------------------------------------------------
  // What is on screen
  // ---------------------------------------------------------------------------

  datatype FormField = NameField | ContactField | PhoneField | PasswordField

  /** The inputs of the form, in screen order, for a mode. */
  function VisibleFields(mode: Mode): (r: seq<FormField>)
    ensures NameField in r <==> mode == Signup
    ensures PhoneField in r <==> mode == Signup
    ensures PasswordField in r <==> mode != Forgot
    ensures ContactField in r
  {
    (if mode == Signup then [NameField] else [])
    + [ContactField]
    + (if mode == Signup then [PhoneField] else [])
    + (if mode != Forgot then [PasswordField] else [])
  }

  /** The "forgot password" link is rendered only in login mode. */
  predicate ForgotLinkShown(mode: Mode)
  {
    mode == Login
  }

  /** The footer offers "register" in login mode and "back" otherwise. */
  predicate RegisterShown(mode: Mode)
  {
    mode == Login
  }

  predicate BackShown(mode: Mode)
  {
    mode != Login
  }

  /** The submit button is disabled while loading. */
  predicate SubmitEnabled(s: AuthState)
  {
    !s.isLoading
  }

  /** Whether an event can happen in a state: a button must be on screen and
      enabled, and the timer must have been scheduled. */
  function Enabled(s: AuthState, e: AuthEvent): (b: bool)
    ensures e in {PressForgot, PressRegister} ==> (b <==> s.mode == Login)
    ensures e == PressBack ==> (b <==> s.mode in {Signup, Forgot})
    ensures e == Submit ==> (b <==> !s.isLoading)
    ensures e == TimerFires ==> (b <==> s.pending != NoTimer)
  {
    match e
    case PressForgot => ForgotLinkShown(s.mode)
    case PressRegister => RegisterShown(s.mode)
    case PressBack => BackShown(s.mode)
    case Submit => SubmitEnabled(s)
    case TimerFires => s.pending.Timer?
  }

  // ---------------------------------------------------------------------------
  // Transitions
  // ---------------------------------------------------------------------------

  /** `handleSubmit`: set the loading flag and schedule the completion,
      capturing the current mode. */
  function SubmitForm(s: AuthState): (r: AuthState)
    requires SubmitEnabled(s)
    ensures r.isLoading && !SubmitEnabled(r)
    ensures r.mode == s.mode && r.pending == Timer(s.mode)
  {
    s.(isLoading := true, pending := Timer(s.mode))
  }

  /** The timer callback: clear the loading flag, then either log in (when the
      captured mode is not `Forgot`) or return to login and alert. */
  function Complete(s: AuthState): (o: Outcome)
    requires s.pending.Timer?
    ensures !o.state.isLoading && o.state.pending == NoTimer
    ensures o.effect == CallOnLogin <==> s.pending.captured != Forgot
    ensures s.pending.captured != Forgot ==> o.state.mode == s.mode
    ensures s.pending.captured == Forgot ==> o.state.mode == Login && o.effect == ShowAlert
  {
    var cleared := s.(isLoading := false, pending := NoTimer);
    if s.pending.captured != Forgot then Outcome(cleared, CallOnLogin)
    else Outcome(cleared.(mode := Login), ShowAlert)
  }

  /** One event. An event that is not enabled changes nothing. */
  function Step(s: AuthState, e: AuthEvent): (o: Outcome)
    ensures !Enabled(s, e) ==> o == Outcome(s, NoEffect)
    ensures o.effect == CallOnLogin ==> e == TimerFires && s.pending.Timer? && s.pending.captured != Forgot
    ensures e != TimerFires ==> o.effect == NoEffect
    ensures e in {PressForgot, PressRegister, PressBack} ==>
      o.state.isLoading == s.isLoading && o.state.pending == s.pending
    ensures Enabled(s, e) && e == PressForgot ==> o == Outcome(s.(mode := Forgot), NoEffect)
    ensures Enabled(s, e) && e == PressRegister ==> o == Outcome(s.(mode := Signup), NoEffect)
    ensures Enabled(s, e) && e == PressBack ==> o == Outcome(s.(mode := Login), NoEffect)
    ensures Enabled(s, e) && e == Submit ==> o == Outcome(SubmitForm(s), NoEffect)
    ensures Enabled(s, e) && e == TimerFires ==> o == Complete(s)
  {
    if !Enabled(s, e) then Outcome(s, NoEffect)
    else match e
      case PressForgot => Outcome(s.(mode := Forgot), NoEffect)
      case PressRegister => Outcome(s.(mode := Signup), NoEffect)
      case PressBack => Outcome(s.(mode := Login), NoEffect)
      case Submit => Outcome(SubmitForm(s), NoEffect)
      case TimerFires => Complete(s)
  }

  /** The loading flag is set exactly while a completion is scheduled. */
  predicate AuthInvariant(s: AuthState)
  {
    s.isLoading <==> s.pending.Timer?
  }

  /** Runs a series of events and counts the `onLogin` calls. */
  function Run(s: AuthState, events: seq<AuthEvent>): (AuthState, nat)
    decreases |events|
  {
    if |events| == 0 then (s, 0)
    else
      var o := Step(s, events[0]);
      var (t, n) := Run(o.state, events[1..]);
      (t, n + (if o.effect == CallOnLogin then 1 else 0))
  }

  // ---------------------------------------------------------------------------
  // Properties
  // ---------------------------------------------------------------------------

  /** The screen opens in login mode and not loading. */
  lemma InitialState()
    ensures InitialAuth.mode == Login && !InitialAuth.isLoading
    ensures AuthInvariant(InitialAuth)
    ensures VisibleFields(InitialAuth.mode) == [ContactField, PasswordField]
  {
  }

  /** Mode switches: from login, "forgot" and "register" lead to forgot and
      signup; from signup or forgot, "back" returns to login. */
  lemma ModeSwitches(s: AuthState)
    ensures s.mode == Login ==> Step(s, PressForgot).state.mode == Forgot
    ensures s.mode == Login ==> Step(s, PressRegister).state.mode == Signup
    ensures s.mode == Login ==> Step(s, PressBack).state == s
    ensures s.mode != Login ==> Step(s, PressBack).state.mode == Login
    ensures s.mode != Login ==> Step(s, PressForgot).state == s && Step(s, PressRegister).state == s
  {
  }

  /** Every step keeps the loading flag in step with the scheduled completion;
      so a second submit is impossible while one is pending. */
  lemma StepKeepsInvariant(s: AuthState, e: AuthEvent)
    requires AuthInvariant(s)
    ensures AuthInvariant(Step(s, e).state)
    ensures s.isLoading && e == Submit ==> Step(s, e).state == s
  {
  }

  /** The completion branches on the mode captured at submit time: switching
      to "forgot" while loading still logs in, and switching to login after
      a "forgot" submit still only alerts. */
  lemma CapturedModeDecides()
    ensures
      var s1 := Step(InitialAuth, Submit).state;
      var s2 := Step(s1, PressForgot).state;
      var o := Step(s2, TimerFires);
      s2.mode == Forgot && o.effect == CallOnLogin && o.state.mode == Forgot
    ensures
      var s1 := Step(AuthState(Forgot, false, NoTimer), Submit).state;
      var s2 := Step(s1, PressBack).state;
      var s3 := Step(s2, PressRegister).state;
      var o := Step(s3, TimerFires);
      s3.mode == Signup && o.effect == ShowAlert && o.state.mode == Login
  {
  }

  /** The footer always offers exactly one of "register" and "back". */
  lemma FooterOffersOne(s: AuthState)
    ensures Enabled(s, PressRegister) != Enabled(s, PressBack)
  {
  }

  /** The effect of a completion depends only on the captured mode, never on
      the mode current when the timer fires. */
  lemma CompletionIgnoresCurrentMode(s: AuthState, m: Mode)
    requires s.pending.Timer?
    ensures Step(s, TimerFires).effect == Step(s.(mode := m), TimerFires).effect
  {
  }

  /** Along any run from a consistent state, `onLogin` is called at most once
      per accepted submit: each call consumes the one pending completion. */
  lemma {:induction false} LoginsBoundedBySubmits(s: AuthState, events: seq<AuthEvent>)
    requires AuthInvariant(s)
    ensures Run(s, events).1 + (if Run(s, events).0.pending.Timer? then 1 else 0)
      <= Seqs.Count(events, Submit) + (if s.pending.Timer? then 1 else 0)
    decreases |events|
  {
    if |events| > 0 {
      var o := Step(s, events[0]);
      StepKeepsInvariant(s, events[0]);
      LoginsBoundedBySubmits(o.state, events[1..]);
    }
  }
}
