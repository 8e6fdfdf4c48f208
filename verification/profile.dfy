/** The logout confirmation of the profile screen (views/ProfileView.tsx): a
    modal flag opened by "Sair" and closed by "Cancelar" or by tapping the
    backdrop; "Confirmar Saída" calls `onLogout` and exists only inside the
    open modal. */
module Profile {
  import Seqs

  datatype ProfileEvent = PressSair | PressBackdrop | PressCancel | PressConfirm

  /** The new `showLogoutConfirm` flag and whether `onLogout` was called. */
  datatype ProfileStep = ProfileStep(showLogoutConfirm: bool, logout: bool)

  /** The modal starts closed. */
  const InitiallyOpen: bool := false

  /** One press. The backdrop and both modal buttons are rendered only while
      the modal is open; a press on a control that is not on screen changes
      nothing. Confirming calls `onLogout` and leaves the flag as it is. */
  function Press(open: bool, e: ProfileEvent): (r: ProfileStep)
    ensures r.logout <==> open && e == PressConfirm
    ensures e == PressSair ==> r.showLogoutConfirm
    ensures open && e in {PressCancel, PressBackdrop} ==> !r.showLogoutConfirm
    ensures !open && e != PressSair ==> r == ProfileStep(false, false)
    ensures e == PressConfirm ==> r.showLogoutConfirm == open
  {
    match e
    case PressSair => ProfileStep(true, false)
    case PressBackdrop => if open then ProfileStep(false, false) else ProfileStep(open, false)
    case PressCancel => if open then ProfileStep(false, false) else ProfileStep(open, false)
    case PressConfirm => ProfileStep(open, open)
  }

  /** Runs a series of presses from a modal state, returning the final flag
      and the number of `onLogout` calls. */
  function Run(open: bool, events: seq<ProfileEvent>): (bool, nat)
    decreases |events|
  {
    if |events| == 0 then (open, 0)
    else
      var r := Press(open, events[0]);
      var (final, n) := Run(r.showLogoutConfirm, events[1..]);
      (final, n + (if r.logout then 1 else 0))
  }

  /** From the closed modal, a run without "Sair" never opens it and never
      calls `onLogout`. */
  lemma {:induction false} NoSairNoLogout(events: seq<ProfileEvent>)
    requires PressSair !in events
    ensures Run(false, events) == (false, 0)
    decreases |events|
  {
    if |events| > 0 {
      assert PressSair !in events[1..] by {
        assert forall k :: 0 <= k < |events[1..]| ==> events[1..][k] == events[k + 1];
      }
      NoSairNoLogout(events[1..]);
    }
  }

  /** Every `onLogout` call in a run is answered by a confirmation press:
      the number of calls is at most the number of "Confirmar Saída" presses. */
  lemma {:induction false} LogoutsBoundedByConfirms(open: bool, events: seq<ProfileEvent>)
    ensures Run(open, events).1 <= Seqs.Count(events, PressConfirm)
    decreases |events|
  {
    if |events| > 0 {
      LogoutsBoundedByConfirms(Press(open, events[0]).showLogoutConfirm, events[1..]);
    }
  }

  /** The shortest logout: open the modal, then confirm. Cancelling or
      tapping the backdrop in between closes it and the confirmation is lost. */
  lemma LogoutScenarios()
    ensures Run(InitiallyOpen, [PressSair, PressConfirm]) == (true, 1)
    ensures Run(InitiallyOpen, [PressSair, PressCancel, PressConfirm]) == (false, 0)
    ensures Run(InitiallyOpen, [PressSair, PressBackdrop, PressConfirm]) == (false, 0)
  {
  }
}
