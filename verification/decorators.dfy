/** The `profile_confirmed_required` view decorator. */
module Decorators {
  import opened Models
  import opened Http

  const ConfirmProfileMessage: string :=
    "You need to confirm your profile. Check your mail inbox for activation link"

  /** `request.user.profile.is_confirmed`. */
  predicate IsConfirmed(s: Store, user: int) {
    user in s.users && s.users[user].isConfirmed
  }

  /** Runs `view` for a confirmed user and returns its reply untouched;
      anyone else is sent to the profile page with one info message and the
      view never runs, so the store is left as it was. */
  function ProfileConfirmedRequired(view: (Store, int) -> Reply, s: Store, user: int): (r: Reply)
    ensures IsConfirmed(s, user) ==> r == view(s, user)
    ensures !IsConfirmed(s, user) ==> r.store == s && r.page == Redirect(ProfileRoute)
    ensures !IsConfirmed(s, user) ==> r.messages == [Message(Info, ConfirmProfileMessage)]
  {
    if IsConfirmed(s, user) then view(s, user)
    else Reply(s, Redirect(ProfileRoute), [Message(Info, ConfirmProfileMessage)])
  }
}
