/** The browser-side state that the sign-in page and the back-office layout share: the session
    reported by the authentication provider, the current path (the last navigation target),
    the sign-in page's busy flag, and the log of calls made to the provider. */
module Session {
  import opened Entities

  /** A call to the authentication provider. */
  datatype AuthCall =
    | SignIn(email: string, password: string)
    | SignUp(email: string, password: string, fullName: string)
    | SignOut

  class App {
    /** The provider has not yet reported whether a session exists. */
    var sessionLoading: bool
    /** The signed-in user's id, if any. */
    var user: Option<string>
    /** The current path: where the last navigation went. */
    var location: string
    /** The sign-in page's `loading`: a sign-in or sign-up call is outstanding. */
    var authBusy: bool
    /** The sign-in or sign-up call awaiting its answer. */
    var pending: Option<AuthCall>
    /** Every call made to the provider, in order. */
    var calls: seq<AuthCall>

    /** The busy flag is set exactly while a sign-in or sign-up call is outstanding, and that
        call has been made. A sign-out may follow it before it answers: the provider can report
        the session, and the back office open, before `signIn` resolves. */
    predicate Valid()
      reads this
    {
      (authBusy <==> pending.Some?) &&
      (pending.Some? ==> !pending.value.SignOut? && pending.value in calls)
    }

    /** The application opened at `path`, before the provider reported the session. */
    constructor (path: string)
      ensures Valid()
      ensures sessionLoading && user.None? && location == path
      ensures !authBusy && pending.None? && calls == []
    {
      sessionLoading := true;
      user := None;
      location := path;
      authBusy := false;
      pending := None;
      calls := [];
    }

    /** The provider reports the session (at start-up, or after a sign-in, sign-up or sign-out). */
    method SessionChanged(u: Option<string>)
      requires Valid()
      modifies this`sessionLoading, this`user
      ensures Valid()
      ensures !sessionLoading && user == u
    {
      sessionLoading := false;
      user := u;
    }

    /** `navigate(target)`. */
    method Navigate(target: string)
      modifies this`location
      ensures location == target
    {
      location := target;
    }
  }
}
