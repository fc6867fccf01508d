/** The back-office frame (every page under `/admin`): the guard that sends visitors without a session to the
    sign-in page, the sidebar's active item, and sign-out. */
module AdminLayout {
  import opened Entities
  import Session

  const AuthPath: string := "/auth"
  const HomePath: string := "/"
  const DashboardPath: string := "/admin"
  const BrandsPath: string := "/admin/marcas"
  const ModelsPath: string := "/admin/modelos"

  /** What the layout renders. */
  datatype Render = Loader | Nothing | Shell

  /** The render branches: the loader while the session is unknown, nothing without a user, the
      sidebar and the page otherwise. Only the user's presence matters, never a role. */
  function LayoutRender(loading: bool, user: Option<string>): (r: Render)
    ensures r == Loader <==> loading
    ensures r == Nothing <==> !loading && user.None?
    ensures r == Shell <==> !loading && user.Some?
  {
    if loading then Loader else if user.None? then Nothing else Shell
  }

  /** Where the guard effect navigates, if anywhere. */
  function GuardTarget(loading: bool, user: Option<string>): (t: Option<string>)
    ensures t.Some? <==> LayoutRender(loading, user) == Nothing
    ensures t.Some? ==> t.value == AuthPath
  {
    if !loading && user.None? then Some(AuthPath) else None
  }

  /** The sidebar entries, in order. */
  const NavPaths: seq<string> := [DashboardPath, BrandsPath, ModelsPath]

  /** `isActive`: exact equality with the current path. */
  function IsActive(pathname: string, path: string): bool
  {
    pathname == path
  }

  /** The number of highlighted sidebar entries. */
  function ActiveCount(pathname: string, paths: seq<string>): nat
  {
    if paths == [] then 0
    else (if IsActive(pathname, paths[0]) then 1 else 0) + ActiveCount(pathname, paths[1..])
  }

  /** Over entries with distinct paths, at most one is highlighted: the one equal to the
      current path, if any. */
  lemma {:induction false} ActiveCountDistinct(pathname: string, paths: seq<string>)
    requires forall i, j :: 0 <= i < j < |paths| ==> paths[i] != paths[j]
    ensures ActiveCount(pathname, paths) == (if pathname in paths then 1 else 0)
  {
    if paths != [] {
      ActiveCountDistinct(pathname, paths[1..]);
      assert paths == [paths[0]] + paths[1..];
      if pathname == paths[0] {
        assert pathname !in paths[1..] by {
          forall k | 0 <= k < |paths[1..]| ensures paths[1..][k] != paths[0] {
            assert paths[k + 1] != paths[0];
          }
        }
      }
    }
  }

  /** Exactly one entry is highlighted on one of the three back-office pages, and none elsewhere
      (so the dashboard entry is not highlighted on `/admin/marcas`, nor on any deeper path). */
  lemma ActiveItems(pathname: string)
    ensures ActiveCount(pathname, NavPaths) == (if pathname in NavPaths then 1 else 0)
    ensures pathname == BrandsPath ==> !IsActive(pathname, DashboardPath)
  {
    assert BrandsPath != DashboardPath by { assert |BrandsPath| != |DashboardPath|; }
    assert ModelsPath != DashboardPath by { assert |ModelsPath| != |DashboardPath|; }
    assert ModelsPath != BrandsPath by { assert ModelsPath[8] != BrandsPath[8]; }
    ActiveCountDistinct(pathname, NavPaths);
  }

  /** The guard effect, run after each render whose `loading` or `user` changed. */
  method GuardEffect(app: Session.App)
    modifies app`location
    ensures app.location ==
      if GuardTarget(app.sessionLoading, app.user).Some? then AuthPath else old(app.location)
  {
    if !app.sessionLoading && app.user.None? {
      app.Navigate(AuthPath);
    }
  }

  /** `handleSignOut`: the provider's sign-out completes (and the session with it) before the
      navigation to the storefront. */
  method HandleSignOut(app: Session.App)
    requires app.Valid()
    modifies app
    ensures app.Valid()
    ensures app.calls == old(app.calls) + [Session.SignOut]
    ensures app.user.None? && !app.sessionLoading
    ensures app.location == HomePath
    ensures app.authBusy == old(app.authBusy) && app.pending == old(app.pending)
  {
    app.calls := app.calls + [Session.SignOut];
    app.SessionChanged(None);
    app.Navigate(HomePath);
  }

  /** Opening a back-office page before the session is known: the loader shows and nobody is
      redirected; once the provider reports no session, the guard sends the visitor to the
      sign-in page and the page itself is never rendered. */
  method VisitWithoutSession(path: string) returns (app: Session.App)
    ensures LayoutRender(app.sessionLoading, app.user) == Nothing
    ensures app.location == AuthPath
  {
    app := new Session.App(path);
    assert LayoutRender(app.sessionLoading, app.user) == Loader;
    GuardEffect(app);
    assert app.location == path;
    app.SessionChanged(None);
    GuardEffect(app);
  }

  /** With a session the guard never moves the visitor. */
  method VisitWithSession(path: string, u: string) returns (app: Session.App)
    ensures LayoutRender(app.sessionLoading, app.user) == Shell
    ensures app.location == path
  {
    app := new Session.App(path);
    GuardEffect(app);
    app.SessionChanged(Some(u));
    GuardEffect(app);
  }
}
