/**
 * The route guard that runs before the pages: an ordered first-match decision over the session
 * and the pathname that redirects or lets the request through, applied only to the paths the
 * matcher configuration names.
 */
module Middleware {
  import opened Common
  import opened Text

  /** `session.user` as the guard sees it: the `_id` claim (absent or a string) and `isVerified`. */
  datatype SessionUser = SessionUser(id: Option<string>, isVerified: bool)

  /** `NextResponse.next()` or a redirect to a path. */
  datatype Decision = Next | Redirect(target: string)

  /** `session?.user && session.user._id`: a user whose id is present and not the empty string. */
  predicate HasId(session: Option<SessionUser>) {
    session.Some? && session.value.id.Some? && session.value.id.value != ""
  }

  /** The pages a signed-in user is sent away from; "/" only exactly, the others by prefix. */
  predicate AuthPage(path: string) {
    StartsWith(path, "/sign-in") || StartsWith(path, "/sign-up") || StartsWith(path, "/verify") || path == "/"
  }

  predicate DashboardPage(path: string) {
    StartsWith(path, "/dashboard")
  }

  /** The three rules in order; the first that applies decides. */
  function Decide(session: Option<SessionUser>, path: string): (d: Decision)
    ensures d.Redirect? ==> d.target in {"/dashboard", "/sign-in", "/verify"}
    ensures d == Redirect("/dashboard") <==> HasId(session) && AuthPage(path)
    // Sent to verify only with an id, since a user without one was already sent to sign-in.
    ensures d == Redirect("/verify") ==> HasId(session) && !session.value.isVerified && DashboardPage(path)
    ensures d == Next ==> !DashboardPage(path) || (HasId(session) && session.value.isVerified)
  {
    if HasId(session) && AuthPage(path) then Redirect("/dashboard")
    else if !HasId(session) && DashboardPage(path) then Redirect("/sign-in")
    else if session.Some? && !session.value.isVerified && DashboardPage(path) then Redirect("/verify")
    else Next
  }

  /** A dashboard path is none of the pages a signed-in user is sent away from. */
  lemma DashboardIsNotAuthPage(path: string)
    requires DashboardPage(path)
    ensures !AuthPage(path)
  {
    assert path[1] == 'd';
    assert !StartsWith(path, "/sign-in") by { assert "/sign-in"[1] == 's'; }
    assert !StartsWith(path, "/sign-up") by { assert "/sign-up"[1] == 's'; }
    assert !StartsWith(path, "/verify") by { assert "/verify"[1] == 'v'; }
    assert path != "/" by { assert |path| >= 10; }
  }

  /** A user with an id on a sign-in, sign-up or verify page, or on "/", goes to the dashboard,
      verified or not. */
  lemma SignedInLeavesAuthPages(u: SessionUser, path: string)
    requires HasId(Some(u)) && AuthPage(path)
    ensures Decide(Some(u), path) == Redirect("/dashboard")
    ensures Decide(Some(u.(isVerified := !u.isVerified)), path) == Redirect("/dashboard")
  {
  }

  /** Without a session user id the dashboard sends to sign-in; the missing id wins over the
      unverified rule, so such a user never reaches verify. */
  lemma DashboardNeedsId(session: Option<SessionUser>, path: string)
    requires !HasId(session) && DashboardPage(path)
    ensures Decide(session, path) == Redirect("/sign-in")
  {
  }

  /** A user with an id who is not verified is sent from the dashboard to verify. */
  lemma UnverifiedSentToVerify(u: SessionUser, path: string)
    requires HasId(Some(u)) && !u.isVerified && DashboardPage(path)
    ensures Decide(Some(u), path) == Redirect("/verify")
  {
    DashboardIsNotAuthPage(path);
  }

  /** Every other request goes through. */
  lemma OtherwiseNext(session: Option<SessionUser>, path: string)
    requires !(HasId(session) && AuthPage(path))
    requires !DashboardPage(path) || (HasId(session) && session.value.isVerified)
    ensures Decide(session, path) == Next
  {
  }

  /** A user with an id who is not verified bounces between the two: dashboard to verify, verify
      to dashboard. */
  lemma UnverifiedRedirectLoop(u: SessionUser)
    requires HasId(Some(u)) && !u.isVerified
    ensures Decide(Some(u), "/dashboard") == Redirect("/verify")
    ensures Decide(Some(u), "/verify") == Redirect("/dashboard")
  {
    UnverifiedSentToVerify(u, "/dashboard");
  }

  /** "/" is matched exactly, the other pages by prefix. */
  lemma PrefixMatching(u: SessionUser)
    requires HasId(Some(u))
    ensures Decide(Some(u), "/sign-in-x") == Redirect("/dashboard")
    ensures u.isVerified ==> Decide(Some(u), "/x") == Next
  {
    assert StartsWith("/sign-in-x", "/sign-in");
    assert !AuthPage("/x") by {
      assert !StartsWith("/x", "/sign-in") && !StartsWith("/x", "/sign-up") && !StartsWith("/x", "/verify");
    }
    assert !DashboardPage("/x");
  }

  // ---------------------------------------------------------------- the matcher

  /** `config.matcher`: `/dashboard/:path*`, `/sign-in`, `/sign-up`, `/`, `/verify/:path*`. A
      `:path*` pattern matches the base path and every path below it. */
  predicate Matched(path: string) {
    path == "/dashboard" || StartsWith(path, "/dashboard/") ||
    path == "/sign-in" || path == "/sign-up" || path == "/" ||
    path == "/verify" || StartsWith(path, "/verify/")
  }

  /** What a request meets: the decision on a matched path, and no guard at all elsewhere. */
  function Handle(session: Option<SessionUser>, path: string): (d: Decision)
    ensures Matched(path) ==> d == Decide(session, path)
    ensures !Matched(path) ==> d == Next
  {
    if Matched(path) then Decide(session, path) else Next
  }

  /** Every matched path is one the rules look at: the matcher never runs the guard for nothing. */
  lemma MatchedPathsAreGuarded(path: string)
    requires Matched(path)
    ensures AuthPage(path) || DashboardPage(path)
  {
    if StartsWith(path, "/dashboard/") {
      assert path[..10] == "/dashboard";
    }
    if StartsWith(path, "/verify/") {
      assert path[..7] == "/verify";
    }
  }

  /** The prefix rules reach further than the matcher: "/sign-in-x" would be redirected by the
      rules, but the guard does not run there. */
  lemma PrefixBeyondMatcher(u: SessionUser)
    requires HasId(Some(u))
    ensures Decide(Some(u), "/sign-in-x") == Redirect("/dashboard")
    ensures Handle(Some(u), "/sign-in-x") == Next
  {
    PrefixMatching(u);
    assert !Matched("/sign-in-x") by {
      assert !StartsWith("/sign-in-x", "/dashboard/") && !StartsWith("/sign-in-x", "/verify/");
    }
  }
}
