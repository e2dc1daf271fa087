/**
 * Where the portal sends a visitor, decided in four places: the edge
 * middleware (on a signed token), the `useAuth` hook, the `Auth` wrapper of
 * the session provider, and the `SessionCheck` component.  Each is a pure
 * decision on whether the session is still loading, the signed-in user's
 * type and the current path.
 */
module Redirects {
  import opened Wrappers
  import opened Text

  /** The signed-in user, as the session or the token describes them. */
  datatype User = User(userType: string)

  predicate IsStudent(u: User) {
    u.userType == "student"
  }

  /** `pathname?.startsWith(prefix)`: false when there is no path. */
  predicate PathStartsWith(pathname: Option<string>, prefix: string) {
    pathname.Some? && StartsWith(pathname.value, prefix)
  }

  // ---------------------------------------------------------------------------
  // The middleware

  /** What the middleware does with a request. */
  datatype Action = Proceed | RedirectTo(target: string)

  /**
   * The middleware body: upload files pass before anything else; a signed-in
   * visitor of an '/auth' page goes to their dashboard; a student on the
   * teachers' '/dashboard' goes to '/student/dashboard', and a teacher on
   * '/student/dashboard' goes to '/dashboard'.
   */
  function Middleware(pathname: string, token: Option<User>): (a: Action)
    ensures StartsWith(pathname, "/uploads/") ==> a == Proceed
    ensures a.RedirectTo? ==> token.Some?
    ensures !StartsWith(pathname, "/uploads/") && token.Some? && StartsWith(pathname, "/auth") ==>
      a == RedirectTo(if IsStudent(token.value) then "/student/dashboard" else "/dashboard")
    ensures token.Some? && IsStudent(token.value) && StartsWith(pathname, "/dashboard") ==>
      a == RedirectTo("/student/dashboard")
    ensures token.Some? && token.value.userType == "teacher" && StartsWith(pathname, "/student/dashboard") ==>
      a == RedirectTo("/dashboard")
    ensures a.RedirectTo? && !StartsWith(pathname, "/auth") ==>
      (IsStudent(token.value) && StartsWith(pathname, "/dashboard") && a.target == "/student/dashboard") ||
      (token.value.userType == "teacher" && StartsWith(pathname, "/student/dashboard") && a.target == "/dashboard")
  {
    DashboardPaths(pathname);
    if StartsWith(pathname, "/uploads/") then Proceed
    else if token.Some? && StartsWith(pathname, "/auth") then
      RedirectTo(if token.value.userType == "student" then "/student/dashboard" else "/dashboard")
    else if token.Some? && token.value.userType == "student" && StartsWith(pathname, "/dashboard") then
      RedirectTo("/student/dashboard")
    else if token.Some? && token.value.userType == "teacher" && StartsWith(pathname, "/student/dashboard") then
      RedirectTo("/dashboard")
    else Proceed
  }

  /** A path below either dashboard is neither an upload nor an '/auth' page. */
  lemma DashboardPaths(pathname: string)
    ensures StartsWith(pathname, "/dashboard") ==> !StartsWith(pathname, "/uploads/") && !StartsWith(pathname, "/auth")
    ensures StartsWith(pathname, "/student/dashboard") ==> !StartsWith(pathname, "/uploads/") && !StartsWith(pathname, "/auth")
  {
    if StartsWith(pathname, "/dashboard") {
      assert pathname[1] == "/dashboard"[1];
    }
    if StartsWith(pathname, "/student/dashboard") {
      assert pathname[1] == "/student/dashboard"[1];
    }
  }

  /** The `authorized` callback: a request is let through to the middleware exactly when it carries a token. */
  predicate Authorized(token: Option<User>) {
    token.Some?
  }

  /** The matcher prefixes: `'/dashboard/:path*'` and the others. */
  const MatcherRoots: seq<string> := ["/dashboard", "/student/dashboard", "/auth", "/profile", "/uploads"]

  /** `root/:path*` covers the root itself and every path below it. */
  predicate UnderRoot(pathname: string, root: string) {
    pathname == root || StartsWith(pathname, root + "/")
  }

  predicate Matched(pathname: string) {
    exists i :: 0 <= i < |MatcherRoots| && UnderRoot(pathname, MatcherRoots[i])
  }

  /** What the request meets at the edge: untouched, sent to sign in, or the middleware's action. */
  datatype Gate = Unmatched | SignInRequired | Handled(action: Action)

  /**
   * The middleware runs only on the matcher's paths, and only for a request
   * with a token; any other matched request is sent to sign in.
   */
  function EdgeGate(pathname: string, token: Option<User>): (g: Gate)
    ensures !Matched(pathname) <==> g == Unmatched
    ensures Matched(pathname) && token.None? <==> g == SignInRequired
    ensures g.Handled? ==> g.action == Middleware(pathname, token)
  {
    if !Matched(pathname) then Unmatched
    else if !Authorized(token) then SignInRequired
    else Handled(Middleware(pathname, token))
  }

  /** Every path below '/uploads/' is covered by the matcher. */
  lemma UploadsAreMatched(rest: string)
    ensures Matched("/uploads/" + rest)
  {
    var p := "/uploads/" + rest;
    assert p[..|"/uploads/"|] == "/uploads/";
    assert UnderRoot(p, MatcherRoots[4]);
  }

  /**
   * The middleware never redirects twice: the page it sends a visitor to is
   * one it lets through for the same token.
   */
  lemma MiddlewareSettles(pathname: string, token: Option<User>)
    requires Middleware(pathname, token).RedirectTo?
    ensures Middleware(Middleware(pathname, token).target, token) == Proceed
  {
    var target := Middleware(pathname, token).target;
    StudentDashboardFacts();
    DashboardFacts();
    assert target == "/student/dashboard" || target == "/dashboard";
  }

  /** '/student/dashboard' is under none of the other rules' prefixes. */
  lemma StudentDashboardFacts()
    ensures !StartsWith("/student/dashboard", "/uploads/")
    ensures !StartsWith("/student/dashboard", "/auth")
    ensures !StartsWith("/student/dashboard", "/dashboard")
  {
    assert "/student/dashboard"[1] == 's';
  }

  /** '/dashboard' is under none of the other rules' prefixes. */
  lemma DashboardFacts()
    ensures !StartsWith("/dashboard", "/uploads/")
    ensures !StartsWith("/dashboard", "/auth")
    ensures !StartsWith("/dashboard", "/student/dashboard")
  {
    assert "/dashboard"[1] == 'd';
  }

  // ---------------------------------------------------------------------------
  // useAuth

  /**
   * The `useAuth` effect, as the single path it pushes (None for none):
   * nothing while loading; without a session on a page that needs one, the
   * login page with the current path (or '/') encoded by `encode`; with a
   * session on an '/auth' page, the user's dashboard; a student on the
   * teachers' dashboard goes to '/dashboard', anyone else on '/dashboard'
   * to '/teacher-dashboard'.
   */
  function UseAuth(loading: bool, session: Option<User>, requireAuth: bool, pathname: Option<string>,
                   encode: string -> string): (r: Option<string>)
    ensures loading ==> r == None
    ensures !loading && session.None? && requireAuth ==>
      r == Some("/auth/login?from=" + encode(if pathname.Some? && pathname.value != "" then pathname.value else "/"))
    ensures session.None? && !requireAuth ==> r == None
    ensures !loading && session.Some? && PathStartsWith(pathname, "/auth") ==>
      r == Some(if IsStudent(session.value) then "/dashboard" else "/teacher-dashboard")
    ensures r.Some? && session.Some? && !PathStartsWith(pathname, "/auth") ==>
      (IsStudent(session.value) && PathStartsWith(pathname, "/teacher-dashboard") && r == Some("/dashboard")) ||
      (!IsStudent(session.value) && PathStartsWith(pathname, "/dashboard") && r == Some("/teacher-dashboard"))
  {
    if loading then None
    else if session.None? && requireAuth then
      Some("/auth/login?from=" + encode(if pathname.Some? && pathname.value != "" then pathname.value else "/"))
    else if session.Some? && PathStartsWith(pathname, "/auth") then
      Some(if session.value.userType == "student" then "/dashboard" else "/teacher-dashboard")
    else if session.Some? then
      var isStudent := session.value.userType == "student";
      var isTeacherPath := PathStartsWith(pathname, "/teacher-dashboard");
      var isStudentPath := PathStartsWith(pathname, "/dashboard");
      if isStudent && isTeacherPath then Some("/dashboard")
      else if !isStudent && isStudentPath then Some("/teacher-dashboard")
      else None
    else None
  }

  /** With a session, the page `useAuth` sends a user to is one it leaves them on. */
  lemma UseAuthSettles(session: Option<User>, requireAuth: bool, pathname: Option<string>, encode: string -> string)
    requires session.Some? && UseAuth(false, session, requireAuth, pathname, encode).Some?
    ensures UseAuth(false, session, requireAuth, UseAuth(false, session, requireAuth, pathname, encode), encode) == None
  {
    assert "/dashboard"[1] == 'd';
    assert "/teacher-dashboard"[1] == 't';
  }

  // ---------------------------------------------------------------------------
  // The session provider's Auth wrapper

  /** What `Auth` renders and the paths its effect pushes, in order. */
  datatype Rendered<C> = Rendered(children: C, pushes: seq<string>)

  /**
   * The `Auth` effect has no early return after its first push, so it is a
   * list of pushes: the login page without a session off the '/auth/'
   * pages, and the cross-dashboard moves for a signed-in student or teacher.
   */
  function AuthPushes(loading: bool, session: Option<User>, pathname: Option<string>): seq<string> {
    if loading then []
    else
      var toLogin := if session.None? && !(pathname.Some? && Contains(pathname.value, "/auth/")) then ["/auth/login"] else [];
      var studentMove :=
        if session.Some? && session.value.userType == "student" && PathStartsWith(pathname, "/teacher-dashboard")
        then ["/dashboard"] else [];
      var teacherMove :=
        if session.Some? && session.value.userType == "teacher" && PathStartsWith(pathname, "/dashboard")
        then ["/teacher-dashboard"] else [];
      toLogin + studentMove + teacherMove
  }

  /**
   * `Auth` always renders its children, and pushes at most one path: the
   * login page exactly when there is no session off the '/auth/' pages, or
   * the other dashboard for a student or teacher on the wrong one.
   */
  function Auth<C>(children: C, loading: bool, session: Option<User>, pathname: Option<string>): (r: Rendered<C>)
    ensures r.children == children
    ensures |r.pushes| <= 1
    ensures loading ==> r.pushes == []
    ensures !loading && session.None? ==>
      (r.pushes == ["/auth/login"] <==> !(pathname.Some? && Contains(pathname.value, "/auth/")))
    ensures session.None? ==> r.pushes == [] || r.pushes == ["/auth/login"]
    ensures !loading && session.Some? && IsStudent(session.value) ==>
      r.pushes == (if PathStartsWith(pathname, "/teacher-dashboard") then ["/dashboard"] else [])
    ensures !loading && session.Some? && session.value.userType == "teacher" ==>
      r.pushes == (if PathStartsWith(pathname, "/dashboard") then ["/teacher-dashboard"] else [])
  {
    Rendered(children, AuthPushes(loading, session, pathname))
  }

  /** The login page `Auth` pushes to is one on which it pushes nothing. */
  lemma AuthLoginSettles(session: Option<User>)
    requires session.None?
    ensures AuthPushes(false, session, Some("/auth/login")) == []
  {
    assert OccursAt("/auth/login", "/auth/", 0);
  }

  // ---------------------------------------------------------------------------
  // SessionCheck

  /**
   * The `SessionCheck` effect (the component itself renders nothing):
   * nothing while loading; without a session off the '/auth/' pages, the
   * login page; with a session on an '/auth/' page, the user's dashboard.
   */
  function SessionCheck(loading: bool, session: Option<User>, pathname: Option<string>): (r: Option<string>)
    ensures loading ==> r == None
    ensures !loading && session.None? ==> (r == Some("/auth/login") <==> !PathStartsWith(pathname, "/auth/"))
    ensures !loading && session.Some? && PathStartsWith(pathname, "/auth/") ==>
      r == Some(if IsStudent(session.value) then "/student/dashboard" else "/dashboard")
    ensures r.Some? ==> (session.None? <==> !PathStartsWith(pathname, "/auth/"))
  {
    if loading then None
    else if session.None? && !PathStartsWith(pathname, "/auth/") then Some("/auth/login")
    else if session.Some? && PathStartsWith(pathname, "/auth/") then
      Some(if session.value.userType == "student" then "/student/dashboard" else "/dashboard")
    else None
  }

  /** `SessionCheck` never redirects twice, with or without a session. */
  lemma SessionCheckSettles(session: Option<User>, pathname: Option<string>)
    requires SessionCheck(false, session, pathname).Some?
    ensures SessionCheck(false, session, SessionCheck(false, session, pathname)) == None
  {
    assert "/auth/login"[..6] == "/auth/";
    assert "/dashboard"[1] == 'd';
    assert "/student/dashboard"[1] == 's';
  }

  /**
   * The layers disagree on where a signed-in student belongs: from an auth
   * page the middleware and `SessionCheck` send them to '/student/dashboard',
   * `useAuth` to '/dashboard', where the middleware sends them back.
   */
  lemma StudentHomesDisagree(encode: string -> string)
    ensures var student := Some(User("student"));
      Middleware("/auth/login", student) == RedirectTo("/student/dashboard") &&
      SessionCheck(false, student, Some("/auth/login")) == Some("/student/dashboard") &&
      UseAuth(false, student, true, Some("/auth/login"), encode) == Some("/dashboard") &&
      Middleware("/dashboard", student) == RedirectTo("/student/dashboard")
  {
    assert "/auth/login"[..5] == "/auth";
    assert "/auth/login"[..6] == "/auth/";
    assert "/auth/login"[1] == 'a';
    assert "/dashboard"[1] == 'd';
    assert "/dashboard"[..10] == "/dashboard";
  }
}
