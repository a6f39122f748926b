/**
 * The front-end route table and its navigation guard. A route's
 * `requiresAuth` comes from its parent's `meta`; the guard sends a visitor
 * without a stored token away from such routes to the login page, and one
 * with a token away from the '/auth' pages to the dashboard. "Signed in"
 * here is only the presence of the stored 'token' string.
 */
module Router {
  import opened Wrappers
  import opened Text

  datatype Child = Child(path: string, name: string)

  /** A top-level route record: its path, an optional redirect, `meta.requiresAuth`, and its children. */
  datatype Record = Record(path: string, redirect: Option<string>, requiresAuth: bool, children: seq<Child>)

  const LoginPath: string := "/auth/login"
  const DashboardPath: string := "/dashboard"
  const AuthPrefix: string := "/auth"

  /** `{ path: '/', redirect: '/dashboard' }`. */
  const RootRedirect: Record := Record("/", Some(DashboardPath), false, [])

  /** The '/auth' layout: no `meta`. */
  const AuthLayout: Record := Record(AuthPrefix, None, false, [Child("login", "Login"), Child("register", "Register")])

  const MainChildren: seq<Child> := [
    Child("dashboard", "Dashboard"),
    Child("assessment/chapters", "AssessmentChapters"),
    Child("assessment/test/:id", "AssessmentTest"),
    Child("assessment/result/:id", "AssessmentResult"),
    Child("learning/overview", "LearningOverview"),
    Child("learning/tasks/:id", "LearningTasks"),
    Child("practice/questions", "PracticeQuestions"),
    Child("practice/mistakes", "PracticeMistakes"),
    Child("progress/overview", "ProgressOverview"),
    Child("progress/analysis", "ProgressAnalysis"),
    Child("profile/info", "ProfileInfo"),
    Child("profile/settings", "ProfileSettings"),
    Child("debug/ai", "AIDebug")]

  /** The main layout: `meta: { requiresAuth: true }`. */
  const MainLayout: Record := Record("/", None, true, MainChildren)

  const Table: seq<Record> := [RootRedirect, AuthLayout, MainLayout]

  // ------------------------------------------------------------ the flattened table

  /** A child route as the router resolves it: the full pattern and the inherited meta flag. */
  datatype Entry = Entry(pattern: string, name: string, requiresAuth: bool)

  /** A child path joined to its parent's. */
  function JoinPath(parent: string, child: string): (r: string)
    ensures StartsWith(r, parent)
  {
    if parent != [] && parent[|parent| - 1] == '/' then parent + child else parent + "/" + child
  }

  function ChildEntries(parent: Record, cs: seq<Child>): (r: seq<Entry>)
    ensures |r| == |cs|
    ensures forall k | 0 <= k < |r| ::
      r[k] == Entry(JoinPath(parent.path, cs[k].path), cs[k].name, parent.requiresAuth)
  {
    if cs == [] then []
    else [Entry(JoinPath(parent.path, cs[0].path), cs[0].name, parent.requiresAuth)] + ChildEntries(parent, cs[1..])
  }

  /** Every child of every record, in table order, carrying its parent's `requiresAuth`. */
  function Flatten(rs: seq<Record>): (r: seq<Entry>)
    ensures forall e | e in r :: exists p | p in rs :: e.requiresAuth == p.requiresAuth && StartsWith(e.pattern, p.path)
  {
    if rs == [] then [] else ChildEntries(rs[0], rs[0].children) + Flatten(rs[1..])
  }

  // ------------------------------------------------------------ matching

  /** Where the first segment of `s` ends: the first '/' or the end. */
  function SegmentEnd(s: string): (n: nat)
    ensures n <= |s|
    ensures s != [] && s[0] != '/' ==> n >= 1
    ensures forall i | 0 <= i < n :: s[i] != '/'
  {
    if s == [] || s[0] == '/' then 0 else 1 + SegmentEnd(s[1..])
  }

  /** A path matches a pattern: literal characters equal, each ':param' taking one non-empty segment. */
  function Matches(pattern: string, path: string): bool
    decreases |pattern|
  {
    if pattern == [] then path == []
    else if pattern[0] == ':' then
      var k := SegmentEnd(path);
      k > 0 && Matches(pattern[SegmentEnd(pattern)..], path[k..])
    else path != [] && pattern[0] == path[0] && Matches(pattern[1..], path[1..])
  }

  /** A matching path begins with the literal beginning of its pattern. */
  lemma {:induction false} MatchKeepsPrefix(pattern: string, path: string, n: nat)
    requires n <= |pattern| && forall i | 0 <= i < n :: pattern[i] != ':'
    requires Matches(pattern, path)
    ensures n <= |path| && forall i | 0 <= i < n :: path[i] == pattern[i]
    decreases n
  {
    if n > 0 {
      MatchKeepsPrefix(pattern[1..], path[1..], n - 1);
      assert forall i | 1 <= i < n :: path[i] == path[1..][i - 1] && pattern[i] == pattern[1..][i - 1];
    }
  }

  /** A pattern without parameters matches exactly itself. */
  lemma {:induction false} LiteralMatchesItself(p: string)
    requires ':' !in p
    ensures Matches(p, p)
    decreases |p|
  {
    if p != [] {
      assert ':' !in p[1..] by {
        forall i | 0 <= i < |p| - 1 ensures p[1..][i] != ':' {
          assert p[1..][i] == p[i + 1];
        }
      }
      LiteralMatchesItself(p[1..]);
    }
  }

  /** The first entry whose pattern the path matches. */
  function FirstMatch(es: seq<Entry>, path: string): (r: Option<Entry>)
    ensures r.Some? ==> r.value in es && Matches(r.value.pattern, path)
    ensures r.None? <==> forall e | e in es :: !Matches(e.pattern, path)
  {
    if es == [] then None
    else if Matches(es[0].pattern, path) then Some(es[0])
    else FirstMatch(es[1..], path)
  }

  /** `to.meta.requiresAuth` for a path; an unmatched path has no meta. */
  predicate RequiresAuth(path: string) {
    var m := FirstMatch(Flatten(Table), path);
    m.Some? && m.value.requiresAuth
  }

  /** A record's `redirect`, applied before the guard runs. */
  function Redirect(rs: seq<Record>, path: string): (r: string)
    ensures r == path || exists q | q in rs :: q.path == path && q.redirect == Some(r)
  {
    if rs == [] then path
    else if rs[0].path == path && rs[0].redirect.Some? then rs[0].redirect.value
    else Redirect(rs[1..], path)
  }

  // ------------------------------------------------------------ the guard

  datatype Navigation = Proceed | RedirectTo(target: string)

  /** `localStorage.getItem('token')` is truthy. */
  predicate HasToken(stored: Option<string>) {
    stored.Some? && stored.value != ""
  }

  /** `beforeEach` given `to.meta.requiresAuth`, `to.path` and the stored token: the first rule that applies decides. */
  function Guard(requiresAuth: bool, to: string, stored: Option<string>): (r: Navigation)
    ensures r == RedirectTo(LoginPath) <==> requiresAuth && !HasToken(stored)
    ensures r == RedirectTo(DashboardPath) <==> !(requiresAuth && !HasToken(stored)) && StartsWith(to, AuthPrefix) && HasToken(stored)
    ensures r == Proceed <==> !(requiresAuth && !HasToken(stored)) && !(StartsWith(to, AuthPrefix) && HasToken(stored))
  {
    if requiresAuth && !HasToken(stored) then RedirectTo(LoginPath)
    else if StartsWith(to, AuthPrefix) && HasToken(stored) then RedirectTo(DashboardPath)
    else Proceed
  }

  /** The guard ignores the token's value: only whether a non-empty one is stored. */
  lemma GuardReadsOnlyPresence(requiresAuth: bool, to: string, a: string, b: string)
    requires a != "" && b != ""
    ensures Guard(requiresAuth, to, Some(a)) == Guard(requiresAuth, to, Some(b))
    ensures Guard(requiresAuth, to, None) == Guard(requiresAuth, to, Some(""))
  {
  }

  /** A navigation: the table's redirect first, then the guard on the resolved path and its meta. */
  function Navigate(path: string, stored: Option<string>): Navigation {
    var to := Redirect(Table, path);
    Guard(RequiresAuth(to), to, stored)
  }

  // ------------------------------------------------------------ properties of the table

  /** The first three characters of a pattern are literal, and not "/au" when the route requires auth. */
  predicate ClearOfAuth(e: Entry) {
    |e.pattern| >= 3 && e.pattern[0] != ':' && e.pattern[1] != ':' && e.pattern[2] != ':' &&
    (e.requiresAuth ==> e.pattern[1] != 'a' || e.pattern[2] != 'u')
  }

  /** A child path under the root layout starts with two literal characters other than "au". */
  predicate RootChildPath(c: string) {
    |c| >= 2 && c[0] != ':' && c[1] != ':' && (c[0] != 'a' || c[1] != 'u')
  }

  lemma {:induction false} RootChildrenClear(parent: Record, cs: seq<Child>)
    requires parent.path == "/"
    requires forall c | c in cs :: RootChildPath(c.path)
    ensures forall e | e in ChildEntries(parent, cs) :: ClearOfAuth(e)
  {
    forall e | e in ChildEntries(parent, cs)
      ensures ClearOfAuth(e)
    {
      var k :| 0 <= k < |cs| && ChildEntries(parent, cs)[k] == e;
      assert cs[k] in cs;
      assert e.pattern == "/" + cs[k].path;
    }
  }

  lemma {:induction false} PublicChildrenClear(parent: Record, cs: seq<Child>)
    requires parent.path == AuthPrefix && !parent.requiresAuth
    ensures forall e | e in ChildEntries(parent, cs) :: ClearOfAuth(e)
  {
    forall e | e in ChildEntries(parent, cs)
      ensures ClearOfAuth(e)
    {
      var k :| 0 <= k < |cs| && ChildEntries(parent, cs)[k] == e;
      assert e.pattern == AuthPrefix + "/" + cs[k].path;
    }
  }

  /** The flattened table of three records. */
  lemma FlattenThree(a: Record, b: Record, c: Record)
    ensures Flatten([a, b, c]) == ChildEntries(a, a.children) + ChildEntries(b, b.children) + ChildEntries(c, c.children)
    ensures a.children == [] ==> Flatten([a, b, c]) == ChildEntries(b, b.children) + ChildEntries(c, c.children)
  {
    assert [a, b, c][1..] == [b, c] && [b, c][1..] == [c] && [c][1..] == [];
    assert Flatten([c]) == ChildEntries(c, c.children);
    assert Flatten([b, c]) == ChildEntries(b, b.children) + ChildEntries(c, c.children);
  }

  lemma MainChildPaths()
    ensures forall c | c in MainChildren :: RootChildPath(c.path)
  {
    forall i | 0 <= i < |MainChildren|
      ensures RootChildPath(MainChildren[i].path)
    {
      var p := MainChildren[i].path;
      assert p[0] != 'a' || p[1] != 'u';
    }
  }

  /** Every route of the table begins literally, and no route that requires auth begins with "/au". */
  lemma TableClear()
    ensures forall e | e in Flatten(Table) :: ClearOfAuth(e)
  {
    MainChildPaths();
    RootChildrenClear(MainLayout, MainChildren);
    PublicChildrenClear(AuthLayout, AuthLayout.children);
    FlattenThree(RootRedirect, AuthLayout, MainLayout);
  }

  /** The '/auth' children do not require auth, the main layout's children all do. */
  lemma TableFlags()
    ensures forall e | e in ChildEntries(AuthLayout, AuthLayout.children) :: !e.requiresAuth && StartsWith(e.pattern, AuthPrefix)
    ensures forall e | e in ChildEntries(MainLayout, MainChildren) :: e.requiresAuth
  {
    Inherited(AuthLayout, AuthLayout.children);
    Inherited(MainLayout, MainChildren);
  }

  /** The redirect record has no children: the table flattens to the '/auth' children, then the main ones. */
  lemma TableOrder()
    ensures Flatten(Table) == ChildEntries(AuthLayout, AuthLayout.children) + ChildEntries(MainLayout, MainChildren)
  {
    FlattenThree(RootRedirect, AuthLayout, MainLayout);
  }

  /** A child inherits its parent's flag and sits under its parent's path. */
  lemma Inherited(parent: Record, cs: seq<Child>)
    ensures forall e | e in ChildEntries(parent, cs) :: e.requiresAuth == parent.requiresAuth && StartsWith(e.pattern, parent.path)
  {
    forall e | e in ChildEntries(parent, cs)
      ensures e.requiresAuth == parent.requiresAuth && StartsWith(e.pattern, parent.path)
    {
      var k :| 0 <= k < |cs| && ChildEntries(parent, cs)[k] == e;
    }
  }

  /** No path under '/auth' requires auth, whatever route it matches. */
  lemma AuthPathsArePublic(path: string)
    requires StartsWith(path, AuthPrefix)
    ensures !RequiresAuth(path)
  {
    TableClear();
    ClearRoutesArePublic(Flatten(Table), path);
  }

  /** Over routes clear of "/au", a path under '/auth' matches none that requires auth. */
  lemma ClearRoutesArePublic(es: seq<Entry>, path: string)
    requires forall e | e in es :: ClearOfAuth(e)
    requires StartsWith(path, AuthPrefix)
    ensures var m := FirstMatch(es, path); m.Some? ==> !m.value.requiresAuth
  {
    var m := FirstMatch(es, path);
    if m.Some? {
      MatchKeepsPrefix(m.value.pattern, path, 3);
      assert path[1] == AuthPrefix[1] && path[2] == AuthPrefix[2];
    }
  }

  /** Redirecting to the login page without a token lands there. */
  lemma LoginIsFixedPoint(stored: Option<string>)
    requires !HasToken(stored)
    ensures Navigate(LoginPath, stored) == Proceed
  {
    assert Redirect(Table, LoginPath) == LoginPath;
    AuthPathsArePublic(LoginPath);
  }

  /** Redirecting to the dashboard with a token lands there. */
  lemma DashboardIsFixedPoint(stored: Option<string>)
    requires HasToken(stored)
    ensures Navigate(DashboardPath, stored) == Proceed
  {
    assert Redirect(Table, DashboardPath) == DashboardPath;
    assert DashboardPath[..|AuthPrefix|] != AuthPrefix by {
      assert DashboardPath[1] != AuthPrefix[1];
    }
  }

  /** A redirect of the guard is never redirected again: the guard cannot loop. */
  lemma NoRedirectLoop(path: string, stored: Option<string>)
    ensures Navigate(path, stored).RedirectTo? ==> Navigate(Navigate(path, stored).target, stored) == Proceed
  {
    var r := Navigate(path, stored);
    if r == RedirectTo(LoginPath) {
      LoginIsFixedPoint(stored);
    } else if r == RedirectTo(DashboardPath) {
      DashboardIsFixedPoint(stored);
    }
  }

  /** Entries none of which match are skipped. */
  lemma {:induction false} FirstMatchSkips(xs: seq<Entry>, ys: seq<Entry>, path: string)
    requires forall e | e in xs :: !Matches(e.pattern, path)
    ensures FirstMatch(xs + ys, path) == FirstMatch(ys, path)
  {
    if xs != [] {
      assert (xs + ys)[1..] == xs[1..] + ys;
      assert xs[0] in xs;
      FirstMatchSkips(xs[1..], ys, path);
    } else {
      assert xs + ys == ys;
    }
  }

  /** No '/auth' child matches a path whose second character is not 'a'. */
  lemma {:induction false} AuthChildrenMiss(parent: Record, cs: seq<Child>, path: string)
    requires parent.path == AuthPrefix && !parent.requiresAuth
    requires |path| >= 2 && path[1] != 'a'
    ensures forall e | e in ChildEntries(parent, cs) :: !Matches(e.pattern, path)
  {
    PublicChildrenClear(parent, cs);
    Inherited(parent, cs);
    forall e | e in ChildEntries(parent, cs)
      ensures !Matches(e.pattern, path)
    {
      SecondCharDecides(e.pattern, path);
    }
  }

  /** A pattern starting with two literal characters fails a path whose second character differs. */
  lemma SecondCharDecides(pattern: string, path: string)
    requires |pattern| >= 2 && pattern[0] != ':' && pattern[1] != ':'
    requires |path| >= 2 && path[1] != pattern[1]
    ensures !Matches(pattern, path)
  {
    assert pattern[1..][0] == pattern[1] && path[1..][0] == path[1];
  }

  /** In a table of a childless redirect, the '/auth' layout and a third record, a path that the
      first child of the third matches, and whose second character is not 'a', resolves to that child. */
  lemma FirstOfThird(a: Record, b: Record, c: Record, path: string)
    requires a.children == [] && b.path == AuthPrefix && !b.requiresAuth
    requires |path| >= 2 && path[1] != 'a'
    requires c.children != [] && Matches(JoinPath(c.path, c.children[0].path), path)
    ensures FirstMatch(Flatten([a, b, c]), path) == Some(Entry(JoinPath(c.path, c.children[0].path), c.children[0].name, c.requiresAuth))
  {
    FlattenThree(a, b, c);
    AuthChildrenMiss(b, b.children, path);
    FirstMatchSkips(ChildEntries(b, b.children), ChildEntries(c, c.children), path);
  }

  /** The dashboard requires auth: it is the first route its path matches. */
  lemma DashboardIsProtected()
    ensures RequiresAuth(DashboardPath)
  {
    LiteralMatchesItself(DashboardPath);
    FirstOfThird(RootRedirect, AuthLayout, MainLayout, DashboardPath);
  }
}
