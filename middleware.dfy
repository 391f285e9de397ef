/** The admin route guard of src/middleware.ts: a decision on the request's
    path and on whether a user is signed in. */
module Middleware {
  import opened Common

  datatype Locale = My | En

  /** Pass the (locale-handled) response through, or redirect to a path on
      the request's own origin. */
  datatype Decision = PassThrough | Redirect(path: string)

  /** `pathname.match(/^\/(my|en)\/admin/)`: a plain prefix test, so
      `/my/adminx` matches as well. */
  predicate IsAdminRoute(path: string)
  {
    StartsWith(path, "/my/admin") || StartsWith(path, "/en/admin")
  }

  /** `pathname.match(/^\/(my|en)\/admin\/login/)`. */
  predicate IsLoginPage(path: string)
  {
    StartsWith(path, "/my/admin/login") || StartsWith(path, "/en/admin/login")
  }

  /** `pathname.startsWith('/en') ? 'en' : 'my'`. */
  function LocaleOf(path: string): (l: Locale)
    ensures l == En <==> StartsWith(path, "/en")
  {
    if StartsWith(path, "/en") then En else My
  }

  /** `/${locale}/admin/login`. */
  function LoginPath(l: Locale): string
  {
    if l == En then "/en/admin/login" else "/my/admin/login"
  }

  /** `/${locale}/admin/dashboard`. */
  function DashboardPath(l: Locale): string
  {
    if l == En then "/en/admin/dashboard" else "/my/admin/dashboard"
  }

  /** `middleware`: an admin page other than the login page needs a user,
      and a signed-in user is sent from the login page to the dashboard.
      Both redirects keep the locale of the request. */
  function Route(path: string, loggedIn: bool): (d: Decision)
    ensures d == Redirect(LoginPath(LocaleOf(path))) <==> IsAdminRoute(path) && !IsLoginPage(path) && !loggedIn
    ensures d == Redirect(DashboardPath(LocaleOf(path))) <==> IsLoginPage(path) && loggedIn
    ensures d == PassThrough <==> !IsAdminRoute(path) || (IsLoginPage(path) && !loggedIn) || (!IsLoginPage(path) && loggedIn)
  {
    TargetLengths(LocaleOf(path));
    if IsAdminRoute(path) && !IsLoginPage(path) && !loggedIn then Redirect(LoginPath(LocaleOf(path)))
    else if IsLoginPage(path) && loggedIn then Redirect(DashboardPath(LocaleOf(path)))
    else PassThrough
  }

  /** The two targets differ already in length. */
  lemma TargetLengths(l: Locale)
    ensures |LoginPath(l)| == 15 && |DashboardPath(l)| == 19
  {
  }

  /** Every login path is an admin path. */
  lemma LoginIsAdmin(path: string)
    ensures IsLoginPage(path) ==> IsAdminRoute(path)
  {
    if StartsWith(path, "/my/admin/login") {
      assert path[..9] == path[..15][..9];
    }
    if StartsWith(path, "/en/admin/login") {
      assert path[..9] == path[..15][..9];
    }
  }

  /** The prefix test accepts more than the admin section. */
  lemma PrefixNotSegment()
    ensures IsAdminRoute("/my/adminx") && !IsLoginPage("/my/adminx")
    ensures Route("/my/adminx", false) == Redirect("/my/admin/login")
  {
    var path := "/my/adminx";
    assert path[..9] == "/my/admin";
    assert LocaleOf(path) == My by {
      assert path[..3][1] == 'm';
    }
    LoginTarget(My);
  }

  /** On an admin path the locale is the path's own first segment. */
  lemma AdminLocale(path: string)
    requires IsAdminRoute(path)
    ensures LocaleOf(path) == En <==> StartsWith(path, "/en/admin")
  {
    if StartsWith(path, "/en/admin") {
      assert path[..3] == path[..9][..3];
    } else {
      assert path[..9] == "/my/admin";
      assert path[..3] == path[..9][..3];
    }
  }

  /** Where the two redirects lead: the login page and a non-login admin
      page, both under the given locale. */
  lemma Targets(l: Locale)
    ensures IsLoginPage(LoginPath(l)) && LocaleOf(LoginPath(l)) == l
    ensures IsAdminRoute(DashboardPath(l)) && !IsLoginPage(DashboardPath(l))
    ensures LocaleOf(DashboardPath(l)) == l
  {
    LoginTarget(l);
    DashboardTarget(l);
  }

  lemma LoginTarget(l: Locale)
    ensures IsLoginPage(LoginPath(l)) && LocaleOf(LoginPath(l)) == l
  {
    var login := LoginPath(l);
    if l == En {
      assert login == "/en/admin/login";
      assert login[..3] == "/en";
    } else {
      assert login == "/my/admin/login";
      assert login[..3] != "/en" by {
        assert login[..3][1] == 'm';
      }
    }
  }

  lemma DashboardTarget(l: Locale)
    ensures IsAdminRoute(DashboardPath(l)) && !IsLoginPage(DashboardPath(l))
    ensures LocaleOf(DashboardPath(l)) == l
  {
    var dash := DashboardPath(l);
    if l == En {
      assert dash == "/en/admin/dashboard";
      assert dash[..9] == "/en/admin" && dash[..3] == "/en";
    } else {
      assert dash == "/my/admin/dashboard";
      assert dash[..9] == "/my/admin";
      assert dash[..3] != "/en" by {
        assert dash[..3][1] == 'm';
      }
    }
    NotLoginPage(dash);
  }

  /** A path whose eleventh character is not the `l` of `login`. */
  lemma NotLoginPage(path: string)
    requires |path| > 10 && path[10] != 'l'
    ensures !IsLoginPage(path)
  {
    if |path| >= 15 {
      assert path[..15][10] == path[10];
    }
    assert "/en/admin/login"[10] == 'l' && "/my/admin/login"[10] == 'l';
  }

  /** A redirect target is let through under the same sign-in state, so the
      guard never produces a second redirect, and it keeps the locale. */
  lemma NoRedirectLoop(path: string, loggedIn: bool)
    ensures Route(path, loggedIn).Redirect? ==>
              Route(Route(path, loggedIn).path, loggedIn) == PassThrough
              && LocaleOf(Route(path, loggedIn).path) == LocaleOf(path)
  {
    Targets(LocaleOf(path));
    LoginIsAdmin(LoginPath(LocaleOf(path)));
  }
}
