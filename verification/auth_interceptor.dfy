/**
 * AuthInterceptor: the gate in front of every request. The login page, the root and the static
 * resources pass without a session; any other path needs a logged-in session and is otherwise
 * redirected to /login.
 */
module AuthInterceptor {
  import opened Text
  import opened AuthenticationService

  /** What preHandle decides: let the request through, or send a redirect to /login and stop it. */
  datatype Verdict = Proceed | RedirectToLogin

  /** The paths that pass without a session: four prefixes, and "/" exactly. */
  predicate Public(path: string) {
    StartsWith(path, "/login") || StartsWith(path, "/css/") || StartsWith(path, "/js/")
    || StartsWith(path, "/images/") || path == "/"
  }

  /** preHandle: public paths first, then the session. */
  function PreHandle(path: string, session: Session): (v: Verdict)
    reads session
    ensures v == Proceed <==> Public(path) || IsLoggedIn(session)
  {
    if Public(path) then Proceed
    else if !IsLoggedIn(session) then RedirectToLogin
    else Proceed
  }

  /** The allow-list is matched by prefix: anything after "/login" passes too, "/loginX" included. */
  lemma LoginPrefixPasses(rest: string, session: Session)
    ensures PreHandle("/login" + rest, session) == Proceed
  {
    assert ("/login" + rest)[..|"/login"|] == "/login";
  }

  /** Files under the static folders pass without a session. */
  lemma StaticResourcesPass(file: string, session: Session)
    ensures PreHandle("/css/" + file, session) == Proceed
    ensures PreHandle("/js/" + file, session) == Proceed
    ensures PreHandle("/images/" + file, session) == Proceed
  {
    assert ("/css/" + file)[..|"/css/"|] == "/css/";
    assert ("/js/" + file)[..|"/js/"|] == "/js/";
    assert ("/images/" + file)[..|"/images/"|] == "/images/";
  }

  /** The folder prefixes need their trailing slash: "/css" alone is not public. */
  lemma FolderWithoutSlashIsGated(session: Session)
    requires !IsLoggedIn(session)
    ensures PreHandle("/css", session) == RedirectToLogin
  {
    assert !StartsWith("/css", "/login") by {
      assert |"/login"| > |"/css"|;
    }
    assert !StartsWith("/css", "/css/") by {
      assert |"/css/"| > |"/css"|;
    }
    assert !StartsWith("/css", "/js/") by {
      assert "/css"[1] != "/js/"[1];
    }
    assert !StartsWith("/css", "/images/") by {
      assert |"/images/"| > |"/css"|;
    }
  }

  /** After logout, every path outside the allow-list is redirected to /login. */
  lemma LoggedOutIsRedirected(path: string, session: Session)
    requires !Public(path) && CurrentUser(session).None?
    ensures PreHandle(path, session) == RedirectToLogin
  {
  }

  /** A logged-in session passes everywhere, and on a public path the session is never consulted. */
  lemma SessionOnlyMattersOffTheList(path: string, session: Session, other: Session)
    ensures IsLoggedIn(session) ==> PreHandle(path, session) == Proceed
    ensures Public(path) ==> PreHandle(path, session) == PreHandle(path, other)
  {
  }
}
