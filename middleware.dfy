/** The request middleware's routing decision: requests for the profile and messages
    pages, and for anything below them, need a session; without one the browser is
    sent to the login page, and every other request passes through unchanged. */
module Middleware {
  import opened Basics
  import opened Text

  /** The pages that need a session (line 41). */
  const ProtectedRoutes: seq<string> := ["/profile", "/messages"]

  /** `pathname === route || pathname.startsWith(`${route}/`)`. */
  predicate Under(path: string, route: string)
  {
    path == route || StartsWith(path, route + "/")
  }

  /** Lines 42-44: `protectedRoutes.some(...)`. */
  function IsProtectedRoute(path: string): (b: bool)
    ensures b <==> exists k :: 0 <= k < |ProtectedRoutes| && Under(path, ProtectedRoutes[k])
  {
    Under(path, ProtectedRoutes[0]) || Under(path, ProtectedRoutes[1])
  }

  /** What the middleware answers. */
  datatype Decision = Next | Redirect(location: string)

  /** Lines 46-50. The session is present or not; its contents do not matter here. */
  function Decide(path: string, session: Option<UserId>): (d: Decision)
    ensures d == Redirect("/login") <==> IsProtectedRoute(path) && session.None?
    ensures d != Redirect("/login") ==> d == Next
  {
    if IsProtectedRoute(path) && session.None? then Redirect("/login") else Next
  }

  /** A path is protected exactly when it is `/profile` or `/messages` or lies below one
      of them; the separating `/` is required, so a page whose name merely begins with
      one of them is not protected. */
  lemma ProtectedPaths()
    ensures IsProtectedRoute("/profile") && IsProtectedRoute("/messages")
    ensures IsProtectedRoute("/profile/edit") && IsProtectedRoute("/messages/42")
    ensures !IsProtectedRoute("/profiles") && !IsProtectedRoute("/messagesX")
    ensures !IsProtectedRoute("/") && !IsProtectedRoute("/login")
  {
    assert "/profile/edit"[..9] == "/profile/";
    assert "/messages/42"[..10] == "/messages/";
    assert "/profiles"[..9] != "/profile/" by { assert "/profiles"[8] != "/profile/"[8]; }
    assert "/messagesX"[..10] != "/messages/" by { assert "/messagesX"[9] != "/messages/"[9]; }
  }

  /** Every path below a protected page is protected, whatever follows the `/`. */
  lemma BelowProtectedIsProtected(route: string, rest: string)
    requires route in ProtectedRoutes
    ensures IsProtectedRoute(route + "/" + rest)
  {
    var path := route + "/" + rest;
    assert path[..|route + "/"|] == route + "/";
    var k :| 0 <= k < |ProtectedRoutes| && ProtectedRoutes[k] == route;
    assert Under(path, ProtectedRoutes[k]);
  }
}
