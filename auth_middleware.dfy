/**
 * middleware/authMiddleware.ts: the page guard. A request passes only with
 * an `auth_token` cookie that jsonwebtoken accepts; everything else is sent
 * to `/login` on the request's own origin.
 */
module AuthMiddleware {
  import opened Wrappers
  import opened Http
  import Jwt
  import LibAuth

  datatype Outcome = Next | Redirect(to: Url)

  /** `authMiddleware(request)` with `JWT_SECRET` = `secret`, at `now`. */
  function Guard(lib: Jwt.Library, req: Request, secret: Option<string>, now: int): (r: Outcome)
    ensures r.Redirect? ==> r.to == Resolve("/login", req.url)
    ensures r.Next? <==>
      var token := CookieValue(req, LibAuth.AuthCookie);
      token.Some? && token.value != "" && Jwt.Verify(lib, token.value, secret, now).Ok?
  {
    var token := CookieValue(req, LibAuth.AuthCookie);
    if token.None? || token.value == "" then Redirect(Resolve("/login", req.url))
    else
      match Jwt.Verify(lib, token.value, secret, now)
      case Err(_) => Redirect(Resolve("/login", req.url))
      case Ok(_) => Next
  }

  /** No cookie: redirect, whatever the verifier or the secret. */
  lemma NoCookieRedirects(lib: Jwt.Library, req: Request, secret: Option<string>, now: int)
    requires LibAuth.AuthCookie !in req.cookies
    ensures Guard(lib, req, secret, now) == Redirect(Url(req.url.origin, "/login"))
  {
  }

  /** A rejected token (expired, forged, or no secret configured) gives the
      very same redirect as a missing cookie. */
  lemma RejectionRedirects(lib: Jwt.Library, req: Request, secret: Option<string>, now: int)
    requires LibAuth.AuthCookie in req.cookies
    requires Jwt.Verify(lib, req.cookies[LibAuth.AuthCookie], secret, now).Err?
    ensures Guard(lib, req, secret, now) == Redirect(Url(req.url.origin, "/login"))
  {
  }

  /** A token signed with the configured secret passes until it expires. */
  lemma SignedTokenPasses(lib: Jwt.Library, req: Request, secret: Option<string>, claims: map<string, Js.Json>, ttl: int, issued: int, now: int)
    requires Jwt.Sound(lib) && Jwt.Configured(secret)
    requires now / 1000 < issued / 1000 + ttl
    requires LibAuth.AuthCookie in req.cookies
    requires req.cookies[LibAuth.AuthCookie] == Jwt.Sign(lib, claims, secret, ttl, issued).value
    ensures Guard(lib, req, secret, now) == Next
  {
    Jwt.SignThenVerify(lib, claims, secret, ttl, issued, now);
  }

  /** The outcome depends on the `auth_token` cookie and the URL's origin
      only: other cookies, the method and the body play no part, and no
      refresh is tried. */
  lemma OnlyAuthCookieMatters(lib: Jwt.Library, a: Request, b: Request, secret: Option<string>, now: int)
    requires a.url.origin == b.url.origin
    requires CookieValue(a, LibAuth.AuthCookie) == CookieValue(b, LibAuth.AuthCookie)
    ensures Guard(lib, a, secret, now) == Guard(lib, b, secret, now)
  {
  }

  // -------------------------------------------------------------- matcher

  /** The matcher's roots. */
  const GuardedRoots: seq<string> := ["/dashboard", "/clients", "/invoices"]

  /** `'<root>/:path*'`: the root itself or any path below it. */
  predicate UnderRoot(path: string, root: string) {
    path == root || (|path| > |root| && path[..|root| + 1] == root + "/")
  }

  /** `config.matcher`: the paths the guard runs on. */
  predicate Guarded(path: string) {
    exists i :: 0 <= i < |GuardedRoots| && UnderRoot(path, GuardedRoots[i])
  }

  /** The roots and everything below them are guarded. */
  lemma SubPathsGuarded(i: int, rest: string)
    requires 0 <= i < |GuardedRoots|
    ensures Guarded(GuardedRoots[i]) && Guarded(GuardedRoots[i] + "/" + rest)
  {
    var root := GuardedRoots[i];
    assert UnderRoot(root, root);
    assert (root + "/" + rest)[..|root| + 1] == root + "/";
    assert UnderRoot(root + "/" + rest, root);
  }

  /** `/orders` is not among them, nor is a path that merely begins with
      a root's letters. */
  lemma OrdersUnguarded()
    ensures !Guarded("/orders") && !Guarded("/orders/new")
    ensures !Guarded("/dashboards")
  {
    assert !UnderRoot("/orders", "/dashboard") && !UnderRoot("/orders", "/clients") && !UnderRoot("/orders", "/invoices");
    assert !UnderRoot("/orders/new", "/dashboard") && !UnderRoot("/orders/new", "/clients") && !UnderRoot("/orders/new", "/invoices");
    assert "/dashboards"[..11][10] == 's';
    assert !UnderRoot("/dashboards", "/dashboard") && !UnderRoot("/dashboards", "/clients") && !UnderRoot("/dashboards", "/invoices");
  }
}
