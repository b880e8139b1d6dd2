/**
 * Cache and lock keys of the idempotency policy
 * (backend/src/middleware/idempotencyPolicy.ts:44, 147-224, backend/src/utils/apiPath.ts).
 */
module CacheKeys {
  import opened Common

  /** A method is upper-cased and a route normalised before they reach this point. */
  datatype Operation = Operation(httpMethod: string, route: string, scope: string, key: string)

  predicate ColonFree(s: string) {
    ':' !in s
  }

  predicate HexDigit(c: char) {
    '0' <= c <= '9' || 'a' <= c <= 'f'
  }

  /** credentialScope: 'anonymous', or 'c:' and sixteen hex digits of a digest. */
  predicate IsScope(s: string) {
    s == "anonymous" ||
    (|s| == 18 && s[..2] == "c:" && forall i | 2 <= i < 18 :: HexDigit(s[i]))
  }

  predicate KeyChar(c: char) {
    'A' <= c <= 'Z' || 'a' <= c <= 'z' || '0' <= c <= '9' || c in "._:-"
  }

  /** ^[A-Za-z0-9._:-]{8,200}$ */
  predicate IsValidIdempotencyKey(key: string) {
    8 <= |key| <= 200 && forall c <- key :: KeyChar(c)
  }

  /** The operations the middleware can name: routes without a colon are those of the API. */
  predicate WellFormed(op: Operation) {
    ColonFree(op.httpMethod) && ColonFree(op.route) && IsScope(op.scope)
  }

  function IdempotencyCacheKey(op: Operation): string {
    "idemp:" + op.httpMethod + ":" + op.route + ":" + op.scope + ":" + op.key
  }

  const IN_FLIGHT_SUFFIX := ":inflight"

  function InFlightLockKey(cacheKey: string): string {
    cacheKey + IN_FLIGHT_SUFFIX
  }

  // ---------- splitting at the first colon ----------

  lemma FirstColonAt(a: string, x: string)
    requires ColonFree(a)
    ensures var s := a + ":" + x;
            s[|a|] == ':' && forall i | 0 <= i < |a| :: s[i] != ':'
  {
    var s := a + ":" + x;
    forall i | 0 <= i < |a| ensures s[i] != ':' {
      assert s[i] == a[i] && a[i] in a;
    }
  }

  lemma FirstColonSplits(a: string, x: string, b: string, y: string)
    requires ColonFree(a) && ColonFree(b)
    requires a + ":" + x == b + ":" + y
    ensures a == b && x == y
  {
    var s, t := a + ":" + x, b + ":" + y;
    FirstColonAt(a, x);
    FirstColonAt(b, y);
    assert |a| == |b|;
    assert a == s[..|a|] == t[..|b|] == b;
    assert x == s[|a| + 1..] == t[|b| + 1..] == y;
  }

  lemma ScopesSplit(a: string, x: string, b: string, y: string)
    requires IsScope(a) && IsScope(b)
    requires a + ":" + x == b + ":" + y
    ensures a == b && x == y
  {
    var s, t := a + ":" + x, b + ":" + y;
    assert a[0] == s[0] == t[0] == b[0];
    assert "anonymous"[0] == 'a';
    if a != "anonymous" { assert a[..2][0] == 'c'; }
    if b != "anonymous" { assert b[..2][0] == 'c'; }
    assert |a| == |b|;
    assert a == s[..|a|] == t[..|b|] == b;
    assert x == s[|a| + 1..] == t[|b| + 1..] == y;
  }

  lemma KeyUnfolds(op: Operation)
    ensures IdempotencyCacheKey(op) ==
            "idemp:" + (op.httpMethod + ":" + (op.route + ":" + (op.scope + ":" + op.key)))
  {
  }

  /** Different operations never share a cache key, although keys and scopes contain colons. */
  lemma CacheKeyIsInjective(p: Operation, q: Operation)
    requires WellFormed(p) && WellFormed(q)
    ensures IdempotencyCacheKey(p) == IdempotencyCacheKey(q) <==> p == q
  {
    if IdempotencyCacheKey(p) == IdempotencyCacheKey(q) {
      KeyUnfolds(p);
      KeyUnfolds(q);
      var r1, r2 := p.scope + ":" + p.key, q.scope + ":" + q.key;
      var m1, m2 := p.route + ":" + r1, q.route + ":" + r2;
      var s, t := p.httpMethod + ":" + m1, q.httpMethod + ":" + m2;
      assert s == ("idemp:" + s)[6..] == ("idemp:" + t)[6..] == t;
      FirstColonSplits(p.httpMethod, m1, q.httpMethod, m2);
      FirstColonSplits(p.route, r1, q.route, r2);
      ScopesSplit(p.scope, p.key, q.scope, q.key);
    }
  }

  /** The lock key of one operation is the cache key of another exactly when the other's key is this
      key followed by ":inflight", everything else being equal. */
  lemma LockKeyMeetsCacheKeyIff(p: Operation, q: Operation)
    requires WellFormed(p) && WellFormed(q)
    ensures InFlightLockKey(IdempotencyCacheKey(p)) == IdempotencyCacheKey(q) <==>
            q == p.(key := p.key + IN_FLIGHT_SUFFIX)
  {
    var longer := p.(key := p.key + IN_FLIGHT_SUFFIX);
    assert InFlightLockKey(IdempotencyCacheKey(p)) == IdempotencyCacheKey(longer);
    CacheKeyIsInjective(longer, q);
  }

  predicate EndsWith(s: string, suffix: string) {
    |s| >= |suffix| && s[|s| - |suffix|..] == suffix
  }

  /** So locks and outcomes live apart for all keys that do not end in ":inflight" ... */
  lemma LocksAndOutcomesAreDisjoint(p: Operation, q: Operation)
    requires WellFormed(p) && WellFormed(q)
    requires !EndsWith(q.key, IN_FLIGHT_SUFFIX)
    ensures InFlightLockKey(IdempotencyCacheKey(p)) != IdempotencyCacheKey(q)
  {
    LockKeyMeetsCacheKeyIff(p, q);
    assert EndsWith(p.key + IN_FLIGHT_SUFFIX, IN_FLIGHT_SUFFIX);
  }

  /** ... and meet for a key the policy accepts that does. */
  lemma AcceptedKeysCanMeet(route: string)
    requires ColonFree(route)
    ensures var p := Operation("POST", route, "anonymous", "abcdefgh");
            var q := p.(key := "abcdefgh:inflight");
            && WellFormed(p) && WellFormed(q)
            && IsValidIdempotencyKey(p.key) && IsValidIdempotencyKey(q.key)
            && InFlightLockKey(IdempotencyCacheKey(p)) == IdempotencyCacheKey(q)
  {
    var p := Operation("POST", route, "anonymous", "abcdefgh");
    assert "abcdefgh" + ":inflight" == "abcdefgh:inflight";
    hide IdempotencyCacheKey, IsScope, HexDigit;
    LockKeyMeetsCacheKeyIff(p, p.(key := "abcdefgh:inflight"));
  }

  // ---------- routes with colons ----------

  /** q's route is p's with p's scope behind it, and as much of p's key as q's own scope and key leave over. */
  predicate Swallows(p: Operation, q: Operation) {
    var head := p.route + ":" + p.scope;
    head <= q.route && ":" + p.key == q.route[|head|..] + ":" + q.scope + ":" + q.key
  }

  /** A scope is not the beginning of a longer one: what stands before another scope is at least a whole scope. */
  lemma ScopeIsWhole(scope: string, key: string, u: string, other: string, y: string)
    requires IsScope(scope) && IsScope(other)
    requires scope + ":" + key == u + ":" + (other + ":" + y)
    ensures |u| >= |scope|
  {
    var s := scope + ":" + key;
    if |u| < |scope| {
      assert s[|u|] == scope[|u|] && (u + ":" + (other + ":" + y))[|u|] == ':';
      if scope != "anonymous" {
        assert scope[1] == scope[..2][1] && scope[0] == scope[..2][0];
        assert |u| == 1;
        InsideDigest(scope, key, u, other, y);
      }
    }
  }

  /** The digits of a digest hold no colon, and every scope with its colon behind it shows one by its tenth character. */
  lemma InsideDigest(scope: string, key: string, u: string, other: string, y: string)
    requires IsScope(scope) && scope != "anonymous" && IsScope(other) && |u| == 1
    ensures scope + ":" + key != u + ":" + (other + ":" + y)
  {
    var s, t := scope + ":" + key, u + ":" + (other + ":" + y);
    var at := if other == "anonymous" then 9 else 1;
    assert (other + ":")[at] == ':' by { if other != "anonymous" { assert other[1] == other[..2][1]; } }
    assert t[2 + at] == (other + ":" + y)[at] == ':';
    assert s[2 + at] == scope[2 + at] && HexDigit(scope[2 + at]);
  }

  /** Two ways to cut one text at a colon. */
  lemma LaterCut(a: string, x: string, b: string, y: string)
    requires |a| < |b| && a + ":" + x == b + ":" + y
    ensures var u := b[|a| + 1..]; b == a + ":" + u && x == u + ":" + y
  {
    var s, t := a + ":" + x, b + ":" + y;
    assert a == s[..|a|] == t[..|a|] == b[..|a|];
    assert b[|a|] == t[|a|] == s[|a|] == ':';
    assert x == s[|a| + 1..] == t[|a| + 1..] == b[|a| + 1..] + ":" + y;
  }

  lemma CutNoEarlier(a: string, x: string, u: string, z: string)
    requires |a| <= |u| && a + ":" + x == u + ":" + z
    ensures u == a + u[|a|..] && ":" + x == u[|a|..] + ":" + z
  {
    var w, v := a + ":" + x, u + ":" + z;
    assert a == w[..|a|] == v[..|a|] == u[..|a|];
    assert ":" + x == w[|a|..] == v[|a|..] == u[|a|..] + ":" + z;
  }

  lemma LongerRoute(p: Operation, q: Operation)
    requires IsScope(p.scope) && IsScope(q.scope) && |p.route| < |q.route|
    requires p.route + ":" + (p.scope + ":" + p.key) == q.route + ":" + (q.scope + ":" + q.key)
    ensures Swallows(p, q)
  {
    hide IsScope;
    var u := q.route[|p.route| + 1..];
    LaterCut(p.route, p.scope + ":" + p.key, q.route, q.scope + ":" + q.key);
    ScopeIsWhole(p.scope, p.key, u, q.scope, q.key);
    CutNoEarlier(p.scope, p.key, u, q.scope + ":" + q.key);
    SwallowsByParts(p, q, u[|p.scope|..]);
  }

  lemma SwallowsByParts(p: Operation, q: Operation, rest: string)
    requires q.route == p.route + ":" + (p.scope + rest)
    requires ":" + p.key == rest + ":" + (q.scope + ":" + q.key)
    ensures Swallows(p, q)
  {
    var head := p.route + ":" + p.scope;
    assert q.route == head + rest;
    assert rest + ":" + (q.scope + ":" + q.key) == rest + ":" + q.scope + ":" + q.key;
  }

  lemma SwallowedMeets(p: Operation, q: Operation)
    requires Swallows(p, q)
    ensures p.route + ":" + (p.scope + ":" + p.key) == q.route + ":" + (q.scope + ":" + q.key)
  {
    var head := p.route + ":" + p.scope;
    assert q.route == head + q.route[|head|..];
    assert p.route + ":" + (p.scope + ":" + p.key) == head + (":" + p.key);
    assert head + (q.route[|head|..] + ":" + q.scope + ":" + q.key) == (head + q.route[|head|..]) + ":" + (q.scope + ":" + q.key);
  }

  /** Without any condition on routes: two operations share a cache key if and only if they are the same, or the route
      of one runs on through the other's scope and into its key. */
  lemma CacheKeysMeetIff(p: Operation, q: Operation)
    requires ColonFree(p.httpMethod) && ColonFree(q.httpMethod) && IsScope(p.scope) && IsScope(q.scope)
    ensures IdempotencyCacheKey(p) == IdempotencyCacheKey(q) <==>
            p == q || (p.httpMethod == q.httpMethod && (Swallows(p, q) || Swallows(q, p)))
  {
    KeyUnfolds(p);
    KeyUnfolds(q);
    var m1, m2 := p.route + ":" + (p.scope + ":" + p.key), q.route + ":" + (q.scope + ":" + q.key);
    if IdempotencyCacheKey(p) == IdempotencyCacheKey(q) {
      var s, t := p.httpMethod + ":" + m1, q.httpMethod + ":" + m2;
      assert s == ("idemp:" + s)[6..] == ("idemp:" + t)[6..] == t;
      FirstColonSplits(p.httpMethod, m1, q.httpMethod, m2);
      SameRouteOrLonger(p, q);
    } else if p.httpMethod == q.httpMethod {
      if Swallows(p, q) { SwallowedMeets(p, q); }
      if Swallows(q, p) { SwallowedMeets(q, p); }
    }
  }

  lemma SameRouteOrLonger(p: Operation, q: Operation)
    requires IsScope(p.scope) && IsScope(q.scope) && p.httpMethod == q.httpMethod
    requires p.route + ":" + (p.scope + ":" + p.key) == q.route + ":" + (q.scope + ":" + q.key)
    ensures p == q || Swallows(p, q) || Swallows(q, p)
  {
    var m1, m2 := p.route + ":" + (p.scope + ":" + p.key), q.route + ":" + (q.scope + ":" + q.key);
    if |p.route| < |q.route| {
      LongerRoute(p, q);
    } else if |q.route| < |p.route| {
      LongerRoute(q, p);
    } else {
      assert p.route == m1[..|p.route|] == m2[..|p.route|] == q.route;
      assert p.scope + ":" + p.key == m1[|p.route| + 1..] == m2[|p.route| + 1..] == q.scope + ":" + q.key;
      ScopesSplit(p.scope, p.key, q.scope, q.key);
    }
  }

  /** A colon in the route breaks injectivity: for every route and key there is a clash. */
  lemma ColonInRouteCollides(httpMethod: string, route: string, x: string, y: string)
    ensures var p := Operation(httpMethod, route, "anonymous", x + ":anonymous:" + y);
            var q := Operation(httpMethod, route + ":anonymous:" + x, "anonymous", y);
            p != q && IdempotencyCacheKey(p) == IdempotencyCacheKey(q)
  {
    var p := Operation(httpMethod, route, "anonymous", x + ":anonymous:" + y);
    var q := Operation(httpMethod, route + ":anonymous:" + x, "anonymous", y);
    AnonymousBetween(x, y);
    assert q.route == route + ":" + ("anonymous" + (":" + x)) by { assert ":anonymous:" == ":" + "anonymous" + ":"; }
    SwallowsByParts(p, q, ":" + x);
    SwallowedMeets(p, q);
    KeyUnfolds(p);
    KeyUnfolds(q);
    assert |q.route| > |p.route|;
  }

  lemma AnonymousBetween(x: string, y: string)
    ensures ":" + (x + ":anonymous:" + y) == (":" + x) + ":" + ("anonymous" + ":" + y)
  {
    assert ":anonymous:" == ":" + "anonymous" + ":";
  }
}
