// AuthMiddleware (ainewsback/middleware/auth_middleware.py): which request
// paths skip authentication, and the checks on the Authorization header that
// decide between a 401 answer and passing the request on. Token verification
// (JWTUtils.verify_token) is a parameter: None stands for its ValueError.
module AuthMiddleware {
  import opened Common

  /** The patterns used when none, or an empty list, is given. */
  const DefaultPaths: seq<string> := ["/user/api/v1/login/*", "/", "/info", "/docs", "/redoc", "/openapi.json"]

  /** `exclude_paths or default_paths`: None and the empty list both fall back to the defaults. */
  function Patterns(excludePaths: Option<seq<string>>): (ps: seq<string>)
    ensures excludePaths.None? || excludePaths == Some([]) ==> ps == DefaultPaths
    ensures excludePaths.Some? && excludePaths.value != [] ==> ps == excludePaths.value
  {
    if excludePaths.Some? && excludePaths.value != [] then excludePaths.value else DefaultPaths
  }

  /** A pattern ending in '*' is a prefix pattern. */
  predicate IsPrefixPattern(pattern: string)
  {
    |pattern| > 0 && pattern[|pattern| - 1] == '*'
  }

  /** The prefixes the loop of __init__ collects, in pattern order, each with its '*' cut off. */
  function PrefixesOf(patterns: seq<string>): seq<string>
  {
    if patterns == [] then []
    else
      var last := patterns[|patterns| - 1];
      PrefixesOf(patterns[..|patterns| - 1]) + if IsPrefixPattern(last) then [last[..|last| - 1]] else []
  }

  /** The exact paths the loop of __init__ collects. */
  function ExactOf(patterns: seq<string>): set<string>
  {
    if patterns == [] then {}
    else
      var last := patterns[|patterns| - 1];
      ExactOf(patterns[..|patterns| - 1]) + if IsPrefixPattern(last) then {} else {last}
  }

  /** Every pattern without '*' at its end is an exact path, and nothing else is. */
  lemma {:induction false} ExactOfPartitions(patterns: seq<string>, path: string)
    ensures path in ExactOf(patterns) <==> path in patterns && !IsPrefixPattern(path)
  {
    if patterns != [] {
      var front := patterns[..|patterns| - 1];
      ExactOfPartitions(front, path);
      assert patterns == front + [patterns[|patterns| - 1]];
    }
  }

  /** The prefixes are exactly the '*' patterns with the '*' removed. */
  lemma {:induction false} PrefixesOfPartitions(patterns: seq<string>, prefix: string)
    ensures prefix in PrefixesOf(patterns) <==>
      exists i :: 0 <= i < |patterns| && IsPrefixPattern(patterns[i]) && prefix == patterns[i][..|patterns[i]| - 1]
  {
    if patterns != [] {
      var front := patterns[..|patterns| - 1];
      PrefixesOfPartitions(front, prefix);
      assert forall i :: 0 <= i < |front| ==> front[i] == patterns[i];
    }
  }

  /** _is_excluded: the path is one of the exact paths, or starts with one of the prefixes. */
  function Excluded(exact: set<string>, prefixes: seq<string>, path: string): (r: bool)
    ensures r <==> path in exact || exists i :: 0 <= i < |prefixes| && StartsWith(path, prefixes[i])
  {
    path in exact || AnyPrefix(prefixes, path)
  }

  /** `any(path.startswith(prefix) for prefix in prefixes)`. */
  function AnyPrefix(prefixes: seq<string>, path: string): (r: bool)
    ensures r <==> exists i :: 0 <= i < |prefixes| && StartsWith(path, prefixes[i])
  {
    if prefixes == [] then false
    else
      assert forall i :: 0 < i < |prefixes| ==> prefixes[i] == prefixes[1..][i - 1];
      StartsWith(path, prefixes[0]) || AnyPrefix(prefixes[1..], path)
  }

  /** One more pattern adds its prefix, or its exact path, after those of the patterns before it. */
  lemma CollectOne(patterns: seq<string>, pattern: string)
    ensures PrefixesOf(patterns + [pattern]) ==
      PrefixesOf(patterns) + if IsPrefixPattern(pattern) then [pattern[..|pattern| - 1]] else []
    ensures ExactOf(patterns + [pattern]) == ExactOf(patterns) + if IsPrefixPattern(pattern) then {} else {pattern}
  {
    assert (patterns + [pattern])[..|patterns|] == patterns;
  }

  /** The loop of __init__ one pattern further on. */
  lemma CollectNext(patterns: seq<string>, i: nat)
    requires i < |patterns|
    ensures PrefixesOf(patterns[..i + 1]) ==
      PrefixesOf(patterns[..i]) + if IsPrefixPattern(patterns[i]) then [patterns[i][..|patterns[i]| - 1]] else []
    ensures ExactOf(patterns[..i + 1]) == ExactOf(patterns[..i]) + if IsPrefixPattern(patterns[i]) then {} else {patterns[i]}
  {
    assert patterns[..i + 1] == patterns[..i] + [patterns[i]];
    CollectOne(patterns[..i], patterns[i]);
  }

  /** The default configuration's prefixes: only the login routes. */
  lemma DefaultPrefixes()
    ensures PrefixesOf(DefaultPaths) == ["/user/api/v1/login/"]
  {
    var login := "/user/api/v1/login/*";
    assert IsPrefixPattern(login) && login[..|login| - 1] == "/user/api/v1/login/";
    assert !IsPrefixPattern("/") && !IsPrefixPattern("/info") && !IsPrefixPattern("/docs");
    assert !IsPrefixPattern("/redoc") && !IsPrefixPattern("/openapi.json");
    CollectOne([], login);
    assert [] + [login] == [login];
    CollectOne([login], "/");
    assert [login] + ["/"] == [login, "/"];
    CollectOne([login, "/"], "/info");
    assert [login, "/"] + ["/info"] == [login, "/", "/info"];
    CollectOne([login, "/", "/info"], "/docs");
    assert [login, "/", "/info"] + ["/docs"] == [login, "/", "/info", "/docs"];
    CollectOne([login, "/", "/info", "/docs"], "/redoc");
    assert [login, "/", "/info", "/docs"] + ["/redoc"] == [login, "/", "/info", "/docs", "/redoc"];
    CollectOne([login, "/", "/info", "/docs", "/redoc"], "/openapi.json");
    assert [login, "/", "/info", "/docs", "/redoc"] + ["/openapi.json"] == DefaultPaths;
  }

  /** The default configuration's exact paths: the root and the four documentation paths. */
  lemma DefaultExactPaths()
    ensures ExactOf(DefaultPaths) == {"/", "/info", "/docs", "/redoc", "/openapi.json"}
  {
    var login := "/user/api/v1/login/*";
    assert IsPrefixPattern(login);
    assert !IsPrefixPattern("/") && !IsPrefixPattern("/info") && !IsPrefixPattern("/docs");
    assert !IsPrefixPattern("/redoc") && !IsPrefixPattern("/openapi.json");
    CollectOne([], login);
    assert [] + [login] == [login];
    CollectOne([login], "/");
    assert [login] + ["/"] == [login, "/"];
    CollectOne([login, "/"], "/info");
    assert [login, "/"] + ["/info"] == [login, "/", "/info"];
    CollectOne([login, "/", "/info"], "/docs");
    assert [login, "/", "/info"] + ["/docs"] == [login, "/", "/info", "/docs"];
    CollectOne([login, "/", "/info", "/docs"], "/redoc");
    assert [login, "/", "/info", "/docs"] + ["/redoc"] == [login, "/", "/info", "/docs", "/redoc"];
    CollectOne([login, "/", "/info", "/docs", "/redoc"], "/openapi.json");
    assert [login, "/", "/info", "/docs", "/redoc"] + ["/openapi.json"] == DefaultPaths;
  }

  /** Under the defaults "/docs" is excluded but "/docs/x" is not; every login route is. */
  lemma DefaultExclusions()
    ensures Excluded(ExactOf(DefaultPaths), PrefixesOf(DefaultPaths), "/docs")
    ensures !Excluded(ExactOf(DefaultPaths), PrefixesOf(DefaultPaths), "/docs/x")
    ensures Excluded(ExactOf(DefaultPaths), PrefixesOf(DefaultPaths), "/user/api/v1/login/code")
    ensures !Excluded(ExactOf(DefaultPaths), PrefixesOf(DefaultPaths), "/user/api/v1/info")
  {
    DefaultPrefixes();
    DefaultExactPaths();
    assert !StartsWith("/docs/x", "/user/api/v1/login/");
    assert StartsWith("/user/api/v1/login/code", "/user/api/v1/login/");
    assert !StartsWith("/user/api/v1/info", "/user/api/v1/login/") by {
      assert "/user/api/v1/info"[13] != "/user/api/v1/login/"[13];
    }
  }

  /** str.partition(" "): before and after the first space, or the whole string and "" when there is none. */
  function Partition(s: string): (r: (string, string))
    ensures ' ' in s ==> r.0 + " " + r.1 == s && ' ' !in r.0
    ensures ' ' !in s ==> r == (s, "")
  {
    if s == [] then ("", "")
    else if s[0] == ' ' then ("", s[1..])
    else
      var (before, after) := Partition(s[1..]);
      assert s == [s[0]] + s[1..];
      assert ' ' in s ==> ' ' in s[1..];
      ([s[0]] + before, after)
  }

  function AsciiLower(c: char): char
  {
    if 'A' <= c <= 'Z' then (c as int + 32) as char else c
  }

  /**
   * `scheme.lower() == "bearer"`. Only ASCII capitals lower-case to these six
   * letters, so comparing letter by letter after ASCII lower-casing agrees
   * with Python's full lower().
   */
  predicate IsBearer(scheme: string)
  {
    |scheme| == 6 && forall i :: 0 <= i < 6 ==> AsciiLower(scheme[i]) == "bearer"[i]
  }

  lemma BearerSpellings()
    ensures IsBearer("Bearer") && IsBearer("bearer") && IsBearer("BEARER")
    ensures !IsBearer("Basic") && !IsBearer("Bearer ") && !IsBearer("Token")
  {
    assert AsciiLower("Basic"[1]) != "bearer"[1];
  }

  const NoAuthorization: string := "没有Authorization"
  const NoBearer: string := "没有bearer信息"
  const Unauthorized: string := "未授权"

  /** What dispatch does with a request: pass it on untouched, answer 401, or pass it on with the token's payload. */
  datatype Decision<P> = PassThrough | Reject(status: int, message: string) | Proceed(payload: P)

  /**
   * dispatch: excluded paths pass without any header check; then a missing or
   * empty header, a scheme other than bearer or an empty token, and a token
   * the verifier refuses each get their 401.
   */
  function Decide<P>(exact: set<string>, prefixes: seq<string>, path: string, authorization: Option<string>,
                     verify: string -> Option<P>): (d: Decision<P>)
    ensures d.PassThrough? <==> Excluded(exact, prefixes, path)
    ensures d == Reject(401, NoAuthorization) <==>
      !Excluded(exact, prefixes, path) && (authorization.None? || authorization == Some(""))
    ensures d == Reject(401, NoBearer) <==>
      (!Excluded(exact, prefixes, path) && authorization.Some? && authorization.value != "" &&
       (!IsBearer(Partition(authorization.value).0) || Partition(authorization.value).1 == ""))
    ensures d.Proceed? <==>
      (!Excluded(exact, prefixes, path) && authorization.Some? &&
       IsBearer(Partition(authorization.value).0) && Partition(authorization.value).1 != "" &&
       verify(Partition(authorization.value).1).Some?)
    ensures d.Proceed? ==> Some(d.payload) == verify(Partition(authorization.value).1)
    ensures d.Reject? ==> d.status == 401
  {
    if Excluded(exact, prefixes, path) then PassThrough
    else
      var header := if authorization.Some? then authorization.value else "";
      if header == "" then Reject(401, NoAuthorization)
      else
        var (scheme, token) := Partition(header);
        if !IsBearer(scheme) || token == "" then Reject(401, NoBearer)
        else
          match verify(token)
          case None => Reject(401, Unauthorized)
          case Some(payload) => Proceed(payload)
  }

  /** A well-formed "Bearer <token>" header reaches the verifier with exactly that token. */
  lemma BearerHeaderReachesVerifier<P>(exact: set<string>, prefixes: seq<string>, path: string, scheme: string,
                                       token: string, verify: string -> Option<P>)
    requires !Excluded(exact, prefixes, path)
    requires IsBearer(scheme) && token != ""
    ensures Partition(scheme + " " + token) == (scheme, token)
    ensures Decide(exact, prefixes, path, Some(scheme + " " + token), verify) ==
      if verify(token).Some? then Proceed(verify(token).value) else Reject(401, Unauthorized)
  {
    var header := scheme + " " + token;
    assert ' ' !in scheme by {
      assert forall i :: 0 <= i < 6 ==> AsciiLower(scheme[i]) != ' ';
    }
    assert header[|scheme|] == ' ';
    var (before, after) := Partition(header);
    SplitAtFirst(before, after, scheme, token, ' ');
  }

  /** The middleware's two collections, filled by its constructor. */
  class AuthMiddleware {
    var prefixPaths: seq<string>
    var excludePaths: set<string>

    /** __init__: each pattern goes to the prefixes (its '*' cut off) or to the exact paths. */
    constructor (given: Option<seq<string>>)
      ensures prefixPaths == PrefixesOf(Patterns(given))
      ensures excludePaths == ExactOf(Patterns(given))
    {
      prefixPaths := [];
      excludePaths := {};
      new;
      var patterns := Patterns(given);
      var i := 0;
      while i < |patterns|
        invariant 0 <= i <= |patterns|
        invariant prefixPaths == PrefixesOf(patterns[..i])
        invariant excludePaths == ExactOf(patterns[..i])
      {
        var path := patterns[i];
        CollectNext(patterns, i);
        if IsPrefixPattern(path) {
          prefixPaths := prefixPaths + [path[..|path| - 1]];
        } else {
          excludePaths := excludePaths + {path};
        }
        i := i + 1;
      }
      assert patterns[..|patterns|] == patterns;
    }

    /** _is_excluded: the path is one of the exact paths or starts with one of the prefixes. */
    function IsExcluded(path: string): (r: bool)
      reads this
      ensures r <==> path in excludePaths || exists i :: 0 <= i < |prefixPaths| && StartsWith(path, prefixPaths[i])
    {
      Excluded(excludePaths, prefixPaths, path)
    }

    /**
     * dispatch's decision for a request to `path` carrying `authorization`:
     * excluded paths pass untouched, and a guarded path proceeds only with
     * the payload the verifier returns for the bearer token.
     */
    function Dispatch<P>(path: string, authorization: Option<string>, verify: string -> Option<P>): (d: Decision<P>)
      reads this
      ensures d.PassThrough? <==> IsExcluded(path)
      ensures d.Proceed? ==> (authorization.Some? && IsBearer(Partition(authorization.value).0) &&
                              Some(d.payload) == verify(Partition(authorization.value).1))
      ensures d.Reject? ==> d.status == 401 && !IsExcluded(path)
      ensures d == Decide(excludePaths, prefixPaths, path, authorization, verify)
    {
      Decide(excludePaths, prefixPaths, path, authorization, verify)
    }
  }
}
