/** The static file server of server/static.go: a file-serving handler rooted
    at a directory of the runfiles, optionally wrapped by a handler that
    rewrites every request whose path starts with one of the configured root
    paths to "/" (single-page-application fallback to the index). */
module Static {
  import opened Wrappers

  // ---------------------------------------------------------------------------
  // Path matching and the rewrite

  /** strings.HasPrefix: `prefix` is an initial segment of `s`. */
  predicate HasPrefix(s: string, prefix: string) {
    |prefix| <= |s| && s[..|prefix|] == prefix
  }

  /** One iteration of the rewrite loop: the CURRENT path is replaced by "/"
      when it starts with `rootPath`. */
  function RewriteStep(path: string, rootPath: string): (r: string)
    ensures r == "/" || r == path
    ensures r != path ==> HasPrefix(path, rootPath)
    ensures HasPrefix(r, rootPath) ==> r == "/"
  {
    if HasPrefix(path, rootPath) then "/" else path
  }

  /** The rewrite loop as written: the root paths are tried in order, each
      against the path as the previous iterations left it. */
  function RewriteLoop(rootPaths: seq<string>, path: string): (r: string)
    ensures r == "/" || r == path
    decreases |rootPaths|
  {
    if rootPaths == [] then path
    else RewriteStep(RewriteLoop(rootPaths[..|rootPaths| - 1], path), rootPaths[|rootPaths| - 1])
  }

  /** Some configured root path is a prefix of `path`. */
  predicate AnyRootPathMatches(rootPaths: seq<string>, path: string) {
    exists rootPath :: rootPath in rootPaths && HasPrefix(path, rootPath)
  }

  /** Reference definition of the rewrite: "/" when any root path matches the
      original path, the original path otherwise. */
  function RootRewrite(rootPaths: seq<string>, path: string): string {
    if AnyRootPathMatches(rootPaths, path) then "/" else path
  }

  lemma AnyRootPathMatchesSnoc(rootPaths: seq<string>, path: string)
    requires rootPaths != []
    ensures AnyRootPathMatches(rootPaths, path) <==>
      AnyRootPathMatches(rootPaths[..|rootPaths| - 1], path) || HasPrefix(path, rootPaths[|rootPaths| - 1])
  {
    var init, last := rootPaths[..|rootPaths| - 1], rootPaths[|rootPaths| - 1];
    assert rootPaths == init + [last];
    if AnyRootPathMatches(rootPaths, path) {
      var rootPath :| rootPath in rootPaths && HasPrefix(path, rootPath);
      assert rootPath in init || rootPath == last;
    }
  }

  /** A path already rewritten to "/" stays "/" under one more iteration. */
  lemma RootIsFixedByStep(rootPath: string)
    ensures RewriteStep("/", rootPath) == "/"
  {
  }

  /** The loop computes the closed form: "/" exactly when some root path is a
      prefix of the ORIGINAL path, even though each iteration tests the
      current one. */
  lemma {:induction false} LoopMatchesClosedForm(rootPaths: seq<string>, path: string)
    ensures RewriteLoop(rootPaths, path) == RootRewrite(rootPaths, path)
  {
    if rootPaths != [] {
      var init, last := rootPaths[..|rootPaths| - 1], rootPaths[|rootPaths| - 1];
      LoopMatchesClosedForm(init, path);
      AnyRootPathMatchesSnoc(rootPaths, path);
      if AnyRootPathMatches(init, path) {
        RootIsFixedByStep(last);
      }
    }
  }

  /** The rewritten path is "/" if and only if some root path matches the
      original path, or the original path already was "/". */
  lemma RewriteIsRootIff(rootPaths: seq<string>, path: string)
    ensures RewriteLoop(rootPaths, path) == "/" <==> AnyRootPathMatches(rootPaths, path) || path == "/"
  {
    LoopMatchesClosedForm(rootPaths, path);
  }

  /** A path no root path matches is left exactly as it was. */
  lemma UnmatchedPathUnchanged(rootPaths: seq<string>, path: string)
    requires forall rootPath :: rootPath in rootPaths ==> !HasPrefix(path, rootPath)
    ensures RewriteLoop(rootPaths, path) == path
  {
    LoopMatchesClosedForm(rootPaths, path);
  }

  /** Running the loop over `a` and then over `b` is running it over `a + b`. */
  lemma {:induction false} LoopConcat(a: seq<string>, b: seq<string>, path: string)
    ensures RewriteLoop(a + b, path) == RewriteLoop(b, RewriteLoop(a, path))
    decreases |b|
  {
    if b == [] {
      assert a + b == a;
    } else {
      var init, last := b[..|b| - 1], b[|b| - 1];
      LoopConcat(a, init, path);
      assert (a + b)[..|a + b| - 1] == a + init;
      assert (a + b)[|a + b| - 1] == last;
    }
  }

  /** Once an iteration has rewritten the path to "/", the later iterations
      cannot change it to anything else. */
  lemma {:induction false} RootStaysRoot(done: seq<string>, rest: seq<string>, path: string)
    requires RewriteLoop(done, path) == "/"
    ensures RewriteLoop(done + rest, path) == "/"
  {
    LoopConcat(done, rest, path);
    LoopMatchesClosedForm(rest, "/");
  }

  /** The order of the root paths does not matter. */
  lemma OrderIndependent(a: seq<string>, b: seq<string>, path: string)
    requires multiset(a) == multiset(b)
    ensures RewriteLoop(a, path) == RewriteLoop(b, path)
  {
    LoopMatchesClosedForm(a, path);
    LoopMatchesClosedForm(b, path);
    forall rootPath
      ensures rootPath in a <==> rootPath in b
    {
      assert rootPath in a <==> rootPath in multiset(a);
      assert rootPath in b <==> rootPath in multiset(b);
    }
  }

  /** Rewriting an already rewritten path changes nothing. */
  lemma RewriteIdempotent(rootPaths: seq<string>, path: string)
    ensures RewriteLoop(rootPaths, RewriteLoop(rootPaths, path)) == RewriteLoop(rootPaths, path)
  {
    LoopMatchesClosedForm(rootPaths, path);
    LoopMatchesClosedForm(rootPaths, RewriteLoop(rootPaths, path));
  }

  /** The empty root path is a prefix of every path, so it sends every request
      to "/". */
  lemma EmptyRootPathMatchesAll(rootPaths: seq<string>, path: string)
    requires "" in rootPaths
    ensures RewriteLoop(rootPaths, path) == "/"
  {
    assert HasPrefix(path, "");
    LoopMatchesClosedForm(rootPaths, path);
  }

  // ---------------------------------------------------------------------------
  // Handlers and requests

  /** The directory `filepath.Join(runfiles, relPath)`, left uninterpreted. */
  datatype StaticDir = StaticDir(runfiles: string, relPath: string)

  /** The handler chain: the file server of a directory, possibly wrapped by
      the root-path rewriter. */
  datatype Handler =
    | FileServer(dir: StaticDir)
    | RootPathHandler(rootPaths: seq<string>, inner: Handler)

  /** One invocation of the file server: the directory it serves from and the
      request path it was handed. */
  datatype Served = Served(dir: StaticDir, path: string)

  /** The file-server invocation that one request with `path` produces when it
      goes through `h`. */
  function Dispatch(h: Handler, path: string): (r: Served)
    ensures r.path == path || r.path == "/"
  {
    match h
    case FileServer(dir) => Served(dir, path)
    case RootPathHandler(rootPaths, inner) => Dispatch(inner, RewriteLoop(rootPaths, path))
  }

  /** The request, as far as the handlers use it: its URL path, which the
      rewriter overwrites in place. */
  class Request {
    var path: string

    constructor (path: string)
      ensures this.path == path
    {
      this.path := path;
    }
  }

  /** The calls reaching the file-serving primitive, in order. What the
      primitive then does (file contents, listings, 404) is not modelled. */
  class CallLog {
    var served: seq<Served>

    constructor ()
      ensures served == []
    {
      served := [];
    }
  }

  /** Runs a request through `h`: the file server is invoked exactly once,
      with the path the chain makes of the original one, and the request
      keeps that path afterwards. */
  method Serve(h: Handler, r: Request, log: CallLog)
    modifies r, log
    ensures log.served == old(log.served) + [Dispatch(h, old(r.path))]
    ensures r.path == Dispatch(h, old(r.path)).path
    decreases h, 0
  {
    match h
    case FileServer(dir) =>
      log.served := log.served + [Served(dir, r.path)];
    case RootPathHandler(rootPaths, inner) =>
      LoopMatchesClosedForm(rootPaths, r.path);
      ServeRootPaths(rootPaths, inner, r, log);
  }

  /** The handler built by handleRootPaths: one pass over the root paths that
      may overwrite the request path with "/", then exactly one call of the
      inner handler. */
  method ServeRootPaths(rootPaths: seq<string>, inner: Handler, r: Request, log: CallLog)
    modifies r, log
    ensures log.served == old(log.served) + [Dispatch(inner, RootRewrite(rootPaths, old(r.path)))]
    ensures r.path == Dispatch(inner, RootRewrite(rootPaths, old(r.path))).path
    decreases inner, 1
  {
    ghost var original := r.path;
    for i := 0 to |rootPaths|
      modifies r
      invariant r.path == RewriteLoop(rootPaths[..i], original)
    {
      if HasPrefix(r.path, rootPaths[i]) {
        r.path := "/";
      }
      assert rootPaths[..i + 1][..i] == rootPaths[..i];
    }
    assert rootPaths[..|rootPaths|] == rootPaths;
    LoopMatchesClosedForm(rootPaths, original);
    Serve(inner, r, log);
  }

  /** The wrapping decision of NewStaticFileServer: the rewriter is installed
      only for a non-empty list of root paths, and either way the file server
      sees the path the rewrite loop makes of the request path. */
  function WrapHandler(dir: StaticDir, rootPaths: seq<string>): (h: Handler)
    ensures h.FileServer? <==> |rootPaths| == 0
    ensures forall path :: Dispatch(h, path) == Served(dir, RewriteLoop(rootPaths, path))
  {
    var fileServer := FileServer(dir);
    if |rootPaths| > 0 then RootPathHandler(rootPaths, fileServer) else fileServer
  }

  /** Without root paths no wrapper is installed, and serving is the same as
      through a rewriter with nothing to match. */
  lemma NoRootPathsIsIdentity(dir: StaticDir, path: string)
    ensures WrapHandler(dir, []) == FileServer(dir)
    ensures Dispatch(WrapHandler(dir, []), path) == Dispatch(RootPathHandler([], FileServer(dir)), path)
    ensures Dispatch(WrapHandler(dir, []), path) == Served(dir, path)
  {
  }

  datatype StaticError = RunfilesUnavailable

  class StaticFileServer {
    const handler: Handler

    constructor (handler: Handler)
      ensures this.handler == handler
    {
      this.handler := handler;
    }

    /** ServeHTTP delegates to the handler chain chosen at construction. */
    method ServeHTTP(r: Request, log: CallLog)
      modifies r, log
      ensures log.served == old(log.served) + [Dispatch(handler, old(r.path))]
      ensures r.path == Dispatch(handler, old(r.path)).path
    {
      Serve(handler, r, log);
    }
  }

  /** NewStaticFileServer. `runfiles` is what bazel.RunfilesPath reported
      (None for its error): that error is returned; otherwise the server
      holds the file server of the joined directory, wrapped by the rewriter
      when there are root paths. */
  method NewStaticFileServer(runfiles: Option<string>, relPath: string, rootPaths: seq<string>)
    returns (r: Result<StaticFileServer, StaticError>)
    ensures runfiles.None? ==> r == Failure(RunfilesUnavailable)
    ensures runfiles.Some? ==> r.Success? && fresh(r.value)
    ensures runfiles.Some? ==> r.value.handler == WrapHandler(StaticDir(runfiles.value, relPath), rootPaths)
  {
    if runfiles.None? {
      return Failure(RunfilesUnavailable);
    }
    var pkgStaticDir := StaticDir(runfiles.value, relPath);
    var handler := FileServer(pkgStaticDir);
    if |rootPaths| > 0 {
      handler := RootPathHandler(rootPaths, handler);
    }
    var server := new StaticFileServer(handler);
    return Success(server);
  }
}
