/** Where `Site.render` in stapler.py writes each route: the route path
    turned into a file name relative to the output directory, joined onto
    that directory with POSIX `os.path.join`. */
module Output {
  import opened Wrappers
  import opened Config

  /** The file name a directory-like path is served from. */
  const IndexName := "index.html"

  /** `path.endswith('/')`. */
  predicate EndsWithSlash(s: string) {
    |s| > 0 && s[|s| - 1] == '/'
  }

  /** `path.startswith('/')`. */
  predicate StartsWithSlash(s: string) {
    |s| > 0 && s[0] == '/'
  }

  /** The output file name of a route path: a path ending in `/` gets
      `index.html` appended, then one leading `/`, if any, is dropped. */
  function OutPath(path: string): (name: string) {
    var p := if EndsWithSlash(path) then path + IndexName else path;
    if StartsWithSlash(p) then p[1..] else p
  }

  /** The output name is the path without its leading `/`, followed by
      `index.html` when the path ends with `/`: its length is the path's,
      plus 10 for a trailing `/`, minus 1 for a leading one, and every
      other character of the path is kept verbatim and in place. */
  lemma OutPathShape(path: string)
    ensures var drop := if StartsWithSlash(path) then 1 else 0;
      && |OutPath(path)| == |path| + (if EndsWithSlash(path) then |IndexName| else 0) - drop
      && (forall i :: drop <= i < |path| ==> OutPath(path)[i - drop] == path[i])
      && (EndsWithSlash(path) ==> OutPath(path)[|path| - drop..] == IndexName)
  {
    var drop := if StartsWithSlash(path) then 1 else 0;
    var p := if EndsWithSlash(path) then path + IndexName else path;
    assert StartsWithSlash(p) <==> StartsWithSlash(path);
    assert OutPath(path) == p[drop..];
    if EndsWithSlash(path) {
      assert p[|path|..] == IndexName;
      assert p[drop..][|path| - drop..] == p[|path|..];
    }
  }

  /** The root page, a directory page and a plain page. */
  lemma OutPathExamples()
    ensures OutPath("/") == "index.html"
    ensures OutPath("/blog/") == "blog/index.html"
    ensures OutPath("/about") == "about"
  {
  }

  /** No output name ends with `/`, so it always names a file. */
  lemma OutPathIsFile(path: string)
    ensures !EndsWithSlash(OutPath(path))
  {
    var o := OutPath(path);
    OutPathShape(path);
    if EndsWithSlash(path) {
      var drop := if StartsWithSlash(path) then 1 else 0;
      assert o[|o| - 1] == o[|path| - drop..][|IndexName| - 1];
    } else if |o| > 0 {
      var drop := if StartsWithSlash(path) then 1 else 0;
      assert o[|o| - 1] == path[|path| - 1];
    }
  }

  /** Only one leading `/` is removed: a path starting with `//` gives an
      output name that still starts with `/`. */
  lemma OutPathDropsOneSlash(path: string)
    requires |path| >= 2 && path[0] == '/' && path[1] == '/'
    ensures StartsWithSlash(OutPath(path))
  {
    OutPathShape(path);
  }

  /** Route paths and output names that do not end with `/` correspond one
      to one: putting the leading `/` back onto an output name gives the
      route that produces it. */
  lemma OutPathOfRoute(name: string)
    requires |name| > 0 && !EndsWithSlash(name)
    ensures OutPath("/" + name) == name
  {
  }

  /** The only way two route paths share an output file: one is a
      directory path `d/` and the other is `d/index.html`. */
  lemma OutPathCollisions(p: string, q: string)
    requires StartsWithSlash(p) && StartsWithSlash(q) && OutPath(p) == OutPath(q)
    ensures || p == q
            || (EndsWithSlash(p) && q == p + IndexName)
            || (EndsWithSlash(q) && p == q + IndexName)
  {
    OutPathShape(p);
    OutPathShape(q);
    var o := OutPath(p);
    if EndsWithSlash(p) == EndsWithSlash(q) {
      assert p == "/" + o[..|p| - 1] || p == "/" + o by {
        if EndsWithSlash(p) {
          assert p == "/" + o[..|p| - 1];
        } else {
          assert p == "/" + o;
        }
      }
      assert q == "/" + o[..|q| - 1] || q == "/" + o by {
        if EndsWithSlash(q) {
          assert q == "/" + o[..|q| - 1];
        } else {
          assert q == "/" + o;
        }
      }
    } else if EndsWithSlash(p) {
      assert p + IndexName == "/" + o;
      assert q == "/" + o;
    } else {
      assert q + IndexName == "/" + o;
      assert p == "/" + o;
    }
  }

  /** `d/` and `d/index.html` do collide. */
  lemma DirectoryAndIndexCollide(d: string)
    ensures OutPath(d + "/") == OutPath(d + "/" + IndexName)
  {
    var p := d + "/";
    assert EndsWithSlash(p);
    if |d| == 0 {
      assert OutPath(p) == IndexName;
    } else {
      assert (p + IndexName)[0] == d[0];
    }
  }

  /** `os.path.join(a, b)` on POSIX: an absolute `b` replaces `a`;
      otherwise `b` is appended, with a `/` in between unless `a` is empty
      or already ends with one. */
  function Join(a: string, b: string): (p: string) {
    if StartsWithSlash(b) then b
    else if |a| == 0 || EndsWithSlash(a) then a + b
    else a + "/" + b
  }

  /** The file a route is written to: `os.path.join(self.outdir, path)`. */
  function OutFile(outdir: string, route: Route): (file: string) {
    Join(outdir, OutPath(route.path))
  }

  /** Unless the path starts with `//`, its output name is relative. */
  lemma OutPathRelative(path: string)
    requires !(|path| >= 2 && path[0] == '/' && path[1] == '/')
    ensures !StartsWithSlash(OutPath(path))
  {
    OutPathShape(path);
    if |path| >= 2 && StartsWithSlash(path) {
      assert OutPath(path)[0] == path[1];
    }
  }

  /** With an output directory that does not end in `/`, a route whose path
      does not start with `//` is written inside that directory, under its
      output name. */
  lemma OutFileInside(outdir: string, route: Route)
    requires |outdir| > 0 && !EndsWithSlash(outdir)
    requires !(|route.path| >= 2 && route.path[0] == '/' && route.path[1] == '/')
    ensures OutFile(outdir, route) == outdir + "/" + OutPath(route.path)
  {
    OutPathRelative(route.path);
  }

  /** A route whose path starts with `//` keeps an absolute output name,
      and `os.path.join` discards the output directory for it: the page is
      written to that absolute name, wherever it points. */
  lemma OutFileEscapes(outdir: string, route: Route)
    requires |route.path| >= 2 && route.path[0] == '/' && route.path[1] == '/'
    ensures OutFile(outdir, route) == OutPath(route.path)
    ensures StartsWithSlash(OutFile(outdir, route))
  {
    OutPathDropsOneSlash(route.path);
  }

  /** The files written for `routes`, in order. */
  function OutFiles(outdir: string, routes: seq<Route>): (files: seq<string>) {
    seq(|routes|, k requires 0 <= k < |routes| => OutFile(outdir, routes[k]))
  }

  /** The loop of `Site.render`: for each route, look its template up (the
      lookup raises when no such template exists) and write the output file.
      Returns the files written, in order, and the template whose lookup
      failed, if any. */
  method Render(outdir: string, routes: seq<Route>, templates: set<string>)
    returns (written: seq<string>, missing: Option<string>)
    ensures missing == None <==> forall k :: 0 <= k < |routes| ==> routes[k].template in templates
    ensures missing == None ==> written == OutFiles(outdir, routes)
    ensures missing.Some? ==>
      && |written| < |routes|
      && written == OutFiles(outdir, routes[..|written|])
      && routes[|written|].template == missing.value
      && missing.value !in templates
      && forall k :: 0 <= k < |written| ==> routes[k].template in templates
  {
    written := [];
    var i := 0;
    while i < |routes|
      invariant 0 <= i <= |routes|
      invariant written == OutFiles(outdir, routes[..i])
      invariant forall k :: 0 <= k < i ==> routes[k].template in templates
    {
      var route := routes[i];
      if route.template !in templates {
        return written, Some(route.template);
      }
      written := written + [OutFile(outdir, route)];
      i := i + 1;
    }
    assert routes[..i] == routes;
    missing := None;
  }
}
