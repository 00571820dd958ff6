/**
 * Node's `path.join` as the plugin uses it: a base directory joined with
 * single path segments, on either platform.
 */
module Paths {

  /** The operating system the CLI runs on decides the separator `path.join` writes. */
  datatype Platform = Posix | Windows

  function Sep(p: Platform): char
  {
    match p
    case Posix => '/'
    case Windows => '\\'
  }

  /** A directory path as `path.join` produces it: non-empty and without a trailing separator. */
  predicate DirPath(dir: string, p: Platform)
  {
    dir != [] && dir[|dir| - 1] != Sep(p)
  }

  /** A single path segment: non-empty and free of both separators. */
  predicate Segment(name: string)
  {
    name != [] && '/' !in name && '\\' !in name
  }

  /** A single path segment as the host sees it: non-empty and free of the host's separator. */
  predicate Name(name: string, p: Platform)
  {
    name != [] && Sep(p) !in name
  }

  /** `path.join(base, name)` for a single segment `name`. */
  function Join(base: string, name: string, p: Platform): (r: string)
    ensures DirPath(base, p) ==> r == base + [Sep(p)] + name
    ensures Name(name, p) ==> DirPath(r, p)
    ensures Segment(name) ==> DirPath(r, p)
  {
    if base == [] then name
    else if base[|base| - 1] == Sep(p) then base + name
    else base + [Sep(p)] + name
  }

  /** `path.join(servicePath, 'client', 'dist')`, the build directory the plugin deploys. */
  function ClientDistPath(servicePath: string, p: Platform): (r: string)
    ensures DirPath(r, p)
    ensures |r| >= 4 && r[|r| - 4..] == "dist"
    ensures DirPath(servicePath, p) ==> r == servicePath + [Sep(p)] + "client" + [Sep(p)] + "dist"
    ensures servicePath == [] ==> r == "client" + [Sep(p)] + "dist"
  {
    Join(Join(servicePath, "client", p), "dist", p)
  }
}
