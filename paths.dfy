/**
 * POSIX path helpers: `os.path.join` with two components, and
 * `os.path.relpath` restricted to a path that lies under the start directory.
 */
module Paths {
  import opened Text

  /** `os.path.join(a, b)` on POSIX: an absolute `b` replaces `a`; otherwise a
      single `/` is inserted unless `a` is empty or already ends with one. */
  function PathJoin(a: string, b: string): (r: string)
    ensures StartsWith(b, "/") ==> r == b
    ensures !StartsWith(b, "/") ==> EndsWith(r, b) && StartsWith(r, a)
    ensures !StartsWith(b, "/") && a != [] && !EndsWith(a, "/") ==> r == a + "/" + b
  {
    if StartsWith(b, "/") then b
    else if a == [] || EndsWith(a, "/") then a + b
    else a + "/" + b
  }

  /** The name part `b` can be read back off a join with a fixed directory. */
  lemma PathJoinInjective(a: string, b1: string, b2: string)
    requires !StartsWith(b1, "/") && !StartsWith(b2, "/")
    requires PathJoin(a, b1) == PathJoin(a, b2)
    ensures b1 == b2
  {
    var p := if a == [] || EndsWith(a, "/") then a else a + "/";
    assert PathJoin(a, b1) == p + b1 && PathJoin(a, b2) == p + b2;
    assert b1 == (p + b1)[|p|..] && b2 == (p + b2)[|p|..];
  }

  /** `os.path.relpath(path, start)` for a `path` of the form `start + "/" + rest`:
      the `rest`. Any other path is returned unchanged. */
  function RelPath(path: string, start: string): (r: string)
    ensures StartsWith(path, start + "/") ==> path == start + "/" + r
    ensures !StartsWith(path, start + "/") ==> r == path
  {
    if StartsWith(path, start + "/") then path[|start| + 1..] else path
  }

  /** Taking a directory off a path joined under it gives back the name. */
  lemma RelPathOfJoin(dir: string, name: string)
    requires dir != [] && !EndsWith(dir, "/") && !StartsWith(name, "/")
    ensures RelPath(PathJoin(dir, name), dir) == name
  {
    assert PathJoin(dir, name) == (dir + "/") + name;
  }
}
