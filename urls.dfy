/**
 * `to_original_url` and `to_organ_url` (app/main.py): a file path under one
 * of the served directories becomes a URL under its mount point.
 */
module Urls {
  import opened Wrappers
  import opened Text
  import opened Paths

  /** `s.replace("\\", "/")`. */
  function ForwardSlashes(s: string): (r: string)
    ensures |r| == |s| && '\\' !in r
    ensures forall i :: 0 <= i < |s| ==> r[i] == (if s[i] == '\\' then '/' else s[i])
  {
    seq(|s|, i requires 0 <= i < |s| => if s[i] == '\\' then '/' else s[i])
  }

  /** A path without backslashes is left alone. */
  lemma ForwardSlashesUnchanged(s: string)
    requires '\\' !in s
    ensures ForwardSlashes(s) == s
  {
  }

  /** `to_original_url(path)`: the path relative to the upload directory,
      under the `/files` mount. */
  function ToOriginalUrl(path: string, uploadDir: string): (r: string)
    ensures StartsWith(r, "/files/") && '\\' !in r
  {
    var r := "/files/" + ForwardSlashes(RelPath(path, uploadDir));
    assert r[..7] == "/files/";
    r
  }

  /** `to_organ_url(path)`: no URL for a missing or empty path, otherwise
      the path relative to the organ directory under the `/organs` mount. */
  function ToOrganUrl(path: Option<string>, organDir: string): (r: Option<string>)
    ensures r.None? <==> path.None? || path.value == []
    ensures r.Some? ==> StartsWith(r.value, "/organs/") && '\\' !in r.value
  {
    if path.None? || path.value == [] then None
    else
      var u := "/organs/" + ForwardSlashes(RelPath(path.value, organDir));
      assert u[..8] == "/organs/";
      Some(u)
  }

  /** A file joined under the upload directory is served at its name. */
  lemma OriginalUrlOfJoin(uploadDir: string, name: string)
    requires uploadDir != [] && !EndsWith(uploadDir, "/") && !StartsWith(name, "/") && '\\' !in name
    ensures ToOriginalUrl(PathJoin(uploadDir, name), uploadDir) == "/files/" + name
  {
    RelPathOfJoin(uploadDir, name);
    ForwardSlashesUnchanged(name);
  }

  /** A catalog image joined under the organ directory is served at its
      file name. */
  lemma OrganUrlOfJoin(organDir: string, name: string)
    requires organDir != [] && !EndsWith(organDir, "/") && name != [] && !StartsWith(name, "/") && '\\' !in name
    ensures ToOrganUrl(Some(PathJoin(organDir, name)), organDir) == Some("/organs/" + name)
  {
    RelPathOfJoin(organDir, name);
    ForwardSlashesUnchanged(name);
  }
}
