/**
 * The file system the application writes to, reduced to what it observes:
 * which paths exist and how many bytes each holds. Directories are implicit.
 */
module Storage {

  class Disk {
    /** Existing files and their sizes in bytes. */
    var files: map<string, nat>

    constructor(initial: map<string, nat>)
      ensures files == initial
    {
      files := initial;
    }

    /** `open(path, "wb").write(contents)`: creates or replaces the file. */
    method Write(path: string, size: nat)
      modifies this
      ensures files == old(files)[path := size]
    {
      files := files[path := size];
    }

    /** `os.remove(path)` for a path that exists. */
    method Remove(path: string)
      requires path in files
      modifies this
      ensures files == old(files) - {path}
    {
      files := files - {path};
    }

  }

  /** The files after writing `sizes[k]` bytes to `paths[k]` for k in order. */
  function WriteAll(files: map<string, nat>, paths: seq<string>, sizes: seq<nat>): map<string, nat>
    requires |paths| == |sizes|
  {
    if paths == [] then files
    else WriteAll(files, paths[..|paths| - 1], sizes[..|sizes| - 1])[paths[|paths| - 1] := sizes[|sizes| - 1]]
  }

  lemma WriteAllSnoc(files: map<string, nat>, paths: seq<string>, sizes: seq<nat>, path: string, size: nat)
    requires |paths| == |sizes|
    ensures WriteAll(files, paths + [path], sizes + [size]) == WriteAll(files, paths, sizes)[path := size]
  {
    assert (paths + [path])[..|paths|] == paths;
    assert (sizes + [size])[..|sizes|] == sizes;
  }

  /** Writing adds exactly the written paths. */
  lemma {:induction false} WriteAllKeys(files: map<string, nat>, paths: seq<string>, sizes: seq<nat>)
    requires |paths| == |sizes|
    ensures WriteAll(files, paths, sizes).Keys == files.Keys + set k | 0 <= k < |paths| :: paths[k]
    decreases |paths|
  {
    if paths != [] {
      var n := |paths| - 1;
      WriteAllKeys(files, paths[..n], sizes[..n]);
      assert (set k | 0 <= k < |paths| :: paths[k]) == (set k | 0 <= k < n :: paths[..n][k]) + {paths[n]};
    }
  }

  /** Files that are not written keep their size. */
  lemma {:induction false} WriteAllOthers(files: map<string, nat>, paths: seq<string>, sizes: seq<nat>, path: string)
    requires |paths| == |sizes| && path in files && path !in paths
    ensures path in WriteAll(files, paths, sizes) && WriteAll(files, paths, sizes)[path] == files[path]
    decreases |paths|
  {
    if paths != [] {
      var n := |paths| - 1;
      assert paths == paths[..n] + [paths[n]];
      WriteAllOthers(files, paths[..n], sizes[..n], path);
    }
  }

  /** With distinct paths, each written path holds what was written to it. */
  lemma {:induction false} WriteAllValues(files: map<string, nat>, paths: seq<string>, sizes: seq<nat>, k: nat)
    requires |paths| == |sizes| && k < |paths|
    requires forall i, j :: 0 <= i < j < |paths| ==> paths[i] != paths[j]
    ensures paths[k] in WriteAll(files, paths, sizes) && WriteAll(files, paths, sizes)[paths[k]] == sizes[k]
    decreases |paths|
  {
    var n := |paths| - 1;
    if k < n {
      WriteAllValues(files, paths[..n], sizes[..n], k);
    }
  }

  /** Writing distinct paths: each holds what was written to it, exactly
      those paths are added, and every other file is untouched. */
  lemma WriteAllContents(files: map<string, nat>, paths: seq<string>, sizes: seq<nat>)
    requires |paths| == |sizes|
    requires forall i, j :: 0 <= i < j < |paths| ==> paths[i] != paths[j]
    ensures WriteAll(files, paths, sizes).Keys == files.Keys + set k | 0 <= k < |paths| :: paths[k]
    ensures forall k :: 0 <= k < |paths| ==> WriteAll(files, paths, sizes)[paths[k]] == sizes[k]
    ensures forall path :: path in files && path !in paths ==> WriteAll(files, paths, sizes)[path] == files[path]
  {
    WriteAllKeys(files, paths, sizes);
    forall k | 0 <= k < |paths| ensures WriteAll(files, paths, sizes)[paths[k]] == sizes[k] {
      WriteAllValues(files, paths, sizes, k);
    }
    forall path | path in files && path !in paths ensures WriteAll(files, paths, sizes)[path] == files[path] {
      WriteAllOthers(files, paths, sizes, path);
    }
  }
}
