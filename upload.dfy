/**
 * The upload walk: `_uploadDirectory` recurses through the build directory and
 * `_uploadFile` turns each file (any entry that is not a directory) into one
 * putObject whose key is derived from the file's path by string surgery.
 */
module Upload {
  import opened JsString
  import opened Paths
  import opened S3

  /**
   * A directory entry as `fs.readdir` lists it and `fs.stat` classifies it: a
   * `Dir` is what `stats.isDirectory()` reports as one, and anything else is a `File`.
   */
  datatype Entry = File(name: string) | Dir(name: string, entries: seq<Entry>)

  // ---------------------------------------------------------------- the walk

  /**
   * The paths `_uploadDirectory(dir)` passes to `_uploadFile`: each entry is
   * joined to `dir`; a directory is recursed into, a file is uploaded.
   */
  function FilePaths(dir: string, entries: seq<Entry>, p: Platform): seq<string>
    decreases entries
  {
    if entries == [] then []
    else
      (match entries[0]
       case File(n) => [Join(dir, n, p)]
       case Dir(n, children) => FilePaths(Join(dir, n, p), children, p))
      + FilePaths(dir, entries[1..], p)
  }

  /** `filePath.replace(clientPath, '').substr(1).replace('\\', '/')`. */
  function ObjectKey(filePath: string, clientPath: string): string
  {
    Replace(Substr(Replace(filePath, clientPath, ""), 1), "\\", "/")
  }

  /** The putObject each path causes: the bucket, the derived key and `mime.lookup(filePath)`. */
  function UploadRequests(bucket: string, clientPath: string, paths: seq<string>, mime: string -> string)
    : (r: seq<Request>)
    ensures |r| == |paths|
    ensures forall i :: 0 <= i < |r| ==> r[i] == PutObject(bucket, ObjectKey(paths[i], clientPath), mime(paths[i]))
  {
    if paths == [] then []
    else [PutObject(bucket, ObjectKey(paths[0], clientPath), mime(paths[0]))]
         + UploadRequests(bucket, clientPath, paths[1..], mime)
  }

  /** The requests for two lists of paths are the two lists of requests, one after the other. */
  lemma {:induction false} UploadRequestsAppend(bucket: string, clientPath: string, a: seq<string>, b: seq<string>,
                                                mime: string -> string)
    ensures UploadRequests(bucket, clientPath, a + b, mime)
            == UploadRequests(bucket, clientPath, a, mime) + UploadRequests(bucket, clientPath, b, mime)
    decreases |a|
  {
    if a == [] {
      assert a + b == b;
    } else {
      assert (a + b)[0] == a[0];
      assert (a + b)[1..] == a[1..] + b;
      UploadRequestsAppend(bucket, clientPath, a[1..], b, mime);
    }
  }

  /** The paths one entry contributes: its own path for a file, the walk below it for a directory. */
  lemma FilePathsSingle(dir: string, e: Entry, p: Platform)
    ensures FilePaths(dir, [e], p) == if e.File? then [Join(dir, e.name, p)] else FilePaths(Join(dir, e.name, p), e.entries, p)
  {
    assert [e][1..] == [];
  }

  // ---------------------------------------------------------------- the tree, described without walking it

  /** Sibling names are distinct and free of the host's separator, at every level: any tree the host can hold. */
  predicate PortableOn(entries: seq<Entry>, p: Platform)
  {
    (forall i :: 0 <= i < |entries| ==> Name(entries[i].name, p))
    && (forall i, j :: 0 <= i < j < |entries| ==> entries[i].name != entries[j].name)
    && (forall i :: 0 <= i < |entries| && entries[i].Dir? ==> PortableOn(entries[i].entries, p))
  }

  /** Sibling names are distinct path segments, free of both separators, at every level. */
  predicate Portable(entries: seq<Entry>)
  {
    (forall i :: 0 <= i < |entries| ==> Segment(entries[i].name))
    && (forall i, j :: 0 <= i < j < |entries| ==> entries[i].name != entries[j].name)
    && (forall i :: 0 <= i < |entries| && entries[i].Dir? ==> Portable(entries[i].entries))
  }

  /** The name path `rel` leads through directories to an entry that is a directory iff `isDir`. */
  predicate Reaches(entries: seq<Entry>, rel: seq<string>, isDir: bool)
    decreases rel, 1
  {
    exists i :: 0 <= i < |entries| && EntryReaches(entries[i], rel, isDir)
  }

  /** `rel` starts at entry `e` and leads to an entry that is a directory iff `isDir`. */
  predicate EntryReaches(e: Entry, rel: seq<string>, isDir: bool)
    decreases rel, 0
  {
    rel != [] && e.name == rel[0]
    && if |rel| == 1 then e.Dir? == isDir else e.Dir? && Reaches(e.entries, rel[1..], isDir)
  }

  /** Names joined by the separator `c`. */
  function JoinNames(rel: seq<string>, c: char): string
  {
    if rel == [] then ""
    else if |rel| == 1 then rel[0]
    else rel[0] + [c] + JoinNames(rel[1..], c)
  }

  /** A string cut at every `c`; the inverse of JoinNames. */
  function Split(s: string, c: char): (r: seq<string>)
    ensures r != []
  {
    if s == [] then [""]
    else
      var rest := Split(s[1..], c);
      if s[0] == c then [""] + rest else [[s[0]] + rest[0]] + rest[1..]
  }

  /** The local path of the entry that `rel` names under `dir`. */
  function PathOf(dir: string, rel: seq<string>, p: Platform): string
  {
    dir + [Sep(p)] + JoinNames(rel, Sep(p))
  }

  predicate Distinct<T(==)>(s: seq<T>)
  {
    forall i, j :: 0 <= i < j < |s| ==> s[i] != s[j]
  }

  // ---------------------------------------------------------------- names and paths

  lemma {:induction false} SplitNoSep(s: string, c: char)
    requires c !in s
    ensures Split(s, c) == [s]
  {
    if s != [] {
      SplitNoSep(s[1..], c);
      assert [s[0]] + s[1..] == s;
    }
  }

  lemma {:induction false} SplitAfterName(n: string, c: char, rest: string)
    requires c !in n
    ensures Split(n + [c] + rest, c) == [n] + Split(rest, c)
  {
    if n == [] {
      assert n + [c] + rest == [c] + rest;
      assert ([c] + rest)[1..] == rest;
    } else {
      var s := n + [c] + rest;
      assert s[1..] == n[1..] + [c] + rest;
      SplitAfterName(n[1..], c, rest);
      assert [n[0]] + n[1..] == n;
    }
  }

  /** Splitting undoes joining, as long as no name contains the separator. */
  lemma {:induction false} SplitJoinNames(rel: seq<string>, c: char)
    requires rel != []
    requires forall k :: 0 <= k < |rel| ==> c !in rel[k]
    ensures Split(JoinNames(rel, c), c) == rel
  {
    if |rel| == 1 {
      SplitNoSep(rel[0], c);
    } else {
      SplitAfterName(rel[0], c, JoinNames(rel[1..], c));
      SplitJoinNames(rel[1..], c);
    }
  }

  lemma {:induction false} JoinNamesAvoids(rel: seq<string>, c: char, d: char)
    requires c != d
    requires forall k :: 0 <= k < |rel| ==> d !in rel[k]
    ensures d !in JoinNames(rel, c)
  {
    if |rel| > 1 {
      JoinNamesAvoids(rel[1..], c, d);
    }
  }

  /** Different name paths of host names lead to different local paths. */
  lemma PathOfInjective(dir: string, r1: seq<string>, r2: seq<string>, p: Platform)
    requires r1 != [] && r2 != []
    requires forall k :: 0 <= k < |r1| ==> Name(r1[k], p)
    requires forall k :: 0 <= k < |r2| ==> Name(r2[k], p)
    requires PathOf(dir, r1, p) == PathOf(dir, r2, p)
    ensures r1 == r2
  {
    var pre := dir + [Sep(p)];
    assert JoinNames(r1, Sep(p)) == PathOf(dir, r1, p)[|pre|..] == PathOf(dir, r2, p)[|pre|..] == JoinNames(r2, Sep(p));
    SplitJoinNames(r1, Sep(p));
    SplitJoinNames(r2, Sep(p));
  }

  lemma {:induction false} ReachesSegments(entries: seq<Entry>, rel: seq<string>, isDir: bool)
    requires Portable(entries) && Reaches(entries, rel, isDir)
    ensures rel != [] && forall k :: 0 <= k < |rel| ==> Segment(rel[k])
    decreases rel
  {
    var i :| 0 <= i < |entries| && EntryReaches(entries[i], rel, isDir);
    if |rel| > 1 {
      ReachesSegments(entries[i].entries, rel[1..], isDir);
      assert forall k :: 1 <= k < |rel| ==> rel[k] == rel[1..][k - 1];
    }
  }

  /** Every name on a path into a tree the host can hold is a host name. */
  lemma {:induction false} ReachesNames(entries: seq<Entry>, rel: seq<string>, isDir: bool, p: Platform)
    requires PortableOn(entries, p) && Reaches(entries, rel, isDir)
    ensures rel != [] && forall k :: 0 <= k < |rel| ==> Name(rel[k], p)
    decreases rel
  {
    var i :| 0 <= i < |entries| && EntryReaches(entries[i], rel, isDir);
    if |rel| > 1 {
      ReachesNames(entries[i].entries, rel[1..], isDir, p);
      assert forall k :: 1 <= k < |rel| ==> rel[k] == rel[1..][k - 1];
    }
  }

  /** A tree without either separator in its names is one every host can hold. */
  lemma {:induction false} PortableEverywhere(entries: seq<Entry>, p: Platform)
    requires Portable(entries)
    ensures PortableOn(entries, p)
    decreases entries
  {
    forall i | 0 <= i < |entries| && entries[i].Dir? ensures PortableOn(entries[i].entries, p) {
      PortableEverywhere(entries[i].entries, p);
    }
  }

  /** In a tree the host can hold no name path leads both to a file and to a directory. */
  lemma {:induction false} FileIsNotDir(entries: seq<Entry>, rel: seq<string>, p: Platform)
    requires PortableOn(entries, p)
    ensures Reaches(entries, rel, true) ==> !Reaches(entries, rel, false)
    decreases rel
  {
    if Reaches(entries, rel, true) {
      var i :| 0 <= i < |entries| && EntryReaches(entries[i], rel, true);
      if |rel| > 1 {
        FileIsNotDir(entries[i].entries, rel[1..], p);
      }
      forall j | 0 <= j < |entries| && entries[j].name == rel[0] ensures j == i { }
    }
  }

  // ---------------------------------------------------------------- the walk against the tree

  /** The first entry of a listing the host can hold, its children and the rest of the listing are held too. */
  lemma PortableParts(entries: seq<Entry>, p: Platform)
    requires PortableOn(entries, p) && entries != []
    ensures Name(entries[0].name, p) && PortableOn(entries[1..], p)
    ensures entries[0].Dir? ==> PortableOn(entries[0].entries, p)
  {
    forall k | 0 <= k < |entries[1..]| ensures entries[1..][k] == entries[k + 1] { }
  }

  lemma {:induction false} FilePathsAppend(dir: string, a: seq<Entry>, b: seq<Entry>, p: Platform)
    ensures FilePaths(dir, a + b, p) == FilePaths(dir, a, p) + FilePaths(dir, b, p)
    decreases a
  {
    if a == [] {
      assert a + b == b;
    } else {
      assert (a + b)[0] == a[0];
      assert (a + b)[1..] == a[1..] + b;
      FilePathsAppend(dir, a[1..], b, p);
    }
  }

  /** The paths the walk contributes for one entry, to which the walk of the rest is appended. */
  lemma FilePathsCons(dir: string, entries: seq<Entry>, p: Platform)
    requires entries != []
    ensures FilePaths(dir, entries, p) == FilePaths(dir, [entries[0]], p) + FilePaths(dir, entries[1..], p)
  {
    assert [entries[0]][1..] == [];
  }

  /** A file path of a non-empty listing comes from its first entry or from the rest. */
  lemma FilePathsSplit(dir: string, entries: seq<Entry>, q: string, p: Platform)
    requires entries != [] && q in FilePaths(dir, entries, p)
    ensures q in FilePaths(dir, [entries[0]], p) || q in FilePaths(dir, entries[1..], p)
  {
    FilePathsCons(dir, entries, p);
  }

  /** A path one level down is the directory's path joined with the rest of the names. */
  lemma PathOfStep(dir: string, n: string, sub: seq<string>, p: Platform)
    requires DirPath(dir, p) && sub != []
    ensures PathOf(dir, [n] + sub, p) == PathOf(Join(dir, n, p), sub, p)
  {
    assert ([n] + sub)[1..] == sub;
  }

  /** Every file of the tree is handed to `_uploadFile`. */
  lemma {:induction false} WalkComplete(dir: string, entries: seq<Entry>, rel: seq<string>, p: Platform)
    requires DirPath(dir, p) && PortableOn(entries, p) && Reaches(entries, rel, false)
    ensures PathOf(dir, rel, p) in FilePaths(dir, entries, p)
    decreases entries
  {
    FilePathsCons(dir, entries, p);
    PortableParts(entries, p);
    var e := entries[0];
    if EntryReaches(e, rel, false) {
      var d := Join(dir, e.name, p);
      if |rel| == 1 {
        assert FilePaths(dir, [e], p) == [d];
      } else {
        assert FilePaths(dir, [e], p) == FilePaths(d, e.entries, p);
        WalkComplete(d, e.entries, rel[1..], p);
        PathOfStep(dir, e.name, rel[1..], p);
        assert [e.name] + rel[1..] == rel;
      }
    } else {
      var i :| 0 <= i < |entries| && EntryReaches(entries[i], rel, false);
      assert entries[1..][i - 1] == entries[i];
      WalkComplete(dir, entries[1..], rel, p);
    }
  }

  /** Everything handed to `_uploadFile` is a file of the tree, reached through its first name. */
  lemma {:induction false} WalkSound(dir: string, entries: seq<Entry>, q: string, p: Platform)
    returns (rel: seq<string>, i: nat)
    requires DirPath(dir, p) && PortableOn(entries, p) && q in FilePaths(dir, entries, p)
    ensures i < |entries| && EntryReaches(entries[i], rel, false)
    ensures Reaches(entries, rel, false) && q == PathOf(dir, rel, p)
    decreases entries, 1
  {
    FilePathsSplit(dir, entries, q, p);
    PortableParts(entries, p);
    var e := entries[0];
    if q in FilePaths(dir, [e], p) {
      i := 0;
      rel := WalkSoundHead(dir, e, q, p);
    } else {
      var j;
      rel, j := WalkSound(dir, entries[1..], q, p);
      i := j + 1;
      assert entries[1..][j] == entries[i];
    }
    assert EntryReaches(entries[i], rel, false);
  }

  /** Everything the walk hands on for the single entry `e` is a file reached through `e`. */
  lemma {:induction false} WalkSoundHead(dir: string, e: Entry, q: string, p: Platform) returns (rel: seq<string>)
    requires DirPath(dir, p) && Name(e.name, p) && (e.Dir? ==> PortableOn(e.entries, p)) && q in FilePaths(dir, [e], p)
    ensures EntryReaches(e, rel, false) && q == PathOf(dir, rel, p)
    decreases e, 0
  {
    var d := Join(dir, e.name, p);
    FilePathsSingle(dir, e, p);
    if e.File? {
      rel := [e.name];
    } else {
      var sub, _ := WalkSound(d, e.entries, q, p);
      rel := [e.name] + sub;
      assert rel[1..] == sub;
      PathOfStep(dir, e.name, sub, p);
    }
  }

  /** The walk hands no file to `_uploadFile` twice. */
  lemma {:induction false} WalkDistinct(dir: string, entries: seq<Entry>, p: Platform)
    requires DirPath(dir, p) && PortableOn(entries, p)
    ensures Distinct(FilePaths(dir, entries, p))
    decreases entries
  {
    if entries != [] {
      PortableParts(entries, p);
      var e := entries[0];
      var d := Join(dir, e.name, p);
      var head := FilePaths(dir, [e], p);
      var tail := FilePaths(dir, entries[1..], p);
      FilePathsCons(dir, entries, p);
      assert Distinct(head) by {
        if e.Dir? {
          assert head == FilePaths(d, e.entries, p);
          WalkDistinct(d, e.entries, p);
        }
      }
      WalkDistinct(dir, entries[1..], p);
      forall x | x in head ensures x !in tail {
        var r1, i1 := WalkSound(dir, [e], x, p);
        ReachesNames([e], r1, false, p);
        if x in tail {
          var r2, i2 := WalkSound(dir, entries[1..], x, p);
          ReachesNames(entries[1..], r2, false, p);
          PathOfInjective(dir, r1, r2, p);
        }
      }
      forall i, j | 0 <= i < j < |head + tail| ensures (head + tail)[i] != (head + tail)[j] {
        if i < |head| && |head| <= j {
          assert (head + tail)[i] in head;
          assert (head + tail)[j] in tail;
        }
      }
    }
  }

  lemma {:induction false} DistinctOnce<T>(s: seq<T>, x: T)
    requires Distinct(s) && x in s
    ensures multiset(s)[x] == 1
  {
    assert s == [s[0]] + s[1..];
    if s[0] == x {
      assert x !in s[1..];
    } else {
      DistinctOnce(s[1..], x);
    }
  }

  /**
   * Every file reachable under the root is uploaded exactly once, and
   * no directory is uploaded.
   */
  lemma EveryFileOnce(dir: string, entries: seq<Entry>, rel: seq<string>, p: Platform)
    requires DirPath(dir, p) && PortableOn(entries, p)
    ensures Reaches(entries, rel, false) ==> multiset(FilePaths(dir, entries, p))[PathOf(dir, rel, p)] == 1
    ensures Reaches(entries, rel, true) ==> PathOf(dir, rel, p) !in FilePaths(dir, entries, p)
  {
    WalkDistinct(dir, entries, p);
    if Reaches(entries, rel, false) {
      WalkComplete(dir, entries, rel, p);
      DistinctOnce(FilePaths(dir, entries, p), PathOf(dir, rel, p));
    }
    if Reaches(entries, rel, true) {
      ReachesNames(entries, rel, true, p);
      FileIsNotDir(entries, rel, p);
      if PathOf(dir, rel, p) in FilePaths(dir, entries, p) {
        var r, i := WalkSound(dir, entries, PathOf(dir, rel, p), p);
        ReachesNames(entries, r, false, p);
        PathOfInjective(dir, r, rel, p);
      }
    }
  }

  // ---------------------------------------------------------------- object keys

  /**
   * On POSIX the key of `clientPath + "/" + rel` is `rel` with its first
   * backslash made a slash, and so exactly `rel` when `rel` holds no backslash.
   */
  lemma PosixKey(clientPath: string, rel: string)
    ensures ObjectKey(clientPath + "/" + rel, clientPath) == Replace(rel, "\\", "/")
    ensures '\\' !in rel ==> ObjectKey(clientPath + "/" + rel, clientPath) == rel
  {
    var rest := "/" + rel;
    assert clientPath + "/" + rel == clientPath + rest;
    ReplacePrefix(clientPath, rest, "");
    assert "" + rest == rest;
    assert Substr(rest, 1) == rel;
    if '\\' !in rel {
      ReplaceAbsent(rel, '\\', "/");
    }
  }

  /** On Windows the key of `clientPath + "\\" + rel` is `rel` with only its first backslash made a slash. */
  lemma WindowsKey(clientPath: string, rel: string)
    ensures ObjectKey(clientPath + "\\" + rel, clientPath) == Replace(rel, "\\", "/")
  {
    var rest := "\\" + rel;
    assert clientPath + "\\" + rel == clientPath + rest;
    ReplacePrefix(clientPath, rest, "");
    assert "" + rest == rest;
    assert Substr(rest, 1) == rel;
  }

  /** On POSIX a file's key is its path relative to the build directory, names joined by `/`. */
  lemma PosixFileKey(clientPath: string, rel: seq<string>)
    requires forall k :: 0 <= k < |rel| ==> Segment(rel[k])
    ensures ObjectKey(PathOf(clientPath, rel, Posix), clientPath) == JoinNames(rel, '/')
  {
    JoinNamesAvoids(rel, '/', '\\');
    PosixKey(clientPath, JoinNames(rel, '/'));
  }

  /**
   * On Windows only the first separator of the relative path becomes `/`: a
   * file two or more directories deep keeps a backslash in its key.
   */
  lemma WindowsFileKey(clientPath: string, rel: seq<string>)
    requires |rel| >= 2 && forall k :: 0 <= k < |rel| ==> Segment(rel[k])
    ensures ObjectKey(PathOf(clientPath, rel, Windows), clientPath) == rel[0] + "/" + JoinNames(rel[1..], '\\')
    ensures |rel| >= 3 <==> '\\' in ObjectKey(PathOf(clientPath, rel, Windows), clientPath)
  {
    var tail := JoinNames(rel[1..], '\\');
    assert JoinNames(rel, '\\') == rel[0] + "\\" + tail;
    WindowsKey(clientPath, JoinNames(rel, '\\'));
    ReplaceFirstChar(rel[0], '\\', tail, "/");
    if |rel| >= 3 {
      assert tail == rel[1] + "\\" + JoinNames(rel[2..], '\\');
      assert tail[|rel[1]|] == '\\';
    } else {
      assert tail == rel[1];
    }
  }

  /** The walk of a build folder holding the file `d\\n` and the directory `d` with the file `n`. */
  lemma BackslashTreeWalk(clientPath: string, d: string, n: string)
    requires DirPath(clientPath, Posix) && Segment(d)
    ensures FilePaths(clientPath, [File(d + "\\" + n), Dir(d, [File(n)])], Posix)
            == [clientPath + "/" + (d + "\\" + n), clientPath + "/" + (d + "/" + n)]
  {
    var tree := [File(d + "\\" + n), Dir(d, [File(n)])];
    var sub := Join(clientPath, d, Posix);
    assert tree[1..] == [tree[1]];
    FilePathsSingle(clientPath, tree[1], Posix);
    FilePathsSingle(sub, File(n), Posix);
    assert Join(sub, n, Posix) == clientPath + "/" + (d + "/" + n);
    assert FilePaths(clientPath, tree[1..], Posix) == [clientPath + "/" + (d + "/" + n)];
  }

  /** POSIX can hold the file `d\\n` beside the directory `d`, though the tree is not free of both separators. */
  lemma BackslashTreeHeld(d: string, n: string)
    requires Segment(d) && Segment(n)
    ensures PortableOn([File(d + "\\" + n), Dir(d, [File(n)])], Posix)
    ensures !Portable([File(d + "\\" + n), Dir(d, [File(n)])])
  {
    var tree := [File(d + "\\" + n), Dir(d, [File(n)])];
    var m := d + "\\" + n;
    assert m[|d|] == '\\';
    assert |m| != |d|;
    assert forall k :: 0 <= k < |m| ==> m[k] != '/' by {
      forall k | 0 <= k < |m| ensures m[k] != '/' {
        if k < |d| { assert m[k] == d[k]; } else if k > |d| { assert m[k] == n[k - |d| - 1]; }
      }
    }
    assert PortableOn([File(n)], Posix);
    assert '\\' in tree[0].name && !Segment(tree[0].name);
  }

  /**
   * POSIX allows a backslash in a file name, and the key rewrites it as if it
   * were a separator: the file `d\\n` and the file `n` in the directory `d` are
   * two different paths that the walk uploads under the same key `d/n`.
   */
  lemma PosixBackslashCollision(bucket: string, clientPath: string, mime: string -> string, d: string, n: string)
    requires DirPath(clientPath, Posix) && Segment(d) && Segment(n)
    ensures PortableOn([File(d + "\\" + n), Dir(d, [File(n)])], Posix) && !Portable([File(d + "\\" + n), Dir(d, [File(n)])])
    ensures var paths := FilePaths(clientPath, [File(d + "\\" + n), Dir(d, [File(n)])], Posix);
            var plan := UploadRequests(bucket, clientPath, paths, mime);
            && |plan| == 2 && paths[0] != paths[1]
            && plan[0].key == d + "/" + n && plan[1].key == d + "/" + n
  {
    BackslashTreeHeld(d, n);
    BackslashTreeWalk(clientPath, d, n);
    BackslashKeys(clientPath, d, n);
    var p0, p1 := clientPath + "/" + (d + "\\" + n), clientPath + "/" + (d + "/" + n);
    assert p0[|clientPath| + 1 + |d|] != p1[|clientPath| + 1 + |d|];
  }

  /** On POSIX `dir\\name` and `dir/name` under the build folder get the same key. */
  lemma BackslashKeys(clientPath: string, dir: string, name: string)
    requires Segment(dir) && Segment(name)
    ensures ObjectKey(clientPath + "/" + (dir + "\\" + name), clientPath) == dir + "/" + name
    ensures ObjectKey(clientPath + "/" + (dir + "/" + name), clientPath) == dir + "/" + name
  {
    PosixKey(clientPath, dir + "\\" + name);
    ReplaceFirstChar(dir, '\\', name, "/");
    PosixKey(clientPath, dir + "/" + name);
  }

  /** Different portable name paths give different POSIX keys. */
  lemma PosixKeyInjective(r1: seq<string>, r2: seq<string>)
    requires r1 != [] && r2 != []
    requires forall k :: 0 <= k < |r1| ==> Segment(r1[k])
    requires forall k :: 0 <= k < |r2| ==> Segment(r2[k])
    requires JoinNames(r1, '/') == JoinNames(r2, '/')
    ensures r1 == r2
  {
    SplitJoinNames(r1, '/');
    SplitJoinNames(r2, '/');
  }

  /** On POSIX every upload of the walk `plan` is the one for a file below the build folder. */
  lemma PosixUploadSound(bucket: string, clientPath: string, entries: seq<Entry>, mime: string -> string,
                         plan: seq<Request>, i: nat)
    requires DirPath(clientPath, Posix) && Portable(entries)
    requires plan == UploadRequests(bucket, clientPath, FilePaths(clientPath, entries, Posix), mime) && i < |plan|
    ensures exists rel :: Reaches(entries, rel, false) && plan[i] == PutObject(bucket, JoinNames(rel, '/'), mime(PathOf(clientPath, rel, Posix)))
  {
    var paths := FilePaths(clientPath, entries, Posix);
    PortableEverywhere(entries, Posix);
    var rel, _ := WalkSound(clientPath, entries, paths[i], Posix);
    ReachesSegments(entries, rel, false);
    PosixFileKey(clientPath, rel);
    assert plan[i] == PutObject(bucket, JoinNames(rel, '/'), mime(PathOf(clientPath, rel, Posix)));
  }

  /** On POSIX every file below the build folder has its upload in the walk `plan`. */
  lemma PosixUploadComplete(bucket: string, clientPath: string, entries: seq<Entry>, mime: string -> string,
                            plan: seq<Request>, rel: seq<string>)
    requires DirPath(clientPath, Posix) && Portable(entries) && Reaches(entries, rel, false)
    requires plan == UploadRequests(bucket, clientPath, FilePaths(clientPath, entries, Posix), mime)
    ensures exists i :: 0 <= i < |plan| && plan[i] == PutObject(bucket, JoinNames(rel, '/'), mime(PathOf(clientPath, rel, Posix)))
  {
    var paths := FilePaths(clientPath, entries, Posix);
    PortableEverywhere(entries, Posix);
    WalkComplete(clientPath, entries, rel, Posix);
    ReachesSegments(entries, rel, false);
    PosixFileKey(clientPath, rel);
    var i :| 0 <= i < |paths| && paths[i] == PathOf(clientPath, rel, Posix);
    assert plan[i] == PutObject(bucket, JoinNames(rel, '/'), mime(PathOf(clientPath, rel, Posix)));
  }

  /** On POSIX two uploads of the walk `plan` never share a key. */
  lemma PosixUploadKeyPair(bucket: string, clientPath: string, entries: seq<Entry>, mime: string -> string,
                           plan: seq<Request>, i: nat, j: nat)
    requires DirPath(clientPath, Posix) && Portable(entries)
    requires plan == UploadRequests(bucket, clientPath, FilePaths(clientPath, entries, Posix), mime)
    requires i < j < |plan|
    ensures plan[i].key != plan[j].key
  {
    var paths := FilePaths(clientPath, entries, Posix);
    PortableEverywhere(entries, Posix);
    WalkDistinct(clientPath, entries, Posix);
    var r1, _ := WalkSound(clientPath, entries, paths[i], Posix);
    var r2, _ := WalkSound(clientPath, entries, paths[j], Posix);
    ReachesSegments(entries, r1, false);
    ReachesSegments(entries, r2, false);
    PosixFileKey(clientPath, r1);
    PosixFileKey(clientPath, r2);
    if plan[i].key == plan[j].key {
      PosixKeyInjective(r1, r2);
    }
  }
}
