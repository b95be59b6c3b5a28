/**
 * The file collector of the scanner (getAllFilesInFolder): a depth-first walk
 * over a directory tree that keeps the regular files whose extension is on the
 * allow-list and whose size is not zero.
 *
 * The file system is a value: a directory is the ordered list of the entries a
 * listing of it returns, a file has a name and a size in bytes.
 */
module Collector {

  /** One entry of a directory listing. */
  datatype Entry =
    | File(name: string, size: nat)
    | Dir(name: string, entries: seq<Entry>)

  /** A regular file met by the walk, with the path the walk built for it. */
  datatype Located = Located(path: string, name: string, size: nat)

  /** The extensions the scanner sends to the analysis service. */
  const Extensions: seq<string> := [".js", ".java", ".cs"]

  /** Joining a directory path and an entry name (no normalisation). */
  function Join(dir: string, name: string): (p: string)
    ensures |p| == |dir| + 1 + |name| && p[..|dir|] == dir && p[|dir|] == '/'
    ensures p[|dir| + 1..] == name
  {
    dir + "/" + name
  }

  /** Index of the last '.' in `s`, or -1 when there is none. */
  function LastDot(s: string): (k: int)
    ensures -1 <= k < |s|
    ensures k >= 0 ==> s[k] == '.'
    ensures forall j :: k < j < |s| ==> s[j] != '.'
  {
    if s == [] then -1
    else if s[|s| - 1] == '.' then |s| - 1
    else LastDot(s[..|s| - 1])
  }

  /**
   * The extension of a file name as the platform's path library computes it:
   * the suffix from the last '.', or "" when there is no '.', or when the last
   * '.' is the first character (a hidden file such as ".eslintrc").
   */
  function ExtName(name: string): (ext: string)
    ensures ext == "" <==> forall j :: 0 < j < |name| ==> name[j] != '.'
    ensures ext != "" ==>
      && |ext| < |name|
      && ext == name[|name| - |ext|..]
      && ext[0] == '.'
      && forall j :: 0 < j < |ext| ==> ext[j] != '.'
  {
    var k := LastDot(name);
    if k <= 0 then "" else name[k..]
  }

  /** The filter a regular file must pass to be scanned. */
  predicate Kept(name: string, size: nat)
  {
    ExtName(name) in Extensions && size > 0
  }

  /**
   * Every regular file under the directory `dir` whose listing is `es`, at any
   * depth, in depth-first listing order. Directories contribute only the files
   * beneath them, never themselves.
   */
  function Walk(dir: string, es: seq<Entry>): seq<Located>
    decreases es
  {
    if es == [] then []
    else
      (match es[0]
       case File(n, s) => [Located(Join(dir, n), n, s)]
       case Dir(n, sub) => Walk(Join(dir, n), sub))
      + Walk(dir, es[1..])
  }

  /** The paths of the files of `ls` that pass the filter, in order. */
  function KeptPaths(ls: seq<Located>): seq<string>
  {
    if ls == [] then []
    else (if Kept(ls[0].name, ls[0].size) then [ls[0].path] else []) + KeptPaths(ls[1..])
  }

  /**
   * `f` is a regular file somewhere under the directory `dir` whose listing is
   * `es`: an entry of the listing itself, or a file under one of its
   * sub-directories.
   */
  ghost predicate Under(dir: string, es: seq<Entry>, f: Located)
    decreases es
  {
    exists i :: 0 <= i < |es| &&
      match es[i]
      case File(n, s) => f == Located(Join(dir, n), n, s)
      case Dir(n, sub) => Under(Join(dir, n), sub, f)
  }

  /**
   * getAllFilesInFolder: lists `dir`, recurses into sub-directories and splices
   * their results in at their position, and appends every regular file that
   * passes the filter.
   */
  method GetAllFilesInFolder(dir: string, entries: seq<Entry>) returns (files: seq<string>)
    ensures files == KeptPaths(Walk(dir, entries))
    decreases entries
  {
    files := [];
    for i := 0 to |entries|
      invariant files == KeptPaths(Walk(dir, entries[..i]))
    {
      ghost var done := Walk(dir, entries[..i]);
      assert entries[..i + 1] == entries[..i] + [entries[i]];
      WalkAppend(dir, entries[..i], [entries[i]]);
      KeptPathsAppend(done, Walk(dir, [entries[i]]));
      WalkOne(dir, entries[i]);
      match entries[i]
      case Dir(name, sub) =>
        var nested := GetAllFilesInFolder(Join(dir, name), sub);
        files := files + nested;
      case File(name, size) =>
        if ExtName(name) in Extensions && size > 0 {
          files := files + [Join(dir, name)];
        }
    }
    assert entries[..|entries|] == entries;
  }

  /** What the walk yields for a listing of one entry, and which of it is kept. */
  lemma WalkOne(dir: string, e: Entry)
    ensures e.Dir? ==> Walk(dir, [e]) == Walk(Join(dir, e.name), e.entries)
    ensures e.File? ==> Walk(dir, [e]) == [Located(Join(dir, e.name), e.name, e.size)]
    ensures e.File? ==>
      KeptPaths(Walk(dir, [e])) == if Kept(e.name, e.size) then [Join(dir, e.name)] else []
  {
    assert [e][1..] == [];
  }

  lemma {:induction false} WalkAppend(dir: string, a: seq<Entry>, b: seq<Entry>)
    ensures Walk(dir, a + b) == Walk(dir, a) + Walk(dir, b)
  {
    if a == [] {
      assert a + b == b;
    } else {
      assert (a + b)[1..] == a[1..] + b;
      WalkAppend(dir, a[1..], b);
    }
  }

  lemma {:induction false} KeptPathsAppend(a: seq<Located>, b: seq<Located>)
    ensures KeptPaths(a + b) == KeptPaths(a) + KeptPaths(b)
  {
    if a == [] {
      assert a + b == b;
    } else {
      var head := if Kept(a[0].name, a[0].size) then [a[0].path] else [];
      assert (a + b)[0] == a[0];
      assert (a + b)[1..] == a[1..] + b;
      assert KeptPaths(a + b) == head + KeptPaths(a[1..] + b);
      KeptPathsAppend(a[1..], b);
    }
  }

  /** A path is returned exactly when some file of the walk with that path passes the filter. */
  lemma {:induction false} KeptPathsMembership(ls: seq<Located>, p: string)
    ensures p in KeptPaths(ls) <==>
      exists i :: 0 <= i < |ls| && ls[i].path == p && Kept(ls[i].name, ls[i].size)
  {
    if ls != [] {
      KeptPathsMembership(ls[1..], p);
      if p in KeptPaths(ls[1..]) {
        var i :| 0 <= i < |ls[1..]| && ls[1..][i].path == p && Kept(ls[1..][i].name, ls[1..][i].size);
        assert ls[i + 1] == ls[1..][i];
      }
      if exists i :: 0 <= i < |ls| && ls[i].path == p && Kept(ls[i].name, ls[i].size) {
        var i :| 0 <= i < |ls| && ls[i].path == p && Kept(ls[i].name, ls[i].size);
        if i > 0 {
          assert ls[1..][i - 1] == ls[i];
        }
      }
    }
  }

  /** The walk meets exactly the regular files under the directory, at any depth. */
  lemma {:induction false} WalkIsUnder(dir: string, es: seq<Entry>, f: Located)
    ensures f in Walk(dir, es) <==> Under(dir, es, f)
    decreases es
  {
    if es != [] {
      WalkIsUnder(dir, es[1..], f);
      match es[0]
      case File(n, s) =>
      case Dir(n, sub) => WalkIsUnder(Join(dir, n), sub, f);
      if f in Walk(dir, es) {
        if f in Walk(dir, es[1..]) {
          var i :| 0 <= i < |es[1..]| && match es[1..][i]
            case File(n, s) => f == Located(Join(dir, n), n, s)
            case Dir(n, sub) => Under(Join(dir, n), sub, f);
          assert es[i + 1] == es[1..][i];
        } else {
          assert es[0] == es[0];
        }
      }
      if Under(dir, es, f) {
        var i :| 0 <= i < |es| && match es[i]
          case File(n, s) => f == Located(Join(dir, n), n, s)
          case Dir(n, sub) => Under(Join(dir, n), sub, f);
        if i > 0 {
          assert es[1..][i - 1] == es[i];
          assert Under(dir, es[1..], f);
        } else {
          match es[0]
          case File(n, s) =>
          case Dir(n, sub) => WalkIsUnder(Join(dir, n), sub, f);
        }
      }
    }
  }

  /**
   * The collector returns exactly the paths of the regular files under the root,
   * at any depth, whose extension is allowed and whose size is greater than 0.
   */
  lemma CollectedExactly(root: string, es: seq<Entry>, p: string)
    ensures p in KeptPaths(Walk(root, es)) <==>
      exists f :: Under(root, es, f) && f.path == p && ExtName(f.name) in Extensions && f.size > 0
  {
    var ls := Walk(root, es);
    KeptPathsMembership(ls, p);
    if p in KeptPaths(ls) {
      var i :| 0 <= i < |ls| && ls[i].path == p && Kept(ls[i].name, ls[i].size);
      WalkIsUnder(root, es, ls[i]);
    }
    if exists f :: Under(root, es, f) && f.path == p && ExtName(f.name) in Extensions && f.size > 0 {
      var f :| Under(root, es, f) && f.path == p && ExtName(f.name) in Extensions && f.size > 0;
      WalkIsUnder(root, es, f);
      var i :| 0 <= i < |ls| && ls[i] == f;
    }
  }

  /**
   * Depth-first order: the results of a sub-directory are spliced in at that
   * directory's position among its siblings.
   */
  lemma CollectSplicesSubdirectory(dir: string, before: seq<Entry>, name: string, sub: seq<Entry>, after: seq<Entry>)
    ensures KeptPaths(Walk(dir, before + [Dir(name, sub)] + after)) ==
      KeptPaths(Walk(dir, before)) + KeptPaths(Walk(Join(dir, name), sub)) + KeptPaths(Walk(dir, after))
  {
    WalkAppend(dir, before + [Dir(name, sub)], after);
    WalkAppend(dir, before, [Dir(name, sub)]);
    assert Walk(dir, [Dir(name, sub)]) == Walk(Join(dir, name), sub) by {
      assert [Dir(name, sub)][1..] == [];
    }
    KeptPathsAppend(Walk(dir, before) + Walk(Join(dir, name), sub), Walk(dir, after));
    KeptPathsAppend(Walk(dir, before), Walk(Join(dir, name), sub));
  }

  /**
   * A root holding a.js (10 bytes), b.txt (10 bytes), an empty c.java and
   * sub/d.cs (5 bytes) yields a.js and then sub/d.cs.
   */
  lemma ExampleTree(root: string)
    ensures KeptPaths(Walk(root, [File("a.js", 10), File("b.txt", 10), File("c.java", 0), Dir("sub", [File("d.cs", 5)])]))
      == [Join(root, "a.js"), Join(Join(root, "sub"), "d.cs")]
  {
    var a, b, c, d := File("a.js", 10), File("b.txt", 10), File("c.java", 0), File("d.cs", 5);
    ExampleNames();
    var sub := Dir("sub", [d]);
    SplitListing(a, b, c, sub);
    CollectSplicesSubdirectory(root, [a, b, c], "sub", [d], []);
    WalkOne(Join(root, "sub"), d);
    WalkOne(root, a);
    WalkOne(root, b);
    WalkOne(root, c);
    WalkAppend(root, [a] + [b], [c]);
    WalkAppend(root, [a], [b]);
    KeptPathsAppend(Walk(root, [a]) + Walk(root, [b]), Walk(root, [c]));
    KeptPathsAppend(Walk(root, [a]), Walk(root, [b]));
  }

  /** The example's four-entry listing, split as the splice and append lemmas take it. */
  lemma SplitListing(a: Entry, b: Entry, c: Entry, d: Entry)
    ensures [a, b, c, d] == [a, b, c] + [d] + []
    ensures [a, b, c] == [a] + [b] + [c]
  {
  }

  /** Which of the example's files pass the filter. */
  lemma ExampleNames()
    ensures Kept("a.js", 10) && !Kept("b.txt", 10) && !Kept("c.java", 0) && Kept("d.cs", 5)
  {
    assert LastDot("a.js") == 1 by { assert "a.js"[..3] == "a.j" && "a.j"[..2] == "a."; }
    assert LastDot("b.txt") == 1 by {
      assert "b.txt"[..4] == "b.tx" && "b.tx"[..3] == "b.t" && "b.t"[..2] == "b.";
    }
    assert ".txt" != ".js" && ".txt" != ".java" && ".txt" != ".cs" by { assert ".txt"[1] == 't'; }
    assert LastDot("d.cs") == 1 by { assert "d.cs"[..3] == "d.c" && "d.c"[..2] == "d."; }
  }
}
