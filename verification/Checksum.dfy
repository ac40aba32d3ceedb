/**
 The byte stream that `makeChecksum` (topolib/fs.go) feeds to its hasher: byte 0, the relative path,
 byte 1, the contents, for every file in walk order. The hash itself is taken as ideal, so the stream
 stands for the checksum.
 */
module Checksum {
  import opened Options

  type byte = x: int | 0 <= x < 256

  datatype File = File(path: seq<byte>, contents: seq<byte>)

  /** The regular files of a directory, in walk order. Directories do not reach the hasher. */
  type Tree = seq<File>

  function Frame(tree: Tree): seq<byte> {
    if tree == [] then []
    else [0] + Named(tree[0].path, tree[0].contents + Frame(tree[1..]))
  }

  /** A path, byte 1, and what follows. */
  function Named(path: seq<byte>, rest: seq<byte>): seq<byte> {
    path + ([1] + rest)
  }

  /** Paths that cannot be confused with the two marks. */
  predicate CleanPath(path: seq<byte>) {
    0 !in path && 1 !in path
  }

  predicate CleanPaths(tree: Tree) {
    forall f :: f in tree ==> CleanPath(f.path)
  }

  predicate CleanContents(tree: Tree) {
    forall f :: f in tree ==> 0 !in f.contents
  }

  // ----- decoding

  /** Position of the first b in s, or |s|. */
  function Find(s: seq<byte>, b: byte): (i: nat)
    ensures i <= |s| && b !in s[..i] && (i < |s| ==> s[i] == b)
  {
    if s == [] || s[0] == b then 0
    else
      var i := 1 + Find(s[1..], b);
      assert s[..i] == [s[0]] + s[1..][..i - 1];
      i
  }

  function Parse(s: seq<byte>): Option<Tree>
    decreases |s|
  {
    if s == [] then Some([])
    else if s[0] != 0 then None
    else
      var p := Find(s[1..], 1);
      if p == |s| - 1 then None
      else
        var rest := s[p + 2..];
        var c := Find(rest, 0);
        var tail := Parse(rest[c..]);
        if tail.None? then None else Some([File(s[1..p + 1], rest[..c])] + tail.value)
  }

  lemma FindSkips(a: seq<byte>, b: byte, rest: seq<byte>)
    requires b !in a
    ensures Find(a + ([b] + rest), b) == |a|
    ensures Find(a, b) == |a|
  {
    var s := a + ([b] + rest);
    var i, j := Find(s, b), Find(a, b);
    assert forall k :: 0 <= k < |a| ==> s[k] == a[k];
    assert s[|a|] == b;
    assert forall k :: 0 <= k < i ==> s[..i][k] == s[k];
  }

  lemma NamedParts(path: seq<byte>, rest: seq<byte>)
    requires 1 !in path
    ensures Find(Named(path, rest), 1) == |path|
    ensures Named(path, rest)[..|path|] == path
    ensures Named(path, rest)[|path| + 1..] == rest
  {
    FindSkips(path, 1, rest);
  }

  /** Contents without byte 0 end where the next frame begins. */
  lemma ContentsParts(contents: seq<byte>, tree: Tree)
    requires 0 !in contents
    ensures Find(contents + Frame(tree), 0) == |contents|
  {
    var tail := Frame(tree);
    if tail == [] {
      FindSkips(contents, 0, []);
      assert contents + tail == contents;
    } else {
      FindSkips(contents, 0, tail[1..]);
      assert tail == [0] + tail[1..];
    }
  }

  /** Where Parse cuts the frame of a file followed by more. */
  lemma CutPoints(f: File, tree: Tree)
    requires 1 !in f.path && 0 !in f.contents
    ensures var after := f.contents + Frame(tree);
      var s := [0] + Named(f.path, after);
      && Find(s[1..], 1) == |f.path| && |f.path| < |s| - 1
      && s[1..|f.path| + 1] == f.path
      && s[|f.path| + 2..] == after
      && Find(after, 0) == |f.contents|
      && after[..|f.contents|] == f.contents
      && after[|f.contents|..] == Frame(tree)
  {
    var after := f.contents + Frame(tree);
    var s := [0] + Named(f.path, after);
    NamedParts(f.path, after);
    ContentsParts(f.contents, tree);
    assert s[1..] == Named(f.path, after);
    assert s[|f.path| + 2..] == s[1..][|f.path| + 1..];
    assert s[1..|f.path| + 1] == s[1..][..|f.path|];
  }

  lemma ParseOne(f: File, tree: Tree)
    requires 1 !in f.path && 0 !in f.contents && Parse(Frame(tree)) == Some(tree)
    ensures Parse([0] + Named(f.path, f.contents + Frame(tree))) == Some([f] + tree)
  {
    CutPoints(f, tree);
  }

  /** Decoding undoes framing when paths avoid 0 and 1 and contents avoid 0. */
  lemma {:induction false} RoundTrip(tree: Tree)
    requires CleanPaths(tree) && CleanContents(tree)
    ensures Parse(Frame(tree)) == Some(tree)
    decreases |tree|
  {
    if tree != [] {
      assert tree[0] in tree;
      assert forall g :: g in tree[1..] ==> g in tree;
      var f, rest := tree[0], tree[1..];
      RoundTrip(rest);
      ParseOne(f, rest);
      assert Frame(tree) == [0] + Named(f.path, f.contents + Frame(rest));
      assert tree == [f] + rest;
    }
  }

  /** Hence different clean trees have different checksums. */
  lemma CleanInjective(a: Tree, b: Tree)
    requires CleanPaths(a) && CleanContents(a) && CleanPaths(b) && CleanContents(b)
    requires Frame(a) == Frame(b)
    ensures a == b
  {
    RoundTrip(a);
    RoundTrip(b);
  }

  // ----- what a walk of a directory can list

  const SLASH: byte := 47
  const DOT: byte := 46

  /** The components of a path, split at every slash. */
  function Parts(p: seq<byte>): (parts: seq<seq<byte>>)
    ensures |parts| > 0
    decreases |p|
  {
    var i := Find(p, SLASH);
    if i == |p| then [p] else [p[..i]] + Parts(p[i + 1..])
  }

  /** A relative path of a file in a directory, as filepath.Walk reports it. */
  predicate GoodPath(p: seq<byte>) {
    CleanPath(p) && forall part :: part in Parts(p) ==> part != [] && part != [DOT] && part != [DOT, DOT]
  }

  /** The order of names in a directory: byte by byte. */
  predicate NameBefore(x: seq<byte>, y: seq<byte>)
    decreases |x|
  {
    y != [] && (x == [] || x[0] < y[0] || (x[0] == y[0] && NameBefore(x[1..], y[1..])))
  }

  /** Walk order of two files, component by component; a file is never the directory of another. */
  predicate WalkedBefore(a: seq<seq<byte>>, b: seq<seq<byte>>)
    decreases |a|
  {
    a != [] && b != [] && (if a[0] == b[0] then WalkedBefore(a[1..], b[1..]) else NameBefore(a[0], b[0]))
  }

  /** The files of some directory, in the order of a walk of it. */
  predicate Listing(tree: Tree) {
    && (forall f :: f in tree ==> GoodPath(f.path))
    && (forall i, j :: 0 <= i < j < |tree| ==> WalkedBefore(Parts(tree[i].path), Parts(tree[j].path)))
  }

  /** A file q may follow a file p in a listing. */
  predicate Follows(p: seq<byte>, q: seq<byte>) {
    GoodPath(q) && WalkedBefore(Parts(p), Parts(q))
  }

  lemma OneFileListing(f: File)
    requires GoodPath(f.path)
    ensures Listing([f])
  {
  }

  lemma TwoFileListing(a: File, b: File)
    requires GoodPath(a.path) && Follows(a.path, b.path)
    ensures Listing([a, b])
  {
  }

  // ----- exactly which trees the checksum pins down

  /** A 0, a path, a 1: bytes inside a file's contents that read like the start of another file. */
  predicate HeaderAt(c: seq<byte>, i: nat, j: nat) {
    i < j < |c| && c[i] == 0 && c[j] == 1 && CleanPath(c[i + 1..j])
  }

  /** The path of the first file can be read off the stream. */
  lemma FirstPath(a: Tree, b: Tree)
    requires a != [] && b != [] && CleanPaths(a) && CleanPaths(b) && Frame(a) == Frame(b)
    ensures a[0].path == b[0].path
    ensures a[0].contents + Frame(a[1..]) == b[0].contents + Frame(b[1..])
  {
    assert a[0] in a && b[0] in b;
    var ra, rb := a[0].contents + Frame(a[1..]), b[0].contents + Frame(b[1..]);
    assert Frame(a)[1..] == Named(a[0].path, ra);
    assert Frame(b)[1..] == Named(b[0].path, rb);
    NamedParts(a[0].path, ra);
    NamedParts(b[0].path, rb);
  }

  /** With two files or more, the files after the first can as well be contents of the first. */
  lemma MergeFiles(tree: Tree)
    requires |tree| >= 2 && Listing(tree)
    ensures var other := [File(tree[0].path, tree[0].contents + Frame(tree[1..]))];
            Listing(other) && other != tree && Frame(other) == Frame(tree)
  {
    var f := File(tree[0].path, tree[0].contents + Frame(tree[1..]));
    assert tree[0] in tree;
    assert [f][1..] == [];
    assert f.contents + Frame([]) == f.contents;
    OneFileListing(f);
  }

  /** A header inside the contents that names a possible later file can as well start that file. */
  lemma SplitFile(f: File, i: nat, j: nat)
    requires GoodPath(f.path) && HeaderAt(f.contents, i, j) && Follows(f.path, f.contents[i + 1..j])
    ensures var other := [File(f.path, f.contents[..i]), File(f.contents[i + 1..j], f.contents[j + 1..])];
            Listing(other) && Frame(other) == Frame([f])
  {
    var c := f.contents;
    var a, b := File(f.path, c[..i]), File(c[i + 1..j], c[j + 1..]);
    TwoFileListing(a, b);
    assert [a, b][1..] == [b] && [b][1..] == [] && [f][1..] == [];
    HeaderSplits(c, i, j);
    assert b.contents + Frame([]) == b.contents && c + Frame([]) == c;
    assert Frame([b]) == [0] + Named(b.path, b.contents);
  }

  lemma HeaderSplits(c: seq<byte>, i: nat, j: nat)
    requires i < j < |c| && c[i] == 0 && c[j] == 1
    ensures c[..i] + ([0] + Named(c[i + 1..j], c[j + 1..])) == c
  {
    var mid := Named(c[i + 1..j], c[j + 1..]);
    assert mid == c[i + 1..];
  }

  lemma TailHasHeader(c: seq<byte>, prefix: seq<byte>, tree: Tree)
    requires tree != [] && CleanPath(tree[0].path) && c == prefix + Frame(tree)
    ensures HeaderAt(c, |prefix|, |prefix| + 1 + |tree[0].path|)
    ensures c[|prefix| + 1..|prefix| + 1 + |tree[0].path|] == tree[0].path
  {
    HeaderAfter(prefix, tree[0].path, tree[0].contents + Frame(tree[1..]));
  }

  lemma HeaderAfter(prefix: seq<byte>, p: seq<byte>, rest: seq<byte>)
    requires CleanPath(p)
    ensures HeaderAt(prefix + ([0] + Named(p, rest)), |prefix|, |prefix| + 1 + |p|)
    ensures (prefix + ([0] + Named(p, rest)))[|prefix| + 1..|prefix| + 1 + |p|] == p
  {
    var n, tail := |prefix|, [0] + Named(p, rest);
    var c := prefix + tail;
    assert forall i :: 0 <= i < |tail| ==> c[n + i] == tail[i];
    assert forall i :: 0 <= i < |p| ==> tail[1 + i] == p[i];
    assert tail[1 + |p|] == 1;
    assert c[n + 1..n + 1 + |p|] == p;
  }

  /** No other directory has the checksum of this one. */
  ghost predicate PinnedDown(tree: Tree) {
    forall other: Tree :: Listing(other) && Frame(other) == Frame(tree) ==> other == tree
  }

  /** Somewhere in the contents stands a header that names a file which could come next in the walk. */
  predicate HidesFile(f: File) {
    exists i, j :: 0 <= i < j < |f.contents| && HeaderAt(f.contents, i, j) && Follows(f.path, f.contents[i + 1..j])
  }

  /**
   The checksum tells a directory from every other one if and only if it has no file, or a single file whose
   contents hold nothing that reads like the start of another file of the same directory.
   */
  lemma PinnedDownIff(tree: Tree)
    requires Listing(tree)
    ensures PinnedDown(tree) <==> tree == [] || (|tree| == 1 && !HidesFile(tree[0]))
  {
    if |tree| >= 2 {
      MergeFiles(tree);
    } else if |tree| == 1 {
      var f := tree[0];
      assert tree == [f] && f in tree;
      if HidesFile(f) {
        var i, j :| 0 <= i < j < |f.contents| && HeaderAt(f.contents, i, j) && Follows(f.path, f.contents[i + 1..j]);
        SplitFile(f, i, j);
      } else {
        forall other: Tree | Listing(other) && Frame(other) == Frame(tree) ensures other == tree {
          OnlyItself(tree, other);
        }
      }
    }
  }

  lemma OnlyItself(tree: Tree, other: Tree)
    requires |tree| == 1 && Listing(tree) && !HidesFile(tree[0])
    requires Listing(other) && Frame(other) == Frame(tree)
    ensures other == tree
  {
    assert other != [];
    FirstPath(tree, other);
    assert tree[0].contents + Frame(tree[1..]) == tree[0].contents;
    if other[1..] != [] {
      SecondFileShows(tree[0], other);
      assert false;
    }
    assert Frame(other[1..]) == [] && other[0].contents + [] == other[0].contents;
    assert other == [other[0]] && tree == [tree[0]];
  }

  /** The second file of a directory is seen inside the contents of a single file with the same checksum. */
  lemma SecondFileShows(f: File, other: Tree)
    requires |other| >= 2 && Listing(other)
    requires f.path == other[0].path && f.contents == other[0].contents + Frame(other[1..])
    ensures HidesFile(f)
  {
    var i, q := |other[0].contents|, other[1].path;
    assert other[1] in other && other[1..][0] == other[1];
    SecondFollows(other);
    TailHasHeader(f.contents, other[0].contents, other[1..]);
    HidesAt(f, i, i + 1 + |q|);
  }

  lemma SecondFollows(other: Tree)
    requires |other| >= 2 && Listing(other)
    ensures Follows(other[0].path, other[1].path)
  {
    assert other[1] in other;
  }

  lemma HidesAt(f: File, i: nat, j: nat)
    requires i < j < |f.contents| && HeaderAt(f.contents, i, j) && Follows(f.path, f.contents[i + 1..j])
    ensures HidesFile(f)
  {
  }

  /** A file "a" that holds the two marks and nothing between them is still told from every other directory. */
  lemma EmptyNameHidesNothing()
    ensures Listing([File([97], [0, 1])]) && PinnedDown([File([97], [0, 1])])
  {
    var f := File([97], [0, 1]);
    assert Parts([97]) == [[97]];
    OneFileListing(f);
    assert f.contents[1..1] == [];
    assert Parts([]) == [[]] && [] in Parts([]);
    assert [f][0] == f;
    forall i, j | 0 <= i < j < |f.contents| && HeaderAt(f.contents, i, j)
      ensures !Follows(f.path, f.contents[i + 1..j])
    {
      assert i == 0 && j == 1;
    }
    PinnedDownIff([f]);
  }

  /** A file "a" that holds the header of a file "b" is not. */
  lemma NamedHeaderHides()
    ensures Listing([File([97], [0, 98, 1])]) && !PinnedDown([File([97], [0, 98, 1])])
  {
    var f := File([97], [0, 98, 1]);
    assert Parts([97]) == [[97]] && Parts([98]) == [[98]];
    OneFileListing(f);
    assert f.contents[1..2] == [98];
    assert HeaderAt(f.contents, 0, 2) && Follows(f.path, f.contents[1..2]);
    assert [f][0] == f;
    PinnedDownIff([f]);
  }

  /** Trees of exactly one file each are told apart whatever their contents. */
  lemma SingleFileInjective(a: Tree, b: Tree)
    requires |a| == 1 && |b| == 1 && CleanPaths(a) && CleanPaths(b) && Frame(a) == Frame(b)
    ensures a == b
  {
    FirstPath(a, b);
    assert Frame(a[1..]) == [] && Frame(b[1..]) == [];
    assert a[0].contents + [] == a[0].contents && b[0].contents + [] == b[0].contents;
    assert a == [a[0]] && b == [b[0]];
  }
}
