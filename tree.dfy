/** A read-only snapshot of the recording tree. Child order stands for the
    order in which `Path.iterdir()` (and `glob`, which scans the same way)
    lists a directory. */
module Tree {
  import opened Seqs
  import opened Names

  datatype Node = File(name: string) | Dir(name: string, children: seq<Node>)

  /** A node together with its absolute path: `str(p.resolve())` of the node. */
  datatype Entry = Entry(path: string, node: Node)

  /** `Path(base) / part` for one path component. An empty part adds nothing
      (pathlib drops empty components) and no separator is doubled. */
  function JoinPath(base: string, part: string): (r: string)
    ensures part == [] ==> r == base
    ensures |r| >= |base| && |r| >= |part|
  {
    if part == [] then base
    else if base == [] then part
    else if base[|base| - 1] == '/' then base + part
    else base + "/" + part
  }

  /** `PurePosixPath(p).parent` for a path without repeated separators. */
  function Parent(p: string): (r: string)
  {
    var i := LastIndexOf(p, '/');
    if i < 0 then "." else if i == 0 then "/" else p[..i]
  }

  /** The parent of a path joined from a directory and one name is that
      directory again: the partner of `JoinPath`. */
  lemma ParentOfJoin(base: string, name: string)
    requires name != [] && forall i :: 0 <= i < |name| ==> name[i] != '/'
    requires base == "/" || (base != [] && base[|base| - 1] != '/')
    ensures Parent(JoinPath(base, name)) == base
  {
    var p := JoinPath(base, name);
    var i := LastIndexOf(p, '/');
    if base == "/" {
      assert p == "/" + name && p[0] == '/';
      assert i == 0;
    } else {
      assert p == base + "/" + name;
      assert p[|base|] == '/';
      assert i == |base|;
      assert p[..i] == base;
    }
  }

  /** The entry of child `c` of directory entry `e` (`e.path / c.name`). */
  function ChildEntry(e: Entry, c: Node): Entry {
    Entry(JoinPath(e.path, c.name), c)
  }

  /** The parent of a child's path is the directory it was listed from. */
  lemma ChildParent(e: Entry, c: Node)
    requires c.name != [] && forall i :: 0 <= i < |c.name| ==> c.name[i] != '/'
    requires e.path == "/" || (e.path != [] && e.path[|e.path| - 1] != '/')
    ensures Parent(ChildEntry(e, c).path) == e.path
  {
    ParentOfJoin(e.path, c.name);
  }

  /** The name matches the pattern `*.mp4` (POSIX pathlib: case-sensitive). */
  predicate IsMp4(name: string) {
    |name| >= 4 && name[|name| - 4..] == ".mp4"
  }

  /** `list(Path(e).glob("*.mp4"))`: the direct children, files or
      directories, whose names end in ".mp4", in listing order. */
  function Mp4Children(e: Entry): (r: seq<Entry>)
    ensures e.node.File? ==> r == []
    ensures forall x :: x in r <==>
      e.node.Dir? && exists c :: c in e.node.children && IsMp4(c.name) && x == ChildEntry(e, c)
  {
    if e.node.File? then [] else Mp4Among(e, e.node.children)
  }

  function Mp4Among(e: Entry, cs: seq<Node>): (r: seq<Entry>)
    ensures forall x :: x in r <==> exists c :: c in cs && IsMp4(c.name) && x == ChildEntry(e, c)
  {
    if cs == [] then []
    else (if IsMp4(cs[0].name) then [ChildEntry(e, cs[0])] else []) + Mp4Among(e, cs[1..])
  }

  /** No child named `*.mp4`, no clip. */
  lemma {:induction false} NoMp4Among(e: Entry, cs: seq<Node>)
    requires forall c :: c in cs ==> !IsMp4(c.name)
    ensures Mp4Among(e, cs) == []
    decreases |cs|
  {
    if cs != [] {
      assert cs[0] in cs;
      assert forall c :: c in cs[1..] ==> c in cs;
      NoMp4Among(e, cs[1..]);
    }
  }

  /** Lines 86-89: the videos of a day are the `*.mp4` children of each of its
      source nodes, node after node. */
  function Clips(bucket: seq<Entry>): (r: seq<Entry>)
    ensures forall x :: x in r <==> exists i :: 0 <= i < |bucket| && x in Mp4Children(bucket[i])
  {
    if bucket == [] then []
    else
      var last := bucket[|bucket| - 1];
      var r := Clips(bucket[..|bucket| - 1]) + Mp4Children(last);
      assert forall x :: x in r <==> exists i :: 0 <= i < |bucket| && x in Mp4Children(bucket[i]) by {
        forall x | x in r ensures exists i :: 0 <= i < |bucket| && x in Mp4Children(bucket[i]) {
          if x !in Mp4Children(last) {
            var i :| 0 <= i < |bucket| - 1 && x in Mp4Children(bucket[..|bucket| - 1][i]);
            assert bucket[..|bucket| - 1][i] == bucket[i];
          }
        }
        forall x, i | 0 <= i < |bucket| && x in Mp4Children(bucket[i]) ensures x in r {
          if i < |bucket| - 1 {
            assert bucket[..|bucket| - 1][i] == bucket[i];
          }
        }
      }
      r
  }

  /** An absolute directory path as `resolve()` gives it: the root, or a
      path without a trailing separator. */
  predicate DirPath(p: string) {
    p == "/" || (p != [] && p[|p| - 1] != '/')
  }

  /** A single path component. */
  predicate OneName(n: string) {
    n != [] && forall i :: 0 <= i < |n| ==> n[i] != '/'
  }

  /** Every node of the bucket has a directory path, and every child it
      lists a one-component name. */
  predicate WellNamed(bucket: seq<Entry>) {
    forall i :: 0 <= i < |bucket| ==>
      && DirPath(bucket[i].path)
      && (bucket[i].node.Dir? ==> forall c :: c in bucket[i].node.children ==> OneName(c.name))
  }

  /** A clip globbed from node `i` of a day has that node as its `.parent`. */
  lemma ClipParentAt(bucket: seq<Entry>, i: nat, x: Entry)
    requires WellNamed(bucket) && i < |bucket| && x in Mp4Children(bucket[i])
    ensures Parent(x.path) == bucket[i].path
  {
    var c :| c in bucket[i].node.children && IsMp4(c.name) && x == ChildEntry(bucket[i], c);
    ChildParent(bucket[i], c);
  }

  /** The `.parent` of every clip of a day (line 33 applied to a path of
      lines 86-89) is one of the day's own nodes. */
  lemma ClipParent(bucket: seq<Entry>, x: Entry)
    requires WellNamed(bucket) && x in Clips(bucket)
    ensures exists i :: 0 <= i < |bucket| && Parent(x.path) == bucket[i].path
  {
    forall i | 0 <= i < |bucket| && x in Mp4Children(bucket[i])
      ensures Parent(x.path) == bucket[i].path
    {
      ClipParentAt(bucket, i, x);
    }
  }

  /** A `*.mp4` child of a day's node is one of the day's clips, and its
      `.parent` is that node. */
  lemma ClipOfNode(bucket: seq<Entry>, i: nat, c: Node)
    requires WellNamed(bucket) && i < |bucket| && bucket[i].node.Dir?
    requires c in bucket[i].node.children && IsMp4(c.name)
    ensures ChildEntry(bucket[i], c) in Clips(bucket)
    ensures Parent(ChildEntry(bucket[i], c).path) == bucket[i].path
  {
    ClipParentAt(bucket, i, ChildEntry(bucket[i], c));
  }

  /** `has_subdirectories`: some entry of the directory listing is a directory. */
  function HasSubdirectories(n: Node): (r: bool)
    ensures r <==> n.Dir? && exists c :: c in n.children && c.Dir?
  {
    n.Dir? && AnyDir(n.children)
  }

  function AnyDir(cs: seq<Node>): (r: bool)
    ensures r <==> exists c :: c in cs && c.Dir?
  {
    if cs == [] then false else cs[0].Dir? || AnyDir(cs[1..])
  }

  /** `p` is `r` or lies inside directory `r`, so `shutil.rmtree(r)` removes it. */
  predicate IsUnder(p: string, r: string) {
    || p == r
    || (|r| + 1 <= |p| && p[..|r| + 1] == r + "/")
    || (r != [] && r[|r| - 1] == '/' && |r| <= |p| && p[..|r|] == r)
  }
}
