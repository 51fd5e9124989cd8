/** The `date_dict` of `merge_dirs`: an insertion-ordered Python dictionary
    from day key to the source nodes of that day, modelled as a sequence of
    (key, nodes) pairs, and the scan of lines 61-83 that fills it. */
module DayDict {
  import opened Seqs
  import opened Names
  import opened Tree

  type Bucket = (string, seq<Entry>)
  type Dict = seq<Bucket>

  function Keys(d: Dict): (ks: seq<string>)
    ensures |ks| == |d| && forall i :: 0 <= i < |d| ==> ks[i] == d[i].0
  {
    if d == [] then [] else [d[0].0] + Keys(d[1..])
  }

  /** A Python dictionary never holds a key twice. */
  predicate Distinct(ks: seq<string>) {
    forall i, j :: 0 <= i < j < |ks| ==> ks[i] != ks[j]
  }

  /** `d.get(k, [])` */
  function Get(d: Dict, k: string): seq<Entry> {
    if d == [] then [] else if d[0].0 == k then d[0].1 else Get(d[1..], k)
  }

  /** `ks` with `x` added at the end unless it is already there. */
  function AddKey(ks: seq<string>, x: string): seq<string> {
    if x in ks then ks else ks + [x]
  }

  /** The keys of `s` added one after another: first appearances in order. */
  function AddKeys(ks: seq<string>, s: seq<string>): seq<string>
    decreases |s|
  {
    if s == [] then ks else AddKeys(AddKey(ks, s[0]), s[1..])
  }

  /** `s` without any occurrence of `t`. */
  function Without(s: seq<string>, t: string): (r: seq<string>)
    ensures t !in r
    ensures forall x :: x != t ==> (x in r <==> x in s)
  {
    if s == [] then []
    else Without(s[..|s| - 1], t) + (if s[|s| - 1] == t then [] else [s[|s| - 1]])
  }

  /** `d[k] = v`: an existing key keeps its place and gets the new value; a
      new key goes to the end. */
  function Assign(d: Dict, k: string, v: seq<Entry>): Dict {
    if d == [] then [(k, v)]
    else if d[0].0 == k then [(k, v)] + d[1..]
    else [d[0]] + Assign(d[1..], k, v)
  }

  /** An existing key keeps its place, a new key goes to the end, and the
      keys stay distinct. */
  lemma {:induction false} AssignKeys(d: Dict, k: string, v: seq<Entry>)
    ensures Keys(Assign(d, k, v)) == AddKey(Keys(d), k)
    ensures Distinct(Keys(d)) ==> Distinct(Keys(Assign(d, k, v)))
    decreases |d|
  {
    AddKeyDistinct(Keys(d), k);
    if d != [] {
      KeysCons(d[0], d[1..]);
      if d[0].0 == k {
        KeysCons((k, v), d[1..]);
      } else {
        AssignKeys(d[1..], k, v);
        KeysCons(d[0], Assign(d[1..], k, v));
        AddKeyCons(d[0].0, Keys(d[1..]), k);
      }
    }
  }

  /** After `d[k] = v`, `k` maps to `v` and every other key is untouched. */
  lemma {:induction false} AssignGet(d: Dict, k: string, v: seq<Entry>, k': string)
    ensures Get(Assign(d, k, v), k') == if k' == k then v else Get(d, k')
    decreases |d|
  {
    if d != [] && d[0].0 != k {
      AssignGet(d[1..], k, v, k');
      assert ([d[0]] + Assign(d[1..], k, v))[1..] == Assign(d[1..], k, v);
    } else if d != [] {
      assert ([(k, v)] + d[1..])[1..] == d[1..];
    }
  }

  lemma KeysCons(b: Bucket, d: Dict)
    ensures Keys([b] + d) == [b.0] + Keys(d)
  {
    assert ([b] + d)[1..] == d;
  }

  lemma AddKeyCons(x: string, ks: seq<string>, k: string)
    requires x != k
    ensures AddKey([x] + ks, k) == [x] + AddKey(ks, k)
  {
    if k !in ks {
      assert ([x] + ks) + [k] == [x] + (ks + [k]);
    }
  }

  /** Adding a key that is not there yet keeps the keys distinct. */
  lemma AddKeyDistinct(ks: seq<string>, x: string)
    ensures Distinct(ks) ==> Distinct(AddKey(ks, x))
  {
  }

  /** Lines 78-80: `if k not in d: d[k] = []` followed by `d[k].append(x)`. */
  function AppendTo(d: Dict, k: string, x: Entry): (r: Dict)
    ensures Keys(r) == AddKey(Keys(d), k)
    ensures Get(r, k) == Get(d, k) + [x]
    ensures forall k' :: k' != k ==> Get(r, k') == Get(d, k')
    ensures Distinct(Keys(d)) ==> Distinct(Keys(r))
  {
    AssignKeys(d, k, Get(d, k) + [x]);
    forall k' ensures Get(Assign(d, k, Get(d, k) + [x]), k') == if k' == k then Get(d, k) + [x] else Get(d, k') {
      AssignGet(d, k, Get(d, k) + [x], k');
    }
    Assign(d, k, Get(d, k) + [x])
  }

  /** `d.pop(k)` for a key that is present: its entry is removed. */
  function Remove(d: Dict, k: string): (r: Dict)
    requires k in Keys(d)
    ensures forall k' :: k' != k ==> Get(r, k') == Get(d, k')
  {
    if d[0].0 == k then d[1..] else [d[0]] + Remove(d[1..], k)
  }

  /** With distinct keys, popping `k` removes `k` and only `k` from the keys. */
  lemma {:induction false} RemoveKeys(d: Dict, k: string)
    requires k in Keys(d) && Distinct(Keys(d))
    ensures Keys(Remove(d, k)) == Without(Keys(d), k)
    ensures Distinct(Keys(Remove(d, k)))
    decreases |d|
  {
    var ks := Keys(d);
    assert ks == [d[0].0] + Keys(d[1..]);
    assert Distinct(Keys(d[1..])) by {
      forall i, j | 0 <= i < j < |d[1..]| ensures Keys(d[1..])[i] != Keys(d[1..])[j] {
        assert ks[i + 1] != ks[j + 1];
      }
    }
    assert d[0].0 !in Keys(d[1..]) by {
      forall j | 0 <= j < |d[1..]| ensures Keys(d[1..])[j] != d[0].0 {
        assert ks[j + 1] != ks[0];
      }
    }
    WithoutCons(d[0].0, Keys(d[1..]), k);
    if d[0].0 == k {
      WithoutAbsent(Keys(d[1..]), k);
    } else {
      RemoveKeys(d[1..], k);
      var r := Remove(d, k);
      assert Keys(r) == [d[0].0] + Keys(Remove(d[1..], k));
      assert d[0].0 !in Keys(Remove(d[1..], k));
      assert Distinct(Keys(r)) by {
        forall i, j | 0 <= i < j < |r| ensures Keys(r)[i] != Keys(r)[j] {
          if i > 0 {
            assert Keys(r)[i] == Keys(Remove(d[1..], k))[i - 1];
            assert Keys(r)[j] == Keys(Remove(d[1..], k))[j - 1];
          } else {
            assert Keys(r)[j] == Keys(Remove(d[1..], k))[j - 1];
          }
        }
      }
    }
  }

  lemma {:induction false} WithoutCons(x: string, s: seq<string>, t: string)
    ensures Without([x] + s, t) == (if x == t then [] else [x]) + Without(s, t)
    decreases |s|
  {
    if s != [] {
      var xs := [x] + s;
      assert xs[..|xs| - 1] == [x] + s[..|s| - 1];
      WithoutCons(x, s[..|s| - 1], t);
    } else {
      assert ([x] + s)[..0] == [];
    }
  }

  lemma {:induction false} WithoutAbsent(s: seq<string>, t: string)
    ensures t !in s ==> Without(s, t) == s
    decreases |s|
  {
    if s != [] && t !in s {
      WithoutAbsent(s[..|s| - 1], t);
    }
  }

  /** A file that starts the compatibility path: any plain file other than the
      `.DS_Store` and `@eaDir` markers (line 71). */
  predicate IsStray(c: Node) {
    c.File? && c.name != ".DS_Store" && c.name != "@eaDir"
  }

  predicate NoStray(cs: seq<Node>) {
    forall c :: c in cs ==> !IsStray(c)
  }

  /** The loop of lines 70-80 run over `kids`, starting from dictionary `d`. */
  function ScanFrom(d: Dict, dir: Entry, kids: seq<Node>, dateName: string): Dict
    decreases |kids|
  {
    if kids == [] then d
    else
      var c := kids[0];
      if IsStray(c) then Assign(d, dateName, [dir])
      else ScanFrom(Step(d, dir, c), dir, kids[1..], dateName)
  }

  /** One pass of the loop body for a child that is not a stray file: a
      directory joins the bucket of its day key, anything else is skipped. */
  function Step(d: Dict, dir: Entry, c: Node): Dict {
    if c.Dir? then AppendTo(d, DayKey(c.name), ChildEntry(dir, c)) else d
  }

  /** Lines 61-83: seed today's key, scan the directory, then drop today. */
  function Group(dir: Entry, dateName: string, today: string): Dict
    requires dir.node.Dir?
  {
    var d := ScanFrom([(today, [])], dir, dir.node.children, dateName);
    if today in Keys(d) then Remove(d, today) else d
  }

  /** The day keys of the directories among `kids`, in listing order. */
  function DirKeys(kids: seq<Node>): seq<string> {
    if kids == [] then []
    else (if kids[0].Dir? then [DayKey(kids[0].name)] else []) + DirKeys(kids[1..])
  }

  /** Files alone give no day key. */
  lemma {:induction false} NoDirKeys(kids: seq<Node>)
    requires forall c :: c in kids ==> c.File?
    ensures DirKeys(kids) == []
    decreases |kids|
  {
    if kids != [] {
      assert kids[0] in kids;
      assert forall c :: c in kids[1..] ==> c in kids;
      NoDirKeys(kids[1..]);
    }
  }

  /** The entries of the directories among `kids` whose day key is `k`. */
  function DirsWithKey(dir: Entry, kids: seq<Node>, k: string): seq<Entry> {
    if kids == [] then []
    else (if kids[0].Dir? && DayKey(kids[0].name) == k then [ChildEntry(dir, kids[0])] else [])
         + DirsWithKey(dir, kids[1..], k)
  }

  /** Lines 61-83 as the source runs them: a loop that updates the dictionary
      in place and leaves at the first stray file. */
  method BuildBuckets(dir: Entry, dateName: string, today: string) returns (d: Dict)
    requires dir.node.Dir?
    ensures d == Group(dir, dateName, today)
  {
    var kids := dir.node.children;
    d := [(today, [])];
    ghost var seed := d;
    var i := 0;
    while i < |kids|
      invariant 0 <= i <= |kids|
      invariant ScanFrom(d, dir, kids[i..], dateName) == ScanFrom(seed, dir, kids, dateName)
    {
      var c := kids[i];
      if IsStray(c) {
        d := Assign(d, dateName, [dir]);
        break;
      }
      if c.Dir? {
        d := AppendTo(d, DayKey(c.name), ChildEntry(dir, c));
      }
      assert kids[i..][0] == c && kids[i..][1..] == kids[i + 1..];
      i := i + 1;
    }
    if today in Keys(d) {
      d := Remove(d, today);
    }
  }

  // ---------------------------------------------------------------------
  // What the scan computes.

  lemma {:induction false} ScanDistinct(d: Dict, dir: Entry, kids: seq<Node>, dateName: string)
    requires Distinct(Keys(d))
    ensures Distinct(Keys(ScanFrom(d, dir, kids, dateName)))
    decreases |kids|
  {
    if kids != [] && !IsStray(kids[0]) {
      ScanDistinct(Step(d, dir, kids[0]), dir, kids[1..], dateName);
    } else if kids != [] {
      AssignKeys(d, dateName, [dir]);
    }
  }

  /** Without a stray file, each directory is appended to the bucket of its
      own day key and to no other. */
  lemma {:induction false} ScanGet(d: Dict, dir: Entry, kids: seq<Node>, dateName: string, k: string)
    requires NoStray(kids)
    ensures Get(ScanFrom(d, dir, kids, dateName), k) == Get(d, k) + DirsWithKey(dir, kids, k)
    decreases |kids|
  {
    if kids != [] {
      var c := kids[0];
      assert !IsStray(c) && NoStray(kids[1..]);
      ScanGet(Step(d, dir, c), dir, kids[1..], dateName, k);
      StepGet(d, dir, c, k);
      var now := if c.Dir? && DayKey(c.name) == k then [ChildEntry(dir, c)] else [];
      assert DirsWithKey(dir, kids, k) == now + DirsWithKey(dir, kids[1..], k);
      Assoc(Get(d, k), now, DirsWithKey(dir, kids[1..], k));
    }
  }

  lemma StepGet(d: Dict, dir: Entry, c: Node, k: string)
    ensures Get(Step(d, dir, c), k) ==
      Get(d, k) + if c.Dir? && DayKey(c.name) == k then [ChildEntry(dir, c)] else []
  {
  }

  /** Without a stray file, new keys are added in order of first appearance. */
  lemma {:induction false} ScanKeys(d: Dict, dir: Entry, kids: seq<Node>, dateName: string)
    requires NoStray(kids)
    ensures Keys(ScanFrom(d, dir, kids, dateName)) == AddKeys(Keys(d), DirKeys(kids))
    decreases |kids|
  {
    if kids != [] {
      var c := kids[0];
      assert !IsStray(c) && NoStray(kids[1..]);
      ScanKeys(Step(d, dir, c), dir, kids[1..], dateName);
      StepKeys(d, dir, kids, dateName);
    }
  }

  lemma StepKeys(d: Dict, dir: Entry, kids: seq<Node>, dateName: string)
    requires kids != []
    ensures AddKeys(Keys(d), DirKeys(kids)) == AddKeys(Keys(Step(d, dir, kids[0])), DirKeys(kids[1..]))
  {
    var c := kids[0];
    if c.Dir? {
      var ks := DirKeys(kids);
      assert ks == [DayKey(c.name)] + DirKeys(kids[1..]);
      assert ks[1..] == DirKeys(kids[1..]);
    } else {
      assert DirKeys(kids) == DirKeys(kids[1..]);
    }
  }

  /** The first stray file ends the scan: it assigns `[dir]` to `dateName` and
      nothing after it is looked at. */
  lemma {:induction false} ScanStops(d: Dict, dir: Entry, pre: seq<Node>, f: Node, post: seq<Node>, dateName: string)
    requires NoStray(pre) && IsStray(f)
    ensures ScanFrom(d, dir, pre + [f] + post, dateName) == Assign(ScanFrom(d, dir, pre, dateName), dateName, [dir])
    decreases |pre|
  {
    var kids := pre + [f] + post;
    if pre == [] {
      assert kids[0] == f;
    } else {
      var c := pre[0];
      assert kids[0] == c && !IsStray(c);
      assert kids[1..] == pre[1..] + [f] + post;
      assert NoStray(pre[1..]);
      ScanStops(Step(d, dir, c), dir, pre[1..], f, post, dateName);
    }
  }

  /** Two key lists that agree once `t` is dropped and agree on membership of
      every other key. */
  ghost predicate SameBut(a: seq<string>, b: seq<string>, t: string) {
    Without(a, t) == Without(b, t) && forall x :: x != t ==> (x in a <==> x in b)
  }

  lemma WithoutSnoc(s: seq<string>, x: string, t: string)
    ensures Without(s + [x], t) == Without(s, t) + (if x == t then [] else [x])
  {
    assert (s + [x])[..|s|] == s;
  }

  lemma AddKeySameBut(a: seq<string>, b: seq<string>, x: string, t: string)
    requires SameBut(a, b, t)
    ensures SameBut(AddKey(a, x), AddKey(b, x), t)
  {
    if x !in a { WithoutSnoc(a, x, t); }
    if x !in b { WithoutSnoc(b, x, t); }
  }

  lemma {:induction false} AddKeysSameBut(a: seq<string>, b: seq<string>, s: seq<string>, t: string)
    requires SameBut(a, b, t)
    ensures SameBut(AddKeys(a, s), AddKeys(b, s), t)
    decreases |s|
  {
    if s != [] {
      AddKeySameBut(a, b, s[0], t);
      AddKeysSameBut(AddKey(a, s[0]), AddKey(b, s[0]), s[1..], t);
    }
  }

  /** The seed and the pop of today's key together leave the other keys in
      the order of their first appearance. */
  lemma SeedThenDrop(s: seq<string>, t: string)
    ensures Without(AddKeys([t], s), t) == Without(AddKeys([], s), t)
  {
    WithoutSnoc([], t, t);
    AddKeysSameBut([t], [], s, t);
  }

  /** The scanned dictionary before today's key is popped: keys distinct,
      today's key still present. */
  lemma Scanned(dir: Entry, dateName: string, today: string)
    requires dir.node.Dir?
    ensures var d := ScanFrom([(today, [])], dir, dir.node.children, dateName);
      Distinct(Keys(d)) && today in Keys(d)
  {
    var seed: Dict := [(today, [])];
    ScanDistinct(seed, dir, dir.node.children, dateName);
    ScanKeepsKey(seed, dir, dir.node.children, dateName, today);
  }

  /** Today's key never survives the grouping, whatever the directory holds
      and even when `dateName` is today (lines 63-64, 82-83); the remaining
      keys are distinct. */
  lemma TodayExcluded(dir: Entry, dateName: string, today: string)
    requires dir.node.Dir?
    ensures today !in Keys(Group(dir, dateName, today))
    ensures Get(Group(dir, dateName, today), today) == []
    ensures Distinct(Keys(Group(dir, dateName, today)))
  {
    var d := ScanFrom([(today, [])], dir, dir.node.children, dateName);
    Scanned(dir, dateName, today);
    RemoveKeys(d, today);
    GetAbsent(Remove(d, today), today);
  }

  lemma {:induction false} GetAbsent(d: Dict, k: string)
    requires k !in Keys(d)
    ensures Get(d, k) == []
    decreases |d|
  {
    if d != [] {
      assert Keys(d) == [d[0].0] + Keys(d[1..]);
      GetAbsent(d[1..], k);
    }
  }

  /** The scan only ever adds keys. */
  lemma {:induction false} ScanKeepsKey(d: Dict, dir: Entry, kids: seq<Node>, dateName: string, k: string)
    requires k in Keys(d)
    ensures k in Keys(ScanFrom(d, dir, kids, dateName))
    decreases |kids|
  {
    if kids != [] && !IsStray(kids[0]) {
      ScanKeepsKey(Step(d, dir, kids[0]), dir, kids[1..], dateName, k);
    } else if kids != [] {
      AssignKeys(d, dateName, [dir]);
    }
  }

  /** Grouping by day (lines 75-80): when the directory holds no stray file,
      the buckets are the day keys of its sub-directories in order of first
      appearance, today left out, and each bucket holds exactly the
      sub-directories with that key, in listing order. */
  lemma GroupByDay(dir: Entry, dateName: string, today: string, k: string)
    requires dir.node.Dir? && NoStray(dir.node.children)
    ensures Keys(Group(dir, dateName, today)) == Without(AddKeys([], DirKeys(dir.node.children)), today)
    ensures Get(Group(dir, dateName, today), k) ==
      if k == today then [] else DirsWithKey(dir, dir.node.children, k)
  {
    var seed: Dict := [(today, [])];
    var kids := dir.node.children;
    var d := ScanFrom(seed, dir, kids, dateName);
    Scanned(dir, dateName, today);
    assert Group(dir, dateName, today) == Remove(d, today);
    RemoveKeys(d, today);
    assert Keys(seed) == [today];
    ScanKeys(seed, dir, kids, dateName);
    SeedThenDrop(DirKeys(kids), today);
    ScanGet(seed, dir, kids, dateName, k);
    TodayExcluded(dir, dateName, today);
  }

  /** The compatibility path (lines 70-74): the first stray file gives
      `dateName` the single node `[dir]` (replacing an earlier bucket of that
      key in its place), the directories listed before it stay grouped by
      day, and nothing listed after it is grouped. */
  lemma GroupCompat(dir: Entry, dateName: string, today: string, pre: seq<Node>, f: Node, post: seq<Node>, k: string)
    requires dir.node.Dir? && dir.node.children == pre + [f] + post
    requires NoStray(pre) && IsStray(f)
    ensures Keys(Group(dir, dateName, today)) ==
      Without(AddKey(AddKeys([], DirKeys(pre)), dateName), today)
    ensures Get(Group(dir, dateName, today), k) ==
      if k == today then [] else if k == dateName then [dir] else DirsWithKey(dir, pre, k)
  {
    var seed: Dict := [(today, [])];
    var d := ScanFrom(seed, dir, dir.node.children, dateName);
    ScanStops(seed, dir, pre, f, post, dateName);
    Scanned(dir, dateName, today);
    assert Group(dir, dateName, today) == Remove(d, today);
    CompatKeys(dir, dateName, today, pre, d);
    ScanGet(seed, dir, pre, dateName, k);
    AssignGet(ScanFrom(seed, dir, pre, dateName), dateName, [dir], k);
    TodayExcluded(dir, dateName, today);
  }

  /** A directory holding only files gets no bucket, except the
      compatibility bucket `[dir]` under `dateName` when one of them is a
      stray file and `dateName` is not today's key. */
  lemma FilesOnlyGroup(dir: Entry, dateName: string, today: string)
    requires dir.node.Dir? && forall c :: c in dir.node.children ==> c.File?
    ensures Group(dir, dateName, today) ==
      if NoStray(dir.node.children) || dateName == today then [] else [(dateName, [dir])]
  {
    var kids := dir.node.children;
    var i := FirstFailing(kids, (c: Node) => !IsStray(c));
    if i < 0 {
      assert NoStray(kids) by {
        forall c | c in kids ensures !IsStray(c) {
          var j :| 0 <= j < |kids| && kids[j] == c;
        }
      }
      NoDirKeys(kids);
      GroupByDay(dir, dateName, today, today);
    } else {
      var pre := kids[..i];
      assert kids == pre + [kids[i]] + kids[i + 1..];
      assert NoStray(pre) by {
        forall c | c in pre ensures !IsStray(c) {
          var j :| 0 <= j < |pre| && pre[j] == c;
        }
      }
      assert kids[i] in kids;
      StrayGroup(dir, dateName, today, pre, kids[i], kids[i + 1..]);
    }
  }

  lemma StrayGroup(dir: Entry, dateName: string, today: string, pre: seq<Node>, f: Node, post: seq<Node>)
    requires dir.node.Dir? && dir.node.children == pre + [f] + post
    requires forall c :: c in pre ==> c.File?
    requires NoStray(pre) && IsStray(f)
    ensures Group(dir, dateName, today) == if dateName == today then [] else [(dateName, [dir])]
  {
    NoDirKeys(pre);
    GroupCompat(dir, dateName, today, pre, f, post, dateName);
    assert AddKeys([], DirKeys(pre)) == [];
    assert AddKey([], dateName) == [dateName];
    OneBucket(Group(dir, dateName, today), dateName, today, [dir]);
  }

  /** A dictionary whose keys are `[k]` less `today` is empty when `k` is
      today's key and otherwise holds the single bucket `(k, v)`. */
  lemma OneBucket(g: Dict, k: string, today: string, v: seq<Entry>)
    requires Keys(g) == Without([k], today)
    requires k != today ==> Get(g, k) == v
    ensures g == if k == today then [] else [(k, v)]
  {
    assert [k][..0] == [];
    if k == today {
      assert Without([k], today) == [];
    } else {
      assert Without([k], today) == [k];
      assert |g| == 1 && g[0].0 == k;
    }
  }

  lemma CompatKeys(dir: Entry, dateName: string, today: string, pre: seq<Node>, d: Dict)
    requires NoStray(pre)
    requires d == Assign(ScanFrom([(today, [])], dir, pre, dateName), dateName, [dir])
    requires today in Keys(d) && Distinct(Keys(d))
    ensures Keys(Remove(d, today)) == Without(AddKey(AddKeys([], DirKeys(pre)), dateName), today)
  {
    var seed: Dict := [(today, [])];
    AssignKeys(ScanFrom(seed, dir, pre, dateName), dateName, [dir]);
    RemoveKeys(d, today);
    assert Keys(seed) == [today];
    ScanKeys(seed, dir, pre, dateName);
    WithoutSnoc([], today, today);
    AddKeysSameBut([today], [], DirKeys(pre), today);
    AddKeySameBut(AddKeys([today], DirKeys(pre)), AddKeys([], DirKeys(pre)), dateName, today);
  }

  // ---------------------------------------------------------------------
  // What the buckets hold.

  /** Every node of `b` is `dir` itself (the compatibility bucket) or one of
      its children. */
  predicate Below(dir: Entry, b: seq<Entry>) {
    forall x :: x in b ==> x == dir || (dir.node.Dir? && x.node in dir.node.children)
  }

  /** A bucket that `merge_dirs` works through: not empty, and made of nodes
      below `dir`. */
  predicate Sourced(dir: Entry, b: seq<Entry>) {
    b != [] && Below(dir, b)
  }

  ghost predicate Filled(d: Dict, dir: Entry, today: string) {
    forall i :: 0 <= i < |d| ==> Below(dir, d[i].1) && (d[i].0 != today ==> d[i].1 != [])
  }

  lemma {:induction false} GetBelow(d: Dict, dir: Entry, today: string, k: string)
    requires Filled(d, dir, today)
    ensures Below(dir, Get(d, k))
    decreases |d|
  {
    if d != [] && d[0].0 != k {
      GetBelow(d[1..], dir, today, k);
    }
  }

  lemma FilledCons(b: Bucket, d: Dict, dir: Entry, today: string)
    ensures Filled([b] + d, dir, today) <==>
      Below(dir, b.1) && (b.0 != today ==> b.1 != []) && Filled(d, dir, today)
  {
    var r := [b] + d;
    if Filled(r, dir, today) {
      assert r[0] == b;
      forall i | 0 <= i < |d| ensures Below(dir, d[i].1) && (d[i].0 != today ==> d[i].1 != []) {
        assert r[i + 1] == d[i];
      }
    } else if Below(dir, b.1) && (b.0 != today ==> b.1 != []) && Filled(d, dir, today) {
      forall i | 0 <= i < |r| ensures Below(dir, r[i].1) && (r[i].0 != today ==> r[i].1 != []) {
        if i > 0 {
          assert r[i] == d[i - 1];
        }
      }
    }
  }

  lemma {:induction false} AssignFilled(d: Dict, dir: Entry, today: string, k: string, v: seq<Entry>)
    requires Filled(d, dir, today) && Below(dir, v) && v != []
    ensures Filled(Assign(d, k, v), dir, today)
    decreases |d|
  {
    if d != [] {
      FilledCons(d[0], d[1..], dir, today);
      assert d == [d[0]] + d[1..];
      if d[0].0 != k {
        AssignFilled(d[1..], dir, today, k, v);
        FilledCons(d[0], Assign(d[1..], k, v), dir, today);
      } else {
        FilledCons((k, v), d[1..], dir, today);
      }
    }
  }

  lemma StepFilled(d: Dict, dir: Entry, today: string, c: Node)
    requires Filled(d, dir, today) && dir.node.Dir? && c in dir.node.children
    ensures Filled(Step(d, dir, c), dir, today)
  {
    if c.Dir? {
      var k := DayKey(c.name);
      GetBelow(d, dir, today, k);
      AssignFilled(d, dir, today, k, Get(d, k) + [ChildEntry(dir, c)]);
    }
  }

  lemma {:induction false} ScanFilled(d: Dict, dir: Entry, kids: seq<Node>, dateName: string, today: string)
    requires Filled(d, dir, today) && dir.node.Dir?
    requires forall c :: c in kids ==> c in dir.node.children
    ensures Filled(ScanFrom(d, dir, kids, dateName), dir, today)
    decreases |kids|
  {
    if kids != [] {
      if IsStray(kids[0]) {
        AssignFilled(d, dir, today, dateName, [dir]);
      } else {
        StepFilled(d, dir, today, kids[0]);
        ScanFilled(Step(d, dir, kids[0]), dir, kids[1..], dateName, today);
      }
    }
  }

  lemma {:induction false} RemoveFilled(d: Dict, dir: Entry, today: string)
    requires today in Keys(d) && Filled(d, dir, today)
    ensures Filled(Remove(d, today), dir, today)
    decreases |d|
  {
    FilledCons(d[0], d[1..], dir, today);
    assert d == [d[0]] + d[1..];
    if d[0].0 != today {
      assert Keys(d) == [d[0].0] + Keys(d[1..]);
      RemoveFilled(d[1..], dir, today);
      FilledCons(d[0], Remove(d[1..], today), dir, today);
    }
  }

  /** Every bucket left after the pop is non-empty and holds `dir` itself or
      children of `dir`: what lets the recursion of lines 94-96 descend. */
  lemma GroupSourced(dir: Entry, dateName: string, today: string)
    requires dir.node.Dir?
    ensures forall i :: 0 <= i < |Group(dir, dateName, today)| ==>
      Sourced(dir, Group(dir, dateName, today)[i].1)
  {
    var seed: Dict := [(today, [])];
    var d := ScanFrom(seed, dir, dir.node.children, dateName);
    ScanFilled(seed, dir, dir.node.children, dateName, today);
    Scanned(dir, dateName, today);
    assert Group(dir, dateName, today) == Remove(d, today);
    RemoveFilled(d, dir, today);
    TodayExcluded(dir, dateName, today);
    var g := Remove(d, today);
    forall i | 0 <= i < |g| ensures Sourced(dir, g[i].1) {
      assert g[i].0 == Keys(g)[i];
    }
  }

  /** A camera directory holding three hour directories `x`, `y` and `z`
      (such as `2021051001`, `2021051002` and `2021051101`), the first two of
      the same day: two buckets, in listing order, the first with both. */
  lemma GroupExample(root: string, cam: string, today: string, x: string, y: string, z: string)
    requires |x| == 10 && |y| == 10 && |z| == 10 && AllDigits(x) && AllDigits(y) && AllDigits(z)
    requires x[..8] == y[..8] && x[..8] != z[..8]
    requires today != x[..8] && today != z[..8]
    ensures
      var a, b, c := Dir(x, []), Dir(y, []), Dir(z, []);
      var dir := Entry(root, Dir(cam, [a, b, c]));
      var g := Group(dir, cam, today);
      && Keys(g) == [x[..8], z[..8]]
      && Get(g, x[..8]) == [ChildEntry(dir, a), ChildEntry(dir, b)]
      && Get(g, z[..8]) == [ChildEntry(dir, c)]
  {
    var a, b, c := Dir(x, []), Dir(y, []), Dir(z, []);
    var dir := Entry(root, Dir(cam, [a, b, c]));
    DayKeyOfHour(x);
    DayKeyOfHour(y);
    DayKeyOfHour(z);
    ExampleKeys(a, b, c);
    var ea, eb, ec := ChildEntry(dir, a), ChildEntry(dir, b), ChildEntry(dir, c);
    assert [a] + [] == [a] && [b] + [] == [b] && [c] + [] == [c];
    assert DirsWithKey(dir, [a, b, c], x[..8]) == [ea, eb] by {
      ExampleDirs(dir, a, b, c, x[..8]);
      DirsCons(dir, a, [], x[..8]);
      DirsCons(dir, b, [], x[..8]);
      DirsCons(dir, c, [], x[..8]);
      assert [ea] + [eb] + [] == [ea, eb];
    }
    assert DirsWithKey(dir, [a, b, c], z[..8]) == [ec] by {
      ExampleDirs(dir, a, b, c, z[..8]);
      DirsCons(dir, a, [], z[..8]);
      DirsCons(dir, b, [], z[..8]);
      DirsCons(dir, c, [], z[..8]);
      assert [] + [] + [ec] == [ec];
    }
    GroupByDay(dir, cam, today, x[..8]);
    GroupByDay(dir, cam, today, z[..8]);
    ExampleOrder(x[..8], z[..8]);
    WithoutAbsent([x[..8], z[..8]], today);
  }

  lemma ExampleOrder(p: string, q: string)
    requires p != q
    ensures AddKeys([], [p, p, q]) == [p, q]
  {
    var ks := [p, p, q];
    assert AddKey([], p) == [p];
    assert AddKeys([], ks) == AddKeys([p], ks[1..]);
    assert AddKeys([p], ks[1..]) == AddKeys([p], ks[2..]);
    assert AddKey([p], q) == [p, q];
    assert AddKeys([p], ks[2..]) == AddKeys([p, q], []);
  }

  /** The directories of day `k` in `[a, b, c]`, element by element. */
  lemma ExampleDirs(dir: Entry, a: Node, b: Node, c: Node, k: string)
    ensures DirsWithKey(dir, [a, b, c], k) ==
      DirsWithKey(dir, [a], k) + DirsWithKey(dir, [b], k) + DirsWithKey(dir, [c], k)
  {
    assert [a, b, c] == [a] + [b] + [c];
    DirsAppend(dir, [a] + [b], [c], k);
    DirsAppend(dir, [a], [b], k);
  }

  /** The scan's buckets of a listing split in two are those of the halves. */
  lemma {:induction false} DirsAppend(dir: Entry, xs: seq<Node>, ys: seq<Node>, k: string)
    ensures DirsWithKey(dir, xs + ys, k) == DirsWithKey(dir, xs, k) + DirsWithKey(dir, ys, k)
    decreases |xs|
  {
    if xs == [] {
      assert xs + ys == ys;
    } else {
      DirsCons(dir, xs[0], xs[1..] + ys, k);
      DirsCons(dir, xs[0], xs[1..], k);
      assert xs + ys == [xs[0]] + (xs[1..] + ys);
      assert xs == [xs[0]] + xs[1..];
      DirsAppend(dir, xs[1..], ys, k);
      var h := if xs[0].Dir? && DayKey(xs[0].name) == k then [ChildEntry(dir, xs[0])] else [];
      Assoc(h, DirsWithKey(dir, xs[1..], k), DirsWithKey(dir, ys, k));
    }
  }

  lemma DirsCons(dir: Entry, x: Node, rest: seq<Node>, k: string)
    ensures DirsWithKey(dir, [x] + rest, k) ==
      (if x.Dir? && DayKey(x.name) == k then [ChildEntry(dir, x)] else []) + DirsWithKey(dir, rest, k)
  {
    assert ([x] + rest)[1..] == rest;
  }

  lemma ExampleKeys(a: Node, b: Node, c: Node)
    requires a.Dir? && b.Dir? && c.Dir?
    ensures DirKeys([a, b, c]) == [DayKey(a.name), DayKey(b.name), DayKey(c.name)]
  {
    assert [c][1..] == [] && [b, c][1..] == [c] && [a, b, c][1..] == [b, c];
    assert DirKeys([c]) == [DayKey(c.name)] + DirKeys([]);
    assert DirKeys([b, c]) == [DayKey(b.name)] + DirKeys([c]);
  }

  /** A name of ten digits and no dot has its first eight as the day key. */
  lemma DayKeyOfHour(name: string)
    requires |name| == 10 && AllDigits(name)
    ensures DayKey(name) == name[..8]
  {
    assert LastIndexOf(name, '.') == -1 by {
      forall j | 0 <= j < |name| ensures name[j] != '.' { assert IsDigit(name[j]); }
    }
  }
}
