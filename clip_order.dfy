/** Line 100: `sorted(videos, key=lambda f: int(f.stem.split("_")[-1]))`, a
    stable sort of a day's clips by the number after the last underscore of
    the file name's stem. */
module ClipOrder {
  import opened Seqs
  import opened Names
  import opened Tree

  /** The sort key of a clip; `None` where `int()` raises `ValueError`. */
  function SeqNumber(clip: Entry): Option<int> {
    ParseInt(LastSegment(Stem(clip.node.name)))
  }

  /** `int()` succeeds on the clip's last stem segment. */
  predicate Numbered(e: Entry) {
    SeqNumber(e).Some?
  }

  /** The key `sorted` compares; only ever asked of clips that have one. */
  function ClipKey(e: Entry): int {
    match SeqNumber(e)
    case Some(n) => n
    case None => 0
  }

  /** Non-decreasing keys. */
  ghost predicate Ascending<T>(s: seq<T>, key: T -> int) {
    forall i, j :: 0 <= i < j < |s| ==> key(s[i]) <= key(s[j])
  }

  /** The elements of `s` whose key is `n`, in their order in `s`. */
  function WithKey<T>(s: seq<T>, key: T -> int, n: int): seq<T> {
    if s == [] then []
    else (if key(s[0]) == n then [s[0]] else []) + WithKey(s[1..], key, n)
  }

  /** Put `x` in front of the first element whose key is not smaller. */
  function Insert<T>(x: T, s: seq<T>, key: T -> int): (r: seq<T>)
    ensures multiset(r) == multiset(s) + multiset{x}
  {
    if s == [] || key(x) <= key(s[0]) then [x] + s
    else
      assert s == [s[0]] + s[1..];
      [s[0]] + Insert(x, s[1..], key)
  }

  /** Insertion sort taking the elements front to back; an element goes in
      front of the later ones that share its key, so the sort is stable. */
  function SortBy<T>(s: seq<T>, key: T -> int): (r: seq<T>)
    ensures multiset(r) == multiset(s)
  {
    if s == [] then []
    else
      assert s == [s[0]] + s[1..];
      Insert(s[0], SortBy(s[1..], key), key)
  }

  lemma {:induction false} InsertAscending<T>(x: T, s: seq<T>, key: T -> int)
    requires Ascending(s, key)
    ensures Ascending(Insert(x, s, key), key)
    ensures Insert(x, s, key)[0] == x || (s != [] && Insert(x, s, key)[0] == s[0])
    decreases |s|
  {
    if s != [] && key(x) > key(s[0]) {
      InsertAscending(x, s[1..], key);
      var t := Insert(x, s[1..], key);
      var r := [s[0]] + t;
      forall i, j | 0 <= i < j < |r| ensures key(r[i]) <= key(r[j]) {
        if i == 0 {
          assert r[j] == t[j - 1];
          if j > 1 {
            assert key(t[0]) <= key(t[j - 1]);
          }
          assert key(s[0]) <= key(t[0]) by {
            if t[0] != x { assert t[0] == s[1]; }
          }
        } else {
          assert r[i] == t[i - 1] && r[j] == t[j - 1];
        }
      }
    }
  }

  /** The result is in non-decreasing key order. */
  lemma {:induction false} SortAscending<T>(s: seq<T>, key: T -> int)
    ensures Ascending(SortBy(s, key), key)
    decreases |s|
  {
    if s != [] {
      SortAscending(s[1..], key);
      InsertAscending(s[0], SortBy(s[1..], key), key);
    }
  }

  lemma {:induction false} InsertStable<T>(x: T, s: seq<T>, key: T -> int, n: int)
    ensures WithKey(Insert(x, s, key), key, n) == (if key(x) == n then [x] else []) + WithKey(s, key, n)
    decreases |s|
  {
    if s == [] || key(x) <= key(s[0]) {
      var r := [x] + s;
      assert r[1..] == s;
    } else {
      var r := Insert(x, s, key);
      assert r[1..] == Insert(x, s[1..], key);
      InsertStable(x, s[1..], key, n);
    }
  }

  /** Stability: elements that share a key keep their relative order. */
  lemma {:induction false} SortStable<T>(s: seq<T>, key: T -> int, n: int)
    ensures WithKey(SortBy(s, key), key, n) == WithKey(s, key, n)
    decreases |s|
  {
    if s != [] {
      SortStable(s[1..], key, n);
      InsertStable(s[0], SortBy(s[1..], key), key, n);
    }
  }

  /** Line 100 as a whole: `None` where some clip's key raises (`sorted`
      computes every key before comparing, front to back, so the clip at
      `FirstFailing(clips, Numbered)` is the one that raises); otherwise
      the clips as a permutation in non-decreasing sequence-number order, with
      clips of equal number in the order they were collected. */
  function OrderClips(clips: seq<Entry>): (r: Option<seq<Entry>>)
    ensures r.None? <==> exists i :: 0 <= i < |clips| && !Numbered(clips[i])
    ensures r.Some? ==> multiset(r.value) == multiset(clips)
    ensures r.Some? ==> forall i, j :: 0 <= i < j < |r.value| ==> ClipKey(r.value[i]) <= ClipKey(r.value[j])
    ensures r.Some? ==> forall n :: WithKey(r.value, ClipKey, n) == WithKey(clips, ClipKey, n)
  {
    if FirstFailing(clips, Numbered) >= 0 then None
    else
      SortAscending(clips, ClipKey);
      assert forall n :: WithKey(SortBy(clips, ClipKey), ClipKey, n) == WithKey(clips, ClipKey, n) by {
        forall n { SortStable(clips, ClipKey, n); }
      }
      Some(SortBy(clips, ClipKey))
  }

  /** A clip named `<prefix>_<n>.mp4`, with no dot in the prefix, has
      sequence number `n`. */
  lemma NumberedName(path: string, prefix: string, n: nat)
    requires forall i :: 0 <= i < |prefix| ==> prefix[i] != '.'
    ensures SeqNumber(Entry(path, File(prefix + "_" + Decimal(n) + ".mp4"))) == Some(n)
  {
    var d := Decimal(n);
    var name := prefix + "_" + d + ".mp4";
    var stem := prefix + "_" + d;
    assert forall i :: 0 <= i < |d| ==> d[i] != '.' && d[i] != '_' by {
      forall i | 0 <= i < |d| ensures d[i] != '.' && d[i] != '_' { assert IsDigit(d[i]); }
    }
    assert name[|stem|] == '.';
    assert LastIndexOf(name, '.') == |stem| by {
      forall j | |stem| < j < |name| ensures name[j] != '.' {
        assert name[j] == "mp4"[j - |stem| - 1];
      }
    }
    assert name[..|stem|] == stem;
    assert Stem(name) == stem;
    LastSegmentAfter(prefix + "_", d);
    ParseDecimal(n);
  }

  lemma {:induction false} LastSegmentAfter(p: string, d: string)
    requires p != [] && p[|p| - 1] == '_'
    requires forall i :: 0 <= i < |d| ==> d[i] != '_'
    ensures LastSegment(p + d) == d
    decreases |d|
  {
    if d == [] {
      assert p + d == p;
    } else {
      var s, k := p + d, |d| - 1;
      assert s[|s| - 1] == d[k] && s[..|s| - 1] == p + d[..k];
      LastSegmentAfter(p, d[..k]);
      assert LastSegment(s) == d[..k] + [d[k]];
      assert d[..k] + [d[k]] == d;
    }
  }

  /** Clips `a_1.mp4`, `a_10.mp4`, `a_2.mp4` are ordered numerically:
      `a_1`, `a_2`, `a_10`. */
  lemma OrderExample(dir: string)
    ensures
      var c1, c10, c2 := Entry(dir + "/a_1.mp4", File("a_1.mp4")),
                         Entry(dir + "/a_10.mp4", File("a_10.mp4")),
                         Entry(dir + "/a_2.mp4", File("a_2.mp4"));
      OrderClips([c1, c10, c2]) == Some([c1, c2, c10])
  {
    var c1, c10, c2 := Entry(dir + "/a_1.mp4", File("a_1.mp4")),
                       Entry(dir + "/a_10.mp4", File("a_10.mp4")),
                       Entry(dir + "/a_2.mp4", File("a_2.mp4"));
    ExampleNumbers(c1, c2, c10);
    AllPass3(c1, c10, c2, Numbered);
    SortThreeBy(c1, c2, c10, ClipKey);
  }

  lemma SortThreeBy<T>(x: T, y: T, z: T, key: T -> int)
    requires key(x) < key(y) < key(z)
    ensures SortBy([x, z, y], key) == [x, y, z]
  {
    var s := [x, z, y];
    assert s[1..] == [z, y];
    SortPairBy(y, z, key);
    assert SortBy(s, key) == Insert(x, [y, z], key);
  }

  lemma SortPairBy<T>(y: T, z: T, key: T -> int)
    requires key(y) < key(z)
    ensures SortBy([z, y], key) == [y, z]
  {
    var s := [z, y];
    assert s[1..] == [y] && s[1..][1..] == [];
    assert SortBy([y], key) == [y];
    assert Insert(z, [y], key) == [y] + Insert(z, [], key);
  }

  lemma ExampleNumbers(c1: Entry, c2: Entry, c10: Entry)
    requires c1.node == File("a_1.mp4") && c2.node == File("a_2.mp4") && c10.node == File("a_10.mp4")
    ensures ClipKey(c1) == 1 && ClipKey(c2) == 2 && ClipKey(c10) == 10
    ensures Numbered(c1) && Numbered(c2) && Numbered(c10)
  {
    assert Decimal(1) == "1" && Decimal(2) == "2" && Decimal(10) == "10";
    assert "a" + "_" + "1" + ".mp4" == "a_1.mp4";
    assert "a" + "_" + "2" + ".mp4" == "a_2.mp4";
    assert "a" + "_" + "10" + ".mp4" == "a_10.mp4";
    NumberedName(c1.path, "a", 1);
    NumberedName(c2.path, "a", 2);
    NumberedName(c10.path, "a", 10);
  }
}
