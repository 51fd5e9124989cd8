/** What a run of the merger does to the file system: `startup`,
    `merge_dirs` and `merge_videos` (lines 17-117) over a snapshot of the
    recording tree, recorded as a log of file-system events. Each method follows the source
    step by step, threading the log through, and is proved against a
    function that says which events it logs. */
module Planner {
  import opened Seqs
  import opened Names
  import opened Tree
  import opened DayDict
  import opened ClipOrder
  import opened PlayList

  /** A file-system effect of the run. */
  datatype Event =
    | EnsureDir(path: string)                 // `mkdir(parents=True)` unless it exists (lines 57-59, 104-105)
    | WriteText(path: string, text: string)   // `write_text` of the play-list (line 109)
    | Concat(list: string, target: string)    // the `ffmpeg` concatenation (lines 22-27)
    | RemoveTree(path: string)                // `shutil.rmtree` (line 36)
    | RemoveFile(path: string)                // `os.remove` (line 39)

  /** An exception that nothing catches: it ends the whole run. */
  datatype Failure =
    | BadSequenceNumber(clip: string)   // `int()` raises `ValueError` on line 100
    | EndlessRecursion(dir: string)     // line 96 calls `merge_dirs` on its own `in_dir` again
    | NotADirectory(dir: string)        // `iterdir` on a file (line 114)
    | PlayListGone(list: string)        // `os.remove` on line 39 after an `rmtree` took the play-list

  /** The events a call logs and the failure it ends with, if any. */
  datatype Outcome = Outcome(events: seq<Event>, failure: Option<Failure>)

  /** What line 94-110 decides for one day. */
  datatype Plan =
    | Skip
    | Descend(next: Entry)
    | Merge(list: string, target: string, clips: seq<Entry>)
    | Fail(failure: Failure)

  // ---------------------------------------------------------------------
  // Paths

  /** Line 103: `{output_dir}/{date_name}/{parent_path}` as pathlib reads it. */
  function MergeOutputDir(out: string, dateName: string, parentPath: string): string {
    JoinPath(JoinPath(out, dateName), parentPath)
  }

  /** Line 107: the play-list of a day. */
  function ListPath(dir: string, day: string): string {
    JoinPath(dir, day + "_video_list.txt")
  }

  /** Line 110: the merged video of a day. */
  function TargetPath(dir: string, day: string): string {
    JoinPath(dir, day + ".mp4")
  }

  /** The resolved paths of the clips (line 101). */
  function ClipPaths(clips: seq<Entry>): (r: seq<string>)
    ensures |r| == |clips| && forall i :: 0 <= i < |clips| ==> r[i] == clips[i].path
  {
    if clips == [] then [] else [clips[0].path] + ClipPaths(clips[1..])
  }

  /** The play-list of a day is never its own merge target and never a clip:
      it ends in `.txt`, the others in `.mp4`. */
  lemma OutputNames(dir: string, day: string, clip: string)
    requires IsMp4(clip)
    ensures ListPath(dir, day) != TargetPath(dir, day)
    ensures ListPath(dir, day) != clip
    ensures IsMp4(TargetPath(dir, day))
  {
    var ln, tn := day + "_video_list.txt", day + ".mp4";
    EndsWith(ListPath(dir, day), ln, 1);
    EndsWith(TargetPath(dir, day), tn, 4);
    assert ln[|ln| - 1..] == "t" && tn[|tn| - 4..] == ".mp4";
    EndsWith(clip, clip[|clip| - 4..], 1);
  }

  /** The play-list and the merged video of a day lie in the day's output
      directory. */
  lemma OutputParents(dir: string, day: string)
    requires dir == "/" || (dir != [] && dir[|dir| - 1] != '/')
    requires forall i :: 0 <= i < |day| ==> day[i] != '/'
    ensures Parent(ListPath(dir, day)) == dir && Parent(TargetPath(dir, day)) == dir
  {
    NoSlashAfter(day, "_video_list.txt");
    NoSlashAfter(day, ".mp4");
    ParentOfJoin(dir, day + "_video_list.txt");
    ParentOfJoin(dir, day + ".mp4");
  }

  lemma NoSlashAfter(day: string, suffix: string)
    requires forall i :: 0 <= i < |day| ==> day[i] != '/'
    requires forall i :: 0 <= i < |suffix| ==> suffix[i] != '/'
    ensures forall i :: 0 <= i < |day + suffix| ==> (day + suffix)[i] != '/'
  {
  }

  /** A string that ends in `part` ends in the last `n` characters of `part`. */
  lemma EndsWith(r: string, part: string, n: nat)
    requires n <= |part| <= |r| && r[|r| - |part|..] == part
    ensures r[|r| - n..] == part[|part| - n..]
  {
    assert r[|r| - n..] == r[|r| - |part|..][|part| - n..];
  }

  // ---------------------------------------------------------------------
  // Existence and the cleanup of lines 29-39

  /** `p` lies in a tree that an earlier `rmtree` of the run removed. */
  predicate Removed(log: seq<Event>, p: string) {
    && log != []
    && (|| (log[|log| - 1].RemoveTree? && IsUnder(p, log[|log| - 1].path))
        || Removed(log[..|log| - 1], p))
  }

  /** `Path(p).exists()` after the events of `log`: present when the run
      started and not removed since. */
  predicate Exists(present: set<string>, log: seq<Event>, p: string) {
    p in present && !Removed(log, p)
  }

  /** Lines 32-33: the directory holding the path listed on `line`. */
  function LineParent(line: string): string {
    Parent(ParseLine(line))
  }

  /** Line 33: the parent of each path listed in the play-list. */
  function Parents(lines: seq<string>): seq<string> {
    MapSeq(LineParent, lines)
  }

  /** Lines 34-36 over `dirs`, after the events of `log`: each directory is
      removed when it still exists. */
  function Sweep(present: set<string>, log: seq<Event>, dirs: seq<string>): seq<Event>
    decreases |dirs|
  {
    if dirs == [] then []
    else
      var now := if Exists(present, log, dirs[0]) then [RemoveTree(dirs[0])] else [];
      now + Sweep(present, log + now, dirs[1..])
  }

  /** `merge_videos` (lines 17-39): the concatenation, the cleanup of the
      play-list's parents, then the play-list itself. `text` is the
      play-list as it was written. When the cleanup removed a tree holding
      the play-list, `os.remove` raises and nothing catches it. */
  function MergeVideosSpec(present: set<string>, log: seq<Event>, list: string, target: string, text: string): Outcome {
    var start := log + [Concat(list, target)];
    var sweep := Sweep(present, start, Parents(ReadLines(text)));
    if Removed(sweep, list) then Outcome([Concat(list, target)] + sweep, Some(PlayListGone(list)))
    else Outcome([Concat(list, target)] + sweep + [RemoveFile(list)], None)
  }

  /** `Removed` holds exactly when some logged `rmtree` covers the path. */
  lemma {:induction false} RemovedAt(log: seq<Event>, p: string)
    ensures Removed(log, p) <==> exists k :: 0 <= k < |log| && log[k].RemoveTree? && IsUnder(p, log[k].path)
    decreases |log|
  {
    if log != [] {
      var init := log[..|log| - 1];
      RemovedAt(init, p);
      assert forall k :: 0 <= k < |init| ==> init[k] == log[k];
    }
  }

  /** A play-list written inside the directory of its first clip (the
      compatibility path with the output directory inside the camera
      directory) is removed by the cleanup together with that directory, so
      line 39 raises. */
  lemma PlayListSwept(present: set<string>, log: seq<Event>, list: string, target: string, paths: seq<string>)
    requires |paths| > 0 && forall i :: 0 <= i < |paths| ==> Plain(Slashes(paths[i]))
    requires Exists(present, log + [Concat(list, target)], Parent(Slashes(paths[0])))
    requires IsUnder(list, Parent(Slashes(paths[0])))
    ensures MergeVideosSpec(present, log, list, target, Format(paths)).failure == Some(PlayListGone(list))
  {
    var ps := Parents(ReadLines(Format(paths)));
    ParentsOfPlayList(paths);
    SweptFirst(present, log + [Concat(list, target)], ps, list);
  }

  /** A sweep whose first directory exists and holds `p` removes `p`. */
  lemma SweptFirst(present: set<string>, log: seq<Event>, dirs: seq<string>, p: string)
    requires |dirs| > 0 && Exists(present, log, dirs[0]) && IsUnder(p, dirs[0])
    ensures Removed(Sweep(present, log, dirs), p)
  {
    var sweep := Sweep(present, log, dirs);
    assert sweep == [RemoveTree(dirs[0])] + Sweep(present, log + [RemoveTree(dirs[0])], dirs[1..]);
    RemovedAt(sweep, p);
    assert sweep[0] == RemoveTree(dirs[0]);
  }

  /** One pass of the loop of lines 31-36: the parent `dirs[i]` is removed
      if it exists, and the sweep goes on from there. */
  lemma SweepStep(present: set<string>, log: seq<Event>, dirs: seq<string>, i: nat)
    requires i < |dirs|
    ensures Sweep(present, log, dirs[i..]) ==
      if Exists(present, log, dirs[i]) then [RemoveTree(dirs[i])] + Sweep(present, log + [RemoveTree(dirs[i])], dirs[i + 1..])
      else Sweep(present, log, dirs[i + 1..])
  {
    assert dirs[i..][0] == dirs[i] && dirs[i..][1..] == dirs[i + 1..];
    assert log + [] == log;
  }

  /** The loop invariant of lines 31-36 carried over one line. */
  lemma SweepAdvance(present: set<string>, log0: seq<Event>, log: seq<Event>, done: seq<Event>, dirs: seq<string>, i: nat)
    requires i < |dirs| && Sweep(present, log0, dirs) == done + Sweep(present, log, dirs[i..])
    ensures Exists(present, log, dirs[i]) ==>
      Sweep(present, log0, dirs) == (done + [RemoveTree(dirs[i])]) + Sweep(present, log + [RemoveTree(dirs[i])], dirs[i + 1..])
    ensures !Exists(present, log, dirs[i]) ==>
      Sweep(present, log0, dirs) == done + Sweep(present, log, dirs[i + 1..])
  {
    SweepStep(present, log, dirs, i);
    if Exists(present, log, dirs[i]) {
      Assoc(done, [RemoveTree(dirs[i])], Sweep(present, log + [RemoveTree(dirs[i])], dirs[i + 1..]));
    }
  }

  lemma {:induction false} RemovedGrows(log: seq<Event>, more: seq<Event>, p: string)
    requires Removed(log, p)
    ensures Removed(log + more, p)
    decreases |more|
  {
    if more == [] {
      assert log + more == log;
    } else {
      var l := log + more;
      assert l[..|l| - 1] == log + more[..|more| - 1];
      RemovedGrows(log, more[..|more| - 1], p);
    }
  }

  /** The sweep removes nothing but the given directories. */
  lemma {:induction false} SweepSound(present: set<string>, log: seq<Event>, dirs: seq<string>)
    ensures forall ev :: ev in Sweep(present, log, dirs) ==> ev.RemoveTree? && ev.path in dirs
    decreases |dirs|
  {
    if dirs != [] {
      var now := if Exists(present, log, dirs[0]) then [RemoveTree(dirs[0])] else [];
      SweepSound(present, log + now, dirs[1..]);
      assert Sweep(present, log, dirs) == now + Sweep(present, log + now, dirs[1..]);
    }
  }

  /** The sweep removes every given directory that exists when it starts. */
  lemma {:induction false} SweepComplete(present: set<string>, log: seq<Event>, dirs: seq<string>, j: nat)
    requires j < |dirs| && Exists(present, log, dirs[j])
    ensures Removed(log + Sweep(present, log, dirs), dirs[j])
    decreases |dirs|
  {
    var now := if Exists(present, log, dirs[0]) then [RemoveTree(dirs[0])] else [];
    var rest := Sweep(present, log + now, dirs[1..]);
    assert log + Sweep(present, log, dirs) == (log + now) + rest;
    var p := dirs[j];
    if j == 0 {
      assert (log + now)[..|log|] == log;
      assert IsUnder(p, p);
      RemovedGrows(log + now, rest, p);
    } else if Removed(log + now, p) {
      RemovedGrows(log + now, rest, p);
    } else {
      assert dirs[1..][j - 1] == p;
      SweepComplete(present, log + now, dirs[1..], j - 1);
    }
  }

  /** Cleanup scope (lines 29-39): applied to a play-list written from
      `paths`, the run removes only the parents of the listed clips, and
      every such parent that exists at that point is gone afterwards. */
  lemma CleanupScope(present: set<string>, log: seq<Event>, paths: seq<string>)
    requires forall i :: 0 <= i < |paths| ==> Plain(Slashes(paths[i]))
    ensures var c := Sweep(present, log, Parents(ReadLines(Format(paths))));
      && (forall ev :: ev in c ==> ev.RemoveTree? && exists j :: 0 <= j < |paths| && ev.path == Parent(Slashes(paths[j])))
      && (forall j :: 0 <= j < |paths| && Exists(present, log, Parent(Slashes(paths[j]))) ==>
            Removed(log + c, Parent(Slashes(paths[j]))))
  {
    var ps := Parents(ReadLines(Format(paths)));
    ParentsOfPlayList(paths);
    SweepSound(present, log, ps);
    forall j | 0 <= j < |paths| && Exists(present, log, Parent(Slashes(paths[j])))
      ensures Removed(log + Sweep(present, log, ps), Parent(Slashes(paths[j])))
    {
      SweepComplete(present, log, ps, j);
    }
  }

  /** Events other than `rmtree` remove nothing. */
  lemma NoTreeRemoved(log: seq<Event>, more: seq<Event>, p: string)
    requires forall k :: 0 <= k < |more| ==> !more[k].RemoveTree?
    ensures Removed(log + more, p) <==> Removed(log, p)
  {
    var l := log + more;
    RemovedAt(l, p);
    RemovedAt(log, p);
    assert forall k :: 0 <= k < |log| ==> l[k] == log[k];
    assert forall k :: |log| <= k < |l| ==> l[k] == more[k - |log|];
  }

  /** Lines 104-110 as three parts: the head before the cleanup, the sweep,
      and the removal of the play-list unless the sweep took it. */
  lemma MergeEventsSplit(present: set<string>, log: seq<Event>, dir: string, list: string, target: string, text: string)
    ensures var head := [EnsureDir(dir), WriteText(list, text), Concat(list, target)];
      var sweep := Sweep(present, log + head, Parents(ReadLines(text)));
      MergeEvents(present, log, dir, list, target, text).events ==
        head + sweep + (if Removed(sweep, list) then [] else [RemoveFile(list)])
  {
    var pre := [EnsureDir(dir), WriteText(list, text)];
    var head := pre + [Concat(list, target)];
    assert head == [EnsureDir(dir), WriteText(list, text), Concat(list, target)];
    var start := (log + pre) + [Concat(list, target)];
    assert log + head == start;
    var sweep := Sweep(present, start, Parents(ReadLines(text)));
    var m := MergeVideosSpec(present, log + pre, list, target, text);
    assert MergeEvents(present, log, dir, list, target, text).events == pre + m.events;
    if Removed(sweep, list) {
      assert m.events == [Concat(list, target)] + sweep;
      Assoc(pre, [Concat(list, target)], sweep);
      assert head + sweep + [] == head + sweep;
    } else {
      var c := [Concat(list, target)];
      assert m.events == (c + sweep) + [RemoveFile(list)];
      assert pre + m.events == (pre + (c + sweep)) + [RemoveFile(list)] by {
        Assoc(pre, c + sweep, [RemoveFile(list)]);
      }
      assert pre + (c + sweep) == head + sweep by {
        Assoc(pre, c, sweep);
      }
    }
  }

  /** Cleanup scope of one merge (lines 104-110): the trees removed are
      parents of the clips written into the play-list, and every such parent
      that existed before line 104 is gone afterwards. */
  lemma MergeSweepScope(present: set<string>, log: seq<Event>, dir: string, list: string, target: string,
                        paths: seq<string>)
    requires forall i :: 0 <= i < |paths| ==> Plain(Slashes(paths[i]))
    ensures var m := MergeEvents(present, log, dir, list, target, Format(paths));
      && (forall ev :: ev in m.events && ev.RemoveTree? ==>
            exists j :: 0 <= j < |paths| && ev.path == Parent(Slashes(paths[j])))
      && (forall j :: 0 <= j < |paths| && Exists(present, log, Parent(Slashes(paths[j]))) ==>
            Removed(log + m.events, Parent(Slashes(paths[j]))))
  {
    MergeRemovesListed(present, log, dir, list, target, paths);
    MergeRemovesExisting(present, log, dir, list, target, paths);
  }

  /** Every tree that `events` removes is the parent of one of `paths`. */
  predicate RemovesOnlyParents(events: seq<Event>, paths: seq<string>)
  {
    forall ev :: ev in events && ev.RemoveTree? ==>
      exists j :: 0 <= j < |paths| && ev.path == Parent(Slashes(paths[j]))
  }

  lemma MergeRemovesListed(present: set<string>, log: seq<Event>, dir: string, list: string, target: string,
                           paths: seq<string>)
    requires forall i :: 0 <= i < |paths| ==> Plain(Slashes(paths[i]))
    ensures RemovesOnlyParents(MergeEvents(present, log, dir, list, target, Format(paths)).events, paths)
  {
    var head := [EnsureDir(dir), WriteText(list, Format(paths)), Concat(list, target)];
    CleanupScope(present, log + head, paths);
    MergeRemovesSwept(present, log, dir, list, target, Format(paths), paths);
  }

  /** The merge removes no tree besides those its sweep removes. */
  lemma MergeRemovesSwept(present: set<string>, log: seq<Event>, dir: string, list: string, target: string,
                          text: string, paths: seq<string>)
    requires var head := [EnsureDir(dir), WriteText(list, text), Concat(list, target)];
      RemovesOnlyParents(Sweep(present, log + head, Parents(ReadLines(text))), paths)
    ensures RemovesOnlyParents(MergeEvents(present, log, dir, list, target, text).events, paths)
  {
    var head := [EnsureDir(dir), WriteText(list, text), Concat(list, target)];
    var sweep := Sweep(present, log + head, Parents(ReadLines(text)));
    var tail := if Removed(sweep, list) then [] else [RemoveFile(list)];
    assert MergeEvents(present, log, dir, list, target, text).events == head + sweep + tail by {
      MergeEventsSplit(present, log, dir, list, target, text);
    }
    SweepOnly(dir, list, target, text, sweep, tail, paths);
  }

  lemma MergeRemovesExisting(present: set<string>, log: seq<Event>, dir: string, list: string, target: string,
                             paths: seq<string>)
    requires forall i :: 0 <= i < |paths| ==> Plain(Slashes(paths[i]))
    ensures var m := MergeEvents(present, log, dir, list, target, Format(paths));
      forall j :: 0 <= j < |paths| && Exists(present, log, Parent(Slashes(paths[j]))) ==>
        Removed(log + m.events, Parent(Slashes(paths[j])))
  {
    var text := Format(paths);
    var head := [EnsureDir(dir), WriteText(list, text), Concat(list, target)];
    var sweep := Sweep(present, log + head, Parents(ReadLines(text)));
    var tail := if Removed(sweep, list) then [] else [RemoveFile(list)];
    assert MergeEvents(present, log, dir, list, target, text).events == head + sweep + tail by {
      MergeEventsSplit(present, log, dir, list, target, text);
    }
    assert forall k :: 0 <= k < |head| ==> !head[k].RemoveTree?;
    CleanupScope(present, log + head, paths);
    SweepAll(present, log, head, sweep, tail, paths);
  }

  /** The trees removed by the three opening events, the sweep and the tail are those the sweep removes. */
  lemma SweepOnly(dir: string, list: string, target: string, text: string, sweep: seq<Event>, tail: seq<Event>,
                  paths: seq<string>)
    requires tail == [] || tail == [RemoveFile(list)]
    requires RemovesOnlyParents(sweep, paths)
    ensures RemovesOnlyParents([EnsureDir(dir), WriteText(list, text), Concat(list, target)] + sweep + tail, paths)
  {
    var head := [EnsureDir(dir), WriteText(list, text), Concat(list, target)];
    assert forall ev :: ev in head + sweep + tail && ev.RemoveTree? ==> ev in sweep;
  }

  /** What the sweep removes stays removed once the tail is logged, and
      the head removed nothing before it. */
  lemma SweepAll(present: set<string>, log: seq<Event>, head: seq<Event>, sweep: seq<Event>, tail: seq<Event>,
                 paths: seq<string>)
    requires forall k :: 0 <= k < |head| ==> !head[k].RemoveTree?
    requires forall j :: 0 <= j < |paths| && Exists(present, log + head, Parent(Slashes(paths[j]))) ==>
      Removed(log + head + sweep, Parent(Slashes(paths[j])))
    ensures forall j :: 0 <= j < |paths| && Exists(present, log, Parent(Slashes(paths[j]))) ==>
      Removed(log + (head + sweep + tail), Parent(Slashes(paths[j])))
  {
    forall j | 0 <= j < |paths| && Exists(present, log, Parent(Slashes(paths[j])))
      ensures Removed(log + (head + sweep + tail), Parent(Slashes(paths[j])))
    {
      var d := Parent(Slashes(paths[j]));
      NoTreeRemoved(log, head, d);
      RemovedGrows(log + head + sweep, tail, d);
      assert log + (head + sweep + tail) == log + head + sweep + tail by {
        Assoc(log, head + sweep, tail);
        Assoc(log, head, sweep);
      }
    }
  }

  /** The parents read back from a play-list are those of the clips written
      into it. */
  lemma ParentsOfPlayList(paths: seq<string>)
    requires forall i :: 0 <= i < |paths| ==> Plain(Slashes(paths[i]))
    ensures |Parents(ReadLines(Format(paths)))| == |paths|
    ensures forall j :: 0 <= j < |paths| ==> Parents(ReadLines(Format(paths)))[j] == Parent(Slashes(paths[j]))
  {
    var lines := ReadLines(Format(paths));
    RoundTrip(paths);
    forall j | 0 <= j < |paths| ensures Parents(lines)[j] == Parent(Slashes(paths[j])) {
      assert ListedPaths(Format(paths))[j] == ParseLine(lines[j]);
      MapAt(LineParent, lines, j);
    }
  }

  // ---------------------------------------------------------------------
  // One day (lines 85-110)

  /** Lines 86-110 for the day `day` whose bucket is `bucket`, inside
      `merge_dirs(e, out, dateName, parentPath)`. */
  function PlanDay(e: Entry, out: string, dateName: string, parentPath: string, day: string, bucket: seq<Entry>): (r: Plan)
    requires bucket != []
    ensures r.Descend? ==> r.next == bucket[|bucket| - 1] && r.next != e
  {
    var videos := Clips(bucket);
    var last := bucket[|bucket| - 1];
    if videos == [] then
      if HasSubdirectories(last.node) then
        if last == e then Fail(EndlessRecursion(e.path)) else Descend(last)
      else Skip
    else ClipPlan(MergeOutputDir(out, dateName, parentPath), day, videos)
  }

  /** Lines 100-110 for a day with clips `videos`, merged into `dir`: the
      sort raises on the first clip without a number, or the day is merged. */
  function ClipPlan(dir: string, day: string, videos: seq<Entry>): (r: Plan)
    ensures r.Merge? || r.Fail?
  {
    match OrderClips(videos)
    case None => Fail(BadSequenceNumber(videos[FirstFailing(videos, Numbered)].path))
    case Some(sorted) => Merge(ListPath(dir, day), TargetPath(dir, day), sorted)
  }

  /** The recursion rule (lines 42-44, 92-99): a day descends only when it
      has no clips, and then into the last node of its bucket, provided that
      node has a sub-directory; a day without clips is never merged. */
  lemma RecursionRule(e: Entry, out: string, dateName: string, parentPath: string, day: string, bucket: seq<Entry>)
    requires bucket != []
    ensures var r := PlanDay(e, out, dateName, parentPath, day, bucket);
      && (r.Descend? <==>
            Clips(bucket) == [] && HasSubdirectories(bucket[|bucket| - 1].node) && bucket[|bucket| - 1] != e)
      && (Clips(bucket) == [] ==>
            && !r.Merge?
            && (r.Fail? <==> HasSubdirectories(bucket[|bucket| - 1].node) && bucket[|bucket| - 1] == e)
            && (r.Fail? ==> r.failure == EndlessRecursion(e.path)))
  {
  }

  /** A day with clips (lines 100-110) is merged exactly when every clip has
      a sequence number: into `{day}.mp4` of its output directory, from
      `{day}_video_list.txt`, with the clips as a permutation in
      non-decreasing number order; otherwise the run fails on a clip
      without a number. */
  lemma MergePlan(e: Entry, out: string, dateName: string, parentPath: string, day: string, bucket: seq<Entry>)
    requires bucket != [] && Clips(bucket) != []
    ensures var r := PlanDay(e, out, dateName, parentPath, day, bucket);
      && (r.Merge? <==> forall i :: 0 <= i < |Clips(bucket)| ==> Numbered(Clips(bucket)[i]))
      && (r.Merge? ==>
            && r.list == ListPath(MergeOutputDir(out, dateName, parentPath), day)
            && r.target == TargetPath(MergeOutputDir(out, dateName, parentPath), day)
            && multiset(r.clips) == multiset(Clips(bucket))
            && forall i, j :: 0 <= i < j < |r.clips| ==> ClipKey(r.clips[i]) <= ClipKey(r.clips[j]))
      && (!r.Merge? ==>
            && r.Fail?
            && (exists i :: 0 <= i < |Clips(bucket)| && !Numbered(Clips(bucket)[i]) &&
                  r.failure == BadSequenceNumber(Clips(bucket)[i].path)))
  {
    var videos := Clips(bucket);
    var dir := MergeOutputDir(out, dateName, parentPath);
    match OrderClips(videos)
    case None =>
      var i := FirstFailing(videos, Numbered);
      assert PlanDay(e, out, dateName, parentPath, day, bucket) == Fail(BadSequenceNumber(videos[i].path));
    case Some(sorted) =>
      assert PlanDay(e, out, dateName, parentPath, day, bucket) == Merge(ListPath(dir, day), TargetPath(dir, day), sorted);
  }

  // ---------------------------------------------------------------------
  // The run as functions

  /** `merge_dirs(e, out, dateName, parentPath)` after the events of `log`. */
  function MergeDirsSpec(present: set<string>, log: seq<Event>, e: Entry, out: string, dateName: string,
                         parentPath: string, today: string): (r: Outcome)
    ensures r.events != [] && r.events[0] == EnsureDir(out)
    ensures e.node.File? ==> r == Outcome([EnsureDir(out)], None)
    decreases e.node, 2
  {
    var start := [EnsureDir(out)];
    if e.node.File? then Outcome(start, None)
    else
      GroupSourced(e, dateName, today);
      var o := DaysSpec(present, log + start, e, out, dateName, parentPath, today, Group(e, dateName, today));
      Outcome(start + o.events, o.failure)
  }

  /** The loop of line 85 over `buckets`, stopping at the first failure. */
  function DaysSpec(present: set<string>, log: seq<Event>, e: Entry, out: string, dateName: string,
                    parentPath: string, today: string, buckets: Dict): Outcome
    requires forall i :: 0 <= i < |buckets| ==> Sourced(e, buckets[i].1)
    decreases e.node, 1, |buckets|
  {
    if buckets == [] then Outcome([], None)
    else
      var o := DaySpec(present, log, e, out, dateName, parentPath, today, buckets[0].0, buckets[0].1);
      if o.failure.Some? then o
      else
        var r := DaysSpec(present, log + o.events, e, out, dateName, parentPath, today, buckets[1..]);
        Outcome(o.events + r.events, r.failure)
  }

  /** The events of one day: a recursive call, nothing, or the output
      directory, the play-list and `merge_videos`. */
  function DaySpec(present: set<string>, log: seq<Event>, e: Entry, out: string, dateName: string,
                   parentPath: string, today: string, day: string, bucket: seq<Entry>): Outcome
    requires Sourced(e, bucket)
    decreases e.node, 0
  {
    match PlanDay(e, out, dateName, parentPath, day, bucket)
    case Skip => Outcome([], None)
    case Fail(f) => Outcome([], Some(f))
    case Descend(next) =>
      assert next in bucket;
      MergeDirsSpec(present, log, next, out, dateName, day, today)
    case Merge(list, target, clips) =>
      MergeEvents(present, log, MergeOutputDir(out, dateName, parentPath), list, target, Format(ClipPaths(clips)))
  }

  /** Lines 104-110: the output directory, the play-list, then
      `merge_videos`. */
  function MergeEvents(present: set<string>, log: seq<Event>, dir: string, list: string, target: string,
                       text: string): Outcome {
    var pre := [EnsureDir(dir), WriteText(list, text)];
    var m := MergeVideosSpec(present, log + pre, list, target, text);
    Outcome(pre + m.events, m.failure)
  }

  /** The loop invariant of `MergeDays`: what the days from `i` on will log
      and report completes what has been logged so far. */
  ghost predicate DaysLeft(present: set<string>, log: seq<Event>, e: Entry, out: string, dateName: string,
                           parentPath: string, today: string, buckets: Dict, i: nat,
                           all: Outcome, done: seq<Event>)
    requires i <= |buckets| && forall j :: 0 <= j < |buckets| ==> Sourced(e, buckets[j].1)
  {
    var rest := DaysSpec(present, log, e, out, dateName, parentPath, today, buckets[i..]);
    all.events == done + rest.events && all.failure == rest.failure
  }

  /** One pass of the loop of `MergeDays`: either day `i` fails and the run
      stops with the whole outcome, or the invariant moves to day `i + 1`. */
  lemma DaysAdvance(present: set<string>, log0: seq<Event>, log: seq<Event>, e: Entry, out: string,
                    dateName: string, parentPath: string, today: string, buckets: Dict, i: nat,
                    all: Outcome, done: seq<Event>)
    requires i < |buckets| && forall j :: 0 <= j < |buckets| ==> Sourced(e, buckets[j].1)
    requires log == log0 + done
    requires DaysLeft(present, log, e, out, dateName, parentPath, today, buckets, i, all, done)
    ensures var o := DaySpec(present, log, e, out, dateName, parentPath, today, buckets[i].0, buckets[i].1);
      && log + o.events == log0 + (done + o.events)
      && (o.failure.Some? ==> log + o.events == log0 + all.events && o.failure == all.failure)
      && (o.failure.None? ==>
            DaysLeft(present, log + o.events, e, out, dateName, parentPath, today, buckets, i + 1, all, done + o.events))
  {
    DaysStep(present, log, e, out, dateName, parentPath, today, buckets, i);
    var o := DaySpec(present, log, e, out, dateName, parentPath, today, buckets[i].0, buckets[i].1);
    Assoc(log0, done, o.events);
    if o.failure.None? {
      var next := DaysSpec(present, log + o.events, e, out, dateName, parentPath, today, buckets[i + 1..]);
      Assoc(done, o.events, next.events);
    }
  }

  lemma DaysStep(present: set<string>, log: seq<Event>, e: Entry, out: string, dateName: string,
                 parentPath: string, today: string, buckets: Dict, i: nat)
    requires i < |buckets| && forall j :: 0 <= j < |buckets| ==> Sourced(e, buckets[j].1)
    ensures
      var o := DaySpec(present, log, e, out, dateName, parentPath, today, buckets[i].0, buckets[i].1);
      var r := DaysSpec(present, log + o.events, e, out, dateName, parentPath, today, buckets[i + 1..]);
      DaysSpec(present, log, e, out, dateName, parentPath, today, buckets[i..]) ==
        if o.failure.Some? then o else Outcome(o.events + r.events, r.failure)
  {
    assert buckets[i..][0] == buckets[i] && buckets[i..][1..] == buckets[i + 1..];
  }

  /** A day without clips (lines 94-99) writes no play-list and merges
      nothing at this level: it either does nothing, fails, or is exactly the
      recursive call on the bucket's last node, with the same `date_name`
      and the day as `parent_path`. */
  lemma EmptyDayEvents(present: set<string>, log: seq<Event>, e: Entry, out: string, dateName: string,
                       parentPath: string, today: string, day: string, bucket: seq<Entry>)
    requires Sourced(e, bucket) && Clips(bucket) == []
    ensures var o := DaySpec(present, log, e, out, dateName, parentPath, today, day, bucket);
      var last := bucket[|bucket| - 1];
      if HasSubdirectories(last.node) && last != e then
        o == MergeDirsSpec(present, log, last, out, dateName, day, today)
      else
        o == Outcome([], if HasSubdirectories(last.node) then Some(EndlessRecursion(e.path)) else None)
  {
    RecursionRule(e, out, dateName, parentPath, day, bucket);
  }

  /** The effects of lines 104-110, in order: the output directory, the
      play-list, one concatenation of the play-list into the target, then
      removals of trees only. The play-list is removed last when no removed
      tree held it; otherwise the run fails on it, with nothing after the
      removals. */
  predicate MergeShape(m: Outcome, dir: string, list: string, target: string, text: string) {
    var ev := m.events;
    && |ev| >= 3
    && ev[0] == EnsureDir(dir) && ev[1] == WriteText(list, text) && ev[2] == Concat(list, target)
    && (m.failure.None? ==>
          && |ev| >= 4 && ev[|ev| - 1] == RemoveFile(list)
          && forall k :: 3 <= k < |ev| - 1 ==> ev[k].RemoveTree? && !IsUnder(list, ev[k].path))
    && (m.failure.Some? ==>
          && m.failure == Some(PlayListGone(list))
          && (forall k :: 3 <= k < |ev| ==> ev[k].RemoveTree?)
          && exists k :: 3 <= k < |ev| && IsUnder(list, ev[k].path))
  }

  /** A merged day (lines 100-110) logs the effects of lines 104-110 for its
      play-list and target. */
  lemma MergeDayEvents(present: set<string>, log: seq<Event>, e: Entry, out: string, dateName: string,
                       parentPath: string, today: string, day: string, bucket: seq<Entry>)
    requires Sourced(e, bucket) && PlanDay(e, out, dateName, parentPath, day, bucket).Merge?
    ensures var p := PlanDay(e, out, dateName, parentPath, day, bucket);
      MergeShape(DaySpec(present, log, e, out, dateName, parentPath, today, day, bucket),
                 MergeOutputDir(out, dateName, parentPath), p.list, p.target, Format(ClipPaths(p.clips)))
  {
    var p := PlanDay(e, out, dateName, parentPath, day, bucket);
    DayMerges(present, log, e, out, dateName, parentPath, today, day, bucket);
    MergeEventsShape(present, log, MergeOutputDir(out, dateName, parentPath), p.list, p.target, Format(ClipPaths(p.clips)));
  }

  /** A merged day removes its own nodes only (lines 33-36 over the clips of
      lines 86-89): every tree its cleanup removes is a node of its bucket,
      and every node of the bucket holding a clip that exists when the day
      starts is removed. Paths are taken as `resolve()` gives them: no
      trailing separator, one-component names, no backslash. */
  lemma DaySweepOwnNodes(present: set<string>, log: seq<Event>, e: Entry, out: string, dateName: string,
                         parentPath: string, today: string, day: string, bucket: seq<Entry>)
    requires Sourced(e, bucket) && PlanDay(e, out, dateName, parentPath, day, bucket).Merge?
    requires WellNamed(bucket)
    requires forall x :: x in Clips(bucket) ==> Plain(x.path) && NoBackslash(x.path)
    ensures var o := DaySpec(present, log, e, out, dateName, parentPath, today, day, bucket);
      && (forall ev :: ev in o.events && ev.RemoveTree? ==>
            exists i :: 0 <= i < |bucket| && ev.path == bucket[i].path)
      && (forall i, c ::
            (0 <= i < |bucket| && bucket[i].node.Dir? && c in bucket[i].node.children &&
             IsMp4(c.name) && Exists(present, log, bucket[i].path)) ==>
            Removed(log + o.events, bucket[i].path))
  {
    var p := PlanDay(e, out, dateName, parentPath, day, bucket);
    var dir := MergeOutputDir(out, dateName, parentPath);
    assert Clips(bucket) != [];
    MergePlan(e, out, dateName, parentPath, day, bucket);
    DayMerges(present, log, e, out, dateName, parentPath, today, day, bucket);
    var paths := ClipPaths(p.clips);
    ListedClips(bucket, p.clips);
    MergeSweepScope(present, log, dir, p.list, p.target, paths);
    var o := MergeEvents(present, log, dir, p.list, p.target, Format(paths));
    SweptNodesOnly(bucket, p.clips, o.events);
    SweptNodesAll(present, log, bucket, p.clips, o.events);
  }

  /** The sorted clips are the day's clips, each written as its own path. */
  lemma ListedClips(bucket: seq<Entry>, clips: seq<Entry>)
    requires multiset(clips) == multiset(Clips(bucket))
    requires forall x :: x in Clips(bucket) ==> Plain(x.path) && NoBackslash(x.path)
    ensures forall j :: 0 <= j < |clips| ==>
      clips[j] in Clips(bucket) && Slashes(ClipPaths(clips)[j]) == clips[j].path && Plain(Slashes(ClipPaths(clips)[j]))
  {
    forall j | 0 <= j < |clips|
      ensures clips[j] in Clips(bucket) && Slashes(ClipPaths(clips)[j]) == clips[j].path
    {
      assert clips[j] in multiset(clips);
      SlashesIdentity(clips[j].path);
    }
  }

  /** Removing only parents of the day's clips removes only the day's nodes. */
  lemma SweptNodesOnly(bucket: seq<Entry>, clips: seq<Entry>, events: seq<Event>)
    requires WellNamed(bucket)
    requires forall j :: 0 <= j < |clips| ==> clips[j] in Clips(bucket) && Slashes(ClipPaths(clips)[j]) == clips[j].path
    requires forall ev :: ev in events && ev.RemoveTree? ==>
      exists j :: 0 <= j < |ClipPaths(clips)| && ev.path == Parent(Slashes(ClipPaths(clips)[j]))
    ensures forall ev :: ev in events && ev.RemoveTree? ==> exists i :: 0 <= i < |bucket| && ev.path == bucket[i].path
  {
    forall ev | ev in events && ev.RemoveTree?
      ensures exists i :: 0 <= i < |bucket| && ev.path == bucket[i].path
    {
      var j :| 0 <= j < |ClipPaths(clips)| && ev.path == Parent(Slashes(ClipPaths(clips)[j]));
      ClipParent(bucket, clips[j]);
    }
  }

  /** Removing every existing parent of the sorted clips removes every
      existing node of the day that holds a clip. */
  lemma SweptNodesAll(present: set<string>, log: seq<Event>, bucket: seq<Entry>, clips: seq<Entry>, events: seq<Event>)
    requires WellNamed(bucket) && multiset(clips) == multiset(Clips(bucket))
    requires forall j :: 0 <= j < |clips| ==> Slashes(ClipPaths(clips)[j]) == clips[j].path
    requires forall j :: 0 <= j < |ClipPaths(clips)| && Exists(present, log, Parent(Slashes(ClipPaths(clips)[j]))) ==>
      Removed(log + events, Parent(Slashes(ClipPaths(clips)[j])))
    ensures forall i, c ::
      (0 <= i < |bucket| && bucket[i].node.Dir? && c in bucket[i].node.children &&
       IsMp4(c.name) && Exists(present, log, bucket[i].path)) ==>
      Removed(log + events, bucket[i].path)
  {
    forall i, c | 0 <= i < |bucket| && bucket[i].node.Dir? && c in bucket[i].node.children &&
                  IsMp4(c.name) && Exists(present, log, bucket[i].path)
      ensures Removed(log + events, bucket[i].path)
    {
      var x := ChildEntry(bucket[i], c);
      ClipOfNode(bucket, i, c);
      assert x in multiset(clips);
      var j :| 0 <= j < |clips| && clips[j] == x;
      assert Parent(Slashes(ClipPaths(clips)[j])) == bucket[i].path;
    }
  }

  /** The effects of lines 104-110, position by position; `merge_videos`
      fails exactly when the cleanup removed a tree holding the play-list. */
  lemma MergeEventsShape(present: set<string>, log: seq<Event>, dir: string, list: string, target: string, text: string)
    ensures MergeShape(MergeEvents(present, log, dir, list, target, text), dir, list, target, text)
  {
    var pre := [EnsureDir(dir), WriteText(list, text)];
    var start := (log + pre) + [Concat(list, target)];
    var sweep := Sweep(present, start, Parents(ReadLines(text)));
    SweepSound(present, start, Parents(ReadLines(text)));
    ShapeFromSweep(dir, list, target, text, sweep);
    var head := pre + [Concat(list, target)];
    assert head == [EnsureDir(dir), WriteText(list, text), Concat(list, target)];
    var m := MergeVideosSpec(present, log + pre, list, target, text);
    var r := MergeEvents(present, log, dir, list, target, text);
    assert r == Outcome(pre + m.events, m.failure);
    if Removed(sweep, list) {
      assert m == Outcome([Concat(list, target)] + sweep, Some(PlayListGone(list)));
      assert r == Outcome(head + sweep, Some(PlayListGone(list))) by {
        Assoc(pre, [Concat(list, target)], sweep);
      }
    } else {
      assert m == Outcome([Concat(list, target)] + sweep + [RemoveFile(list)], None);
      assert r == Outcome(head + sweep + [RemoveFile(list)], None) by {
        Assoc(pre, [Concat(list, target)], sweep);
        Assoc(pre, [Concat(list, target)] + sweep, [RemoveFile(list)]);
      }
    }
  }

  /** The shape of lines 104-110 for a cleanup that removed trees only. */
  lemma ShapeFromSweep(dir: string, list: string, target: string, text: string, sweep: seq<Event>)
    requires forall ev :: ev in sweep ==> ev.RemoveTree?
    ensures var head := [EnsureDir(dir), WriteText(list, text), Concat(list, target)];
      MergeShape(if Removed(sweep, list) then Outcome(head + sweep, Some(PlayListGone(list)))
                 else Outcome(head + sweep + [RemoveFile(list)], None), dir, list, target, text)
  {
    var head := [EnsureDir(dir), WriteText(list, text), Concat(list, target)];
    RemovedAt(sweep, list);
    if Removed(sweep, list) {
      var ev := head + sweep;
      forall k | 3 <= k < |ev| ensures ev[k].RemoveTree? {
        assert ev[k] == sweep[k - 3];
      }
      var k' :| 0 <= k' < |sweep| && sweep[k'].RemoveTree? && IsUnder(list, sweep[k'].path);
      assert ev[k' + 3] == sweep[k'];
    } else {
      var ev := head + sweep + [RemoveFile(list)];
      forall k | 3 <= k < |ev| - 1 ensures ev[k].RemoveTree? && !IsUnder(list, ev[k].path) {
        assert ev[k] == sweep[k - 3];
      }
    }
  }

  /** A camera directory holding only files, none of them a clip, makes
      `merge_dirs` create the output directory and do nothing else: with a
      stray file its one compatibility bucket has no clips and no
      sub-directory (lines 70-74, 94), without one there is no bucket at all. */
  lemma MergeDirsIdle(present: set<string>, log: seq<Event>, e: Entry, out: string, dateName: string,
                      parentPath: string, today: string)
    requires e.node.Dir? && forall c :: c in e.node.children ==> c.File? && !IsMp4(c.name)
    ensures MergeDirsSpec(present, log, e, out, dateName, parentPath, today) == Outcome([EnsureDir(out)], None)
  {
    var g := Group(e, dateName, today);
    GroupSourced(e, dateName, today);
    FilesOnlyGroup(e, dateName, today);
    var start := [EnsureDir(out)];
    if g != [] {
      NoMp4Among(e, e.node.children);
      assert Clips([e]) == Clips([]) + Mp4Children(e);
      assert PlanDay(e, out, dateName, parentPath, dateName, [e]) == Skip;
      assert g[0] == (dateName, [e]) && g[1..] == [];
      assert DaySpec(present, log + start, e, out, dateName, parentPath, today, dateName, [e]) == Outcome([], None);
      assert DaysSpec(present, log + start, e, out, dateName, parentPath, today, g[1..]) == Outcome([], None);
    }
    assert DaysSpec(present, log + start, e, out, dateName, parentPath, today, g) == Outcome([], None);
    assert start + [] == start;
  }

  /** A name `startup` passes over (line 115). */
  predicate Ignored(name: string) {
    name == ".DS_Store" || name == "@eaDir"
  }

  /** The loop of lines 114-117 over `kids`. */
  function WalkSpec(present: set<string>, log: seq<Event>, root: Entry, kids: seq<Node>, out: string, today: string): Outcome
    decreases |kids|
  {
    if kids == [] then Outcome([], None)
    else if Ignored(kids[0].name) then WalkSpec(present, log, root, kids[1..], out, today)
    else
      var o := MergeDirsSpec(present, log, ChildEntry(root, kids[0]), out, kids[0].name, "", today);
      if o.failure.Some? then o
      else
        var r := WalkSpec(present, log + o.events, root, kids[1..], out, today);
        Outcome(o.events + r.events, r.failure)
  }

  /** The children `startup` hands to `merge_dirs`, in order. */
  function Visited(kids: seq<Node>): (r: seq<Node>)
    ensures forall k :: k in r <==> k in kids && !Ignored(k.name)
  {
    if kids == [] then []
    else (if Ignored(kids[0].name) then [] else [kids[0]]) + Visited(kids[1..])
  }

  /** The name filter of line 115: the walk over all children is the walk
      over the children that are not ignored; ignored ones log nothing. */
  lemma {:induction false} WalkFilter(present: set<string>, log: seq<Event>, root: Entry, kids: seq<Node>,
                                      out: string, today: string)
    ensures WalkSpec(present, log, root, kids, out, today) == WalkSpec(present, log, root, Visited(kids), out, today)
    decreases |kids|
  {
    if kids != [] {
      var v := Visited(kids);
      if Ignored(kids[0].name) {
        assert v == Visited(kids[1..]);
        WalkFilter(present, log, root, kids[1..], out, today);
      } else {
        assert v[0] == kids[0] && v[1..] == Visited(kids[1..]);
        var o := MergeDirsSpec(present, log, ChildEntry(root, kids[0]), out, kids[0].name, "", today);
        WalkFilter(present, log + o.events, root, kids[1..], out, today);
      }
    }
  }

  /** `startup(root, out)`. */
  function StartupSpec(present: set<string>, root: Entry, out: string, today: string): Outcome {
    if root.node.File? then Outcome([], Some(NotADirectory(root.path)))
    else WalkSpec(present, [], root, root.node.children, out, today)
  }

  // ---------------------------------------------------------------------
  // The run, step by step

  /** Lines 86-89: the `*.mp4` children of each node of the bucket, node
      after node. */
  method CollectVideos(bucket: seq<Entry>) returns (videos: seq<Entry>)
    ensures videos == Clips(bucket)
  {
    videos := [];
    var i := 0;
    while i < |bucket|
      invariant 0 <= i <= |bucket|
      invariant videos == Clips(bucket[..i])
    {
      assert bucket[..i + 1][..i] == bucket[..i];
      videos := videos + Mp4Children(bucket[i]);
      i := i + 1;
    }
    assert bucket[..i] == bucket;
  }

  // The methods below thread the run's file-system effects through as a
  // value: each takes the events so far and returns them with its own
  // appended, in the order the source performs them.

  /** `merge_videos(list, target)` after the events of `log0`; `text` is
      what was written to `list`. */
  method MergeVideos(present: set<string>, log0: seq<Event>, list: string, target: string, text: string)
    returns (log: seq<Event>, err: Option<Failure>)
    ensures var m := MergeVideosSpec(present, log0, list, target, text);
      log == log0 + m.events && err == m.failure
  {
    log := log0 + [Concat(list, target)];
    var lines := ReadLines(text);
    log := Cleanup(present, log, lines);
    ghost var sweep := Sweep(present, log0 + [Concat(list, target)], Parents(lines));
    Assoc(log0, [Concat(list, target)], sweep);
    assert log[|log0| + 1..] == sweep;
    if Removed(log[|log0| + 1..], list) {
      return log, Some(PlayListGone(list));
    }
    log := log + [RemoveFile(list)];
    Assoc(log0, [Concat(list, target)] + sweep, [RemoveFile(list)]);
    err := None;
  }

  /** The loop of lines 31-36 after the events of `log0`. */
  method Cleanup(present: set<string>, log0: seq<Event>, lines: seq<string>) returns (log: seq<Event>)
    ensures log == log0 + Sweep(present, log0, Parents(lines))
  {
    log := log0;
    ghost var ps := Parents(lines);
    ghost var done: seq<Event> := [];
    var i := 0;
    while i < |lines|
      invariant 0 <= i <= |lines|
      invariant log == log0 + done
      invariant Sweep(present, log0, ps) == done + Sweep(present, log, ps[i..])
    {
      var parent := LineParent(lines[i]);
      MapAt(LineParent, lines, i);
      SweepAdvance(present, log0, log, done, ps, i);
      if Exists(present, log, parent) {
        log := log + [RemoveTree(parent)];
        done := done + [RemoveTree(parent)];
      }
      i := i + 1;
    }
    assert ps[i..] == [];
  }

  /** One day of the loop of lines 85-110. */
  method MergeDay(present: set<string>, log0: seq<Event>, e: Entry, out: string, dateName: string,
                  parentPath: string, today: string, day: string, bucket: seq<Entry>)
    returns (log: seq<Event>, err: Option<Failure>)
    requires Sourced(e, bucket)
    ensures var o := DaySpec(present, log0, e, out, dateName, parentPath, today, day, bucket);
      log == log0 + o.events && err == o.failure
    decreases e.node, 0
  {
    var videos := CollectVideos(bucket);
    assert log0 + [] == log0;
    if videos == [] {
      EmptyDayEvents(present, log0, e, out, dateName, parentPath, today, day, bucket);
      var last := bucket[|bucket| - 1];
      if !HasSubdirectories(last.node) {
        return log0, None;
      }
      if last == e {
        return log0, Some(EndlessRecursion(e.path));
      }
      log, err := MergeDirs(present, log0, last, out, dateName, day, today);
    } else {
      ClipDay(present, log0, e, out, dateName, parentPath, today, day, bucket);
      log, err := MergeClips(present, log0, MergeOutputDir(out, dateName, parentPath), day, videos);
    }
  }

  /** Lines 100-110: the clips of a day are ordered, then merged into
      `dir`. */
  method MergeClips(present: set<string>, log0: seq<Event>, dir: string, day: string, videos: seq<Entry>)
    returns (log: seq<Event>, err: Option<Failure>)
    ensures var p := ClipPlan(dir, day, videos);
      if p.Merge? then
        var m := MergeEvents(present, log0, dir, p.list, p.target, Format(ClipPaths(p.clips)));
        log == log0 + m.events && err == m.failure
      else log == log0 && err == Some(p.failure)
  {
    match OrderClips(videos)
    case None =>
      return log0, Some(BadSequenceNumber(videos[FirstFailing(videos, Numbered)].path));
    case Some(sorted) =>
      log, err := WriteAndMerge(present, log0, dir, ListPath(dir, day), TargetPath(dir, day), Format(ClipPaths(sorted)));
  }

  /** A day with clips logs what its clip plan says. */
  lemma ClipDay(present: set<string>, log: seq<Event>, e: Entry, out: string, dateName: string,
                parentPath: string, today: string, day: string, bucket: seq<Entry>)
    requires Sourced(e, bucket) && Clips(bucket) != []
    ensures var dir := MergeOutputDir(out, dateName, parentPath);
      var p := ClipPlan(dir, day, Clips(bucket));
      DaySpec(present, log, e, out, dateName, parentPath, today, day, bucket) ==
        if p.Merge? then MergeEvents(present, log, dir, p.list, p.target, Format(ClipPaths(p.clips)))
        else Outcome([], Some(p.failure))
  {
  }

  lemma DayMerges(present: set<string>, log: seq<Event>, e: Entry, out: string, dateName: string,
                  parentPath: string, today: string, day: string, bucket: seq<Entry>)
    requires Sourced(e, bucket) && PlanDay(e, out, dateName, parentPath, day, bucket).Merge?
    ensures var p := PlanDay(e, out, dateName, parentPath, day, bucket);
      DaySpec(present, log, e, out, dateName, parentPath, today, day, bucket)
        == MergeEvents(present, log, MergeOutputDir(out, dateName, parentPath), p.list, p.target,
                       Format(ClipPaths(p.clips)))
  {
  }

  /** Lines 104-110 after the events of `log0`. */
  method WriteAndMerge(present: set<string>, log0: seq<Event>, dir: string, list: string, target: string,
                       text: string) returns (log: seq<Event>, err: Option<Failure>)
    ensures var m := MergeEvents(present, log0, dir, list, target, text);
      log == log0 + m.events && err == m.failure
  {
    ghost var pre := [EnsureDir(dir), WriteText(list, text)];
    log := log0 + [EnsureDir(dir)];
    log := log + [WriteText(list, text)];
    assert log == log0 + pre;
    log, err := MergeVideos(present, log, list, target, text);
    Assoc(log0, pre, MergeVideosSpec(present, log0 + pre, list, target, text).events);
  }

  /** `merge_dirs(e, out, dateName, parentPath)` (lines 47-110) after the
      events of `log0`. */
  method MergeDirs(present: set<string>, log0: seq<Event>, e: Entry, out: string, dateName: string,
                   parentPath: string, today: string)
    returns (log: seq<Event>, err: Option<Failure>)
    ensures var o := MergeDirsSpec(present, log0, e, out, dateName, parentPath, today);
      log == log0 + o.events && err == o.failure
    decreases e.node, 2
  {
    log := log0 + [EnsureDir(out)];
    if e.node.File? {
      return log, None;
    }
    var buckets := BuildBuckets(e, dateName, today);
    GroupSourced(e, dateName, today);
    ghost var o := DaysSpec(present, log, e, out, dateName, parentPath, today, buckets);
    log, err := MergeDays(present, log, e, out, dateName, parentPath, today, buckets);
    Assoc(log0, [EnsureDir(out)], o.events);
  }

  /** The loop of lines 85-110 over `buckets`, after the events of `log0`;
      an exception in one day ends it. */
  method MergeDays(present: set<string>, log0: seq<Event>, e: Entry, out: string, dateName: string,
                   parentPath: string, today: string, buckets: Dict)
    returns (log: seq<Event>, err: Option<Failure>)
    requires forall j :: 0 <= j < |buckets| ==> Sourced(e, buckets[j].1)
    ensures var o := DaysSpec(present, log0, e, out, dateName, parentPath, today, buckets);
      log == log0 + o.events && err == o.failure
    decreases e.node, 1
  {
    log, err := log0, None;
    ghost var all := DaysSpec(present, log0, e, out, dateName, parentPath, today, buckets);
    ghost var done: seq<Event> := [];
    var i := 0;
    while i < |buckets|
      invariant 0 <= i <= |buckets|
      invariant log == log0 + done && err.None?
      invariant DaysLeft(present, log, e, out, dateName, parentPath, today, buckets, i, all, done)
    {
      ghost var before := log;
      log, err := MergeDay(present, log, e, out, dateName, parentPath, today, buckets[i].0, buckets[i].1);
      ghost var o := DaySpec(present, before, e, out, dateName, parentPath, today, buckets[i].0, buckets[i].1);
      DaysAdvance(present, log0, before, e, out, dateName, parentPath, today, buckets, i, all, done);
      if err.Some? {
        return;
      }
      done := done + o.events;
      i := i + 1;
    }
    assert buckets[i..] == [];
    assert done + [] == done;
  }

  /** `startup(root, out)` (lines 113-117): the whole run. */
  method Startup(present: set<string>, root: Entry, out: string, today: string)
    returns (log: seq<Event>, err: Option<Failure>)
    ensures Outcome(log, err) == StartupSpec(present, root, out, today)
  {
    log, err := [], None;
    if root.node.File? {
      return log, Some(NotADirectory(root.path));
    }
    var kids := root.node.children;
    ghost var all := WalkSpec(present, [], root, kids, out, today);
    var i := 0;
    while i < |kids|
      invariant 0 <= i <= |kids| && err.None?
      invariant
        var rest := WalkSpec(present, log, root, kids[i..], out, today);
        all.events == log + rest.events && all.failure == rest.failure
    {
      assert kids[i..][0] == kids[i] && kids[i..][1..] == kids[i + 1..];
      var item := kids[i];
      if !Ignored(item.name) {
        ghost var before := log;
        log, err := MergeDirs(present, log, ChildEntry(root, item), out, item.name, "", today);
        ghost var o := MergeDirsSpec(present, before, ChildEntry(root, item), out, item.name, "", today);
        if err.Some? {
          return;
        }
        ghost var next := WalkSpec(present, log, root, kids[i + 1..], out, today);
        Assoc(before, o.events, next.events);
      }
      i := i + 1;
    }
    assert kids[i..] == [];
    assert log + [] == log;
  }
}
