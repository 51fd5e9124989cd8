/** The play-list text handed to the concatenation engine: written on lines
    101 and 109, read back line by line on lines 29-32. */
module PlayList {
  import opened Seqs
  import opened Names

  /** `s.replace("\\", "/")`: every backslash becomes a forward slash. */
  function Slashes(p: string): (r: string)
    ensures |r| == |p|
    ensures forall i :: 0 <= i < |p| ==> r[i] == (if p[i] == '\\' then '/' else p[i])
  {
    if p == [] then [] else [if p[0] == '\\' then '/' else p[0]] + Slashes(p[1..])
  }

  predicate NoBackslash(p: string) {
    forall i :: 0 <= i < |p| ==> p[i] != '\\'
  }

  /** A path without backslashes is written as it is. */
  lemma SlashesIdentity(p: string)
    requires NoBackslash(p)
    ensures Slashes(p) == p
  {
  }

  /** One play-list line: the engine's `file <path>` directive (line 101). */
  function Line(p: string): string {
    "file " + Slashes(p)
  }

  /** `"\n".join(lines)`: no newline after the last line. */
  function JoinLines(ls: seq<string>): string {
    if ls == [] then ""
    else if |ls| == 1 then ls[0]
    else ls[0] + "\n" + JoinLines(ls[1..])
  }

  function LinesOf(paths: seq<string>): (r: seq<string>)
    ensures |r| == |paths| && forall i :: 0 <= i < |paths| ==> r[i] == Line(paths[i])
  {
    if paths == [] then [] else [Line(paths[0])] + LinesOf(paths[1..])
  }

  /** The text written to the play-list file (lines 101 and 109). */
  function Format(paths: seq<string>): string {
    JoinLines(LinesOf(paths))
  }

  /** Text-mode reading translates the universal newlines `\r\n` and `\r`
      into `\n`. */
  function Translate(s: string): string
    decreases |s|
  {
    if s == [] then []
    else if s[0] == '\r' then ['\n'] + Translate(if |s| > 1 && s[1] == '\n' then s[2..] else s[1..])
    else [s[0]] + Translate(s[1..])
  }

  /** Index of the first `c` in `s`, or -1. */
  function IndexOf(s: string, c: char): (i: int)
    ensures -1 <= i < |s|
    ensures i >= 0 ==> s[i] == c
    ensures forall j :: 0 <= j < |s| && (i < 0 || j < i) ==> s[j] != c
  {
    if s == [] then -1
    else if s[0] == c then 0
    else
      var j := IndexOf(s[1..], c);
      if j < 0 then -1 else j + 1
  }

  /** `f.readlines()` on translated text: each line keeps its `\n`, a last
      line without one is kept as it is. */
  function SplitLines(s: string): seq<string>
    decreases |s|
  {
    if s == [] then []
    else
      var i := IndexOf(s, '\n');
      if i < 0 then [s] else [s[..i + 1]] + SplitLines(s[i + 1..])
  }

  function ReadLines(text: string): seq<string> {
    SplitLines(Translate(text))
  }

  /** Line 32: `line.strip().replace("file ", "")`. */
  function ParseLine(line: string): string {
    RemoveAll(Strip(line), "file ")
  }

  /** The paths the cleanup loop of lines 29-36 reads back from a play-list. */
  function ListedPaths(text: string): (r: seq<string>)
    ensures |r| == |ReadLines(text)|
  {
    var lines := ReadLines(text);
    seq(|lines|, i requires 0 <= i < |lines| => ParseLine(lines[i]))
  }

  /** A path that survives the round trip: not empty, no white space at its
      end, no line break, and no `file ` inside it. */
  predicate Plain(q: string) {
    && q != []
    && !IsSpace(q[|q| - 1])
    && (forall i :: 0 <= i < |q| ==> q[i] != '\n' && q[i] != '\r')
    && !Contains(q, "file ")
  }

  lemma {:induction false} TranslateIdentity(s: string)
    requires forall i :: 0 <= i < |s| ==> s[i] != '\r'
    ensures Translate(s) == s
    decreases |s|
  {
    if s != [] {
      TranslateIdentity(s[1..]);
    }
  }

  /** Reading one line back gives the path that was written into it. */
  lemma ParseWrittenLine(q: string)
    requires Plain(q)
    ensures ParseLine("file " + q) == q
    ensures ParseLine("file " + q + "\n") == q
  {
    var l := "file " + q;
    assert !IsSpace(l[0]) && !IsSpace(l[|l| - 1]) by {
      assert l[0] == 'f' && l[|l| - 1] == q[|q| - 1];
    }
    assert RemoveAll(l, "file ") == q by {
      RemovePrefix("file ", q);
    }
    ParseBare(l, q);
  }

  /** A line with no white space at either end reads back the same with or
      without its line break. */
  lemma ParseBare(l: string, q: string)
    requires l != [] && !IsSpace(l[0]) && !IsSpace(l[|l| - 1])
    requires RemoveAll(l, "file ") == q
    ensures ParseLine(l) == q && ParseLine(l + "\n") == q
  {
    StripBare(l);
  }

  lemma ReadBackLine(p: string, brk: string)
    requires Plain(Slashes(p)) && (brk == "" || brk == "\n")
    ensures ParseLine(Line(p) + brk) == Slashes(p)
  {
    var q := Slashes(p);
    ParseWrittenLine(q);
    assert Line(p) == "file " + q;
    if brk == "" {
      assert Line(p) + brk == "file " + q;
    } else {
      assert Line(p) + brk == "file " + q + "\n";
    }
  }

  lemma {:induction false} FormatNoCR(paths: seq<string>)
    requires forall i :: 0 <= i < |paths| ==> Plain(Slashes(paths[i]))
    ensures forall i :: 0 <= i < |Format(paths)| ==> Format(paths)[i] != '\r'
    decreases |paths|
  {
    if |paths| > 1 {
      FormatNoCR(paths[1..]);
      assert LinesOf(paths)[1..] == LinesOf(paths[1..]);
      assert Format(paths) == Line(paths[0]) + "\n" + Format(paths[1..]);
    } else if |paths| == 1 {
      assert Format(paths) == Line(paths[0]);
    }
  }

  /** Play-list round trip: the cleanup loop reads back exactly the written
      paths, with backslashes turned into slashes, in order. */
  lemma {:induction false} RoundTrip(paths: seq<string>)
    requires forall i :: 0 <= i < |paths| ==> Plain(Slashes(paths[i]))
    ensures ListedPaths(Format(paths)) == seq(|paths|, i requires 0 <= i < |paths| => Slashes(paths[i]))
    decreases |paths|
  {
    FormatNoCR(paths);
    TranslateIdentity(Format(paths));
    SplitFormat(paths);
  }

  /** A non-empty line without a line break. */
  predicate NoBreak(l: string) {
    l != [] && forall j :: 0 <= j < |l| ==> l[j] != '\n'
  }

  /** `readlines` cuts a line without a break off the front of the text. */
  lemma SplitFirst(l: string, rest: string)
    requires NoBreak(l)
    ensures SplitLines(l) == [l]
    ensures SplitLines(l + "\n" + rest) == [l + "\n"] + SplitLines(rest)
  {
    var s := l + "\n" + rest;
    assert IndexOf(s, '\n') == |l| by {
      assert s[|l|] == '\n';
      assert forall j :: 0 <= j < |l| ==> s[j] == l[j];
    }
    assert s[..|l| + 1] == l + "\n";
    assert s[|l| + 1..] == rest;
  }

  lemma LineHasNoBreak(p: string)
    requires Plain(Slashes(p))
    ensures NoBreak(Line(p))
  {
    var l := Line(p);
    assert l[5..] == Slashes(p);
    forall j | 0 <= j < |l| ensures l[j] != '\n' {
      if j >= 5 { assert l[j] == l[5..][j - 5]; }
    }
  }

  /** The lines as `readlines` returns them: each followed by its break,
      except the last. */
  function Terminated(ls: seq<string>): (r: seq<string>)
    ensures |r| == |ls|
  {
    if |ls| <= 1 then ls else [ls[0] + "\n"] + Terminated(ls[1..])
  }

  lemma {:induction false} TerminatedAt(ls: seq<string>, i: nat)
    requires i < |ls|
    ensures Terminated(ls)[i] == ls[i] + (if i < |ls| - 1 then "\n" else "")
    decreases |ls|
  {
    if |ls| > 1 && i > 0 {
      TerminatedAt(ls[1..], i - 1);
    }
  }

  /** Reading back joined lines gives the lines with their breaks. */
  lemma {:induction false} SplitJoin(ls: seq<string>)
    requires forall i :: 0 <= i < |ls| ==> NoBreak(ls[i])
    ensures SplitLines(JoinLines(ls)) == Terminated(ls)
    decreases |ls|
  {
    if |ls| == 1 {
      SplitFirst(ls[0], "");
    } else if |ls| > 1 {
      SplitFirst(ls[0], JoinLines(ls[1..]));
      SplitJoin(ls[1..]);
    }
  }

  lemma SplitFormat(paths: seq<string>)
    requires forall i :: 0 <= i < |paths| ==> Plain(Slashes(paths[i]))
    ensures |SplitLines(Format(paths))| == |paths|
    ensures forall i :: 0 <= i < |paths| ==> ParseLine(SplitLines(Format(paths))[i]) == Slashes(paths[i])
  {
    var ls := LinesOf(paths);
    forall i | 0 <= i < |ls|
      ensures NoBreak(ls[i])
    {
      LineHasNoBreak(paths[i]);
    }
    SplitJoin(ls);
    forall i | 0 <= i < |paths|
      ensures ParseLine(Terminated(ls)[i]) == Slashes(paths[i])
    {
      TerminatedAt(ls, i);
      ReadBackLine(paths[i], if i < |ls| - 1 then "\n" else "");
    }
  }
}
