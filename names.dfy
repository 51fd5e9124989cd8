/** String-level helpers that mirror the Python built-ins the merger relies on:
    `str.isspace`/`str.strip`, `str.replace`, `str.split("_")[-1]`, `int()`,
    `PurePath.stem` and the day key `stem[:8]`. */
module Names {

  import opened Seqs

  /** Python's `str.isspace` for a single character (the Unicode white-space set). */
  predicate IsSpace(c: char) {
    || c == ' '
    || ('\t' <= c <= '\r')
    || ('\U{1C}' <= c <= '\U{1F}')
    || c == '\U{85}' || c == '\U{A0}' || c == '\U{1680}'
    || ('\U{2000}' <= c <= '\U{200A}')
    || c == '\U{2028}' || c == '\U{2029}' || c == '\U{202F}' || c == '\U{205F}' || c == '\U{3000}'
  }

  predicate IsDigit(c: char) { '0' <= c <= '9' }

  predicate AllDigits(s: string) { forall i :: 0 <= i < |s| ==> IsDigit(s[i]) }

  /** The white space `int()` skips around its digits: `PyLong_FromString`
      skips only ASCII space and `\t`..`\r`, and non-ASCII white space reaches
      it already turned into a space. Unlike `str.isspace`, the separators
      `\x1c`..`\x1f` are not skipped. */
  predicate IsIntSpace(c: char) {
    IsSpace(c) && !('\U{1C}' <= c <= '\U{1F}')
  }

  /** Which white space a strip drops: `str.strip`'s or `int()`'s. */
  datatype Blanks = StrBlanks | IntBlanks

  predicate IsBlank(ws: Blanks, c: char) {
    match ws
    case StrBlanks => IsSpace(c)
    case IntBlanks => IsIntSpace(c)
  }

  /** `s.lstrip()` for `StrBlanks`: drops the leading white space of kind `ws`. */
  function StripLeft(s: string, ws: Blanks): (r: string)
    ensures |r| <= |s| && r == s[|s| - |r|..]
    ensures forall i :: 0 <= i < |s| - |r| ==> IsBlank(ws, s[i])
    ensures r == [] || !IsBlank(ws, r[0])
  {
    if s != [] && IsBlank(ws, s[0]) then
      var r := StripLeft(s[1..], ws);
      assert s[1..][|s| - 1 - |r|..] == s[|s| - |r|..];
      assert forall i :: 1 <= i < |s| - |r| ==> s[i] == s[1..][i - 1];
      r
    else s
  }

  /** `s.rstrip()` for `StrBlanks`: drops the trailing white space of kind `ws`. */
  function StripRight(s: string, ws: Blanks): (r: string)
    ensures |r| <= |s| && r == s[..|r|]
    ensures forall i :: |r| <= i < |s| ==> IsBlank(ws, s[i])
    ensures r == [] || !IsBlank(ws, r[|r| - 1])
  {
    if s != [] && IsBlank(ws, s[|s| - 1]) then
      var r := StripRight(s[..|s| - 1], ws);
      assert s[..|s| - 1][..|r|] == s[..|r|];
      assert forall i :: |r| <= i < |s| - 1 ==> s[i] == s[..|s| - 1][i];
      r
    else s
  }

  /** `s.strip()` */
  function Strip(s: string): string {
    StripRight(StripLeft(s, StrBlanks), StrBlanks)
  }

  /** The text `int()` parses once its surrounding white space is skipped. */
  function IntStrip(s: string): string {
    StripRight(StripLeft(s, IntBlanks), IntBlanks)
  }

  /** `pat` occurs in `s` starting at index `i`. */
  predicate OccursAt(s: string, pat: string, i: int) {
    0 <= i && i + |pat| <= |s| && s[i..i + |pat|] == pat
  }

  predicate Contains(s: string, pat: string) {
    exists i | 0 <= i <= |s| :: OccursAt(s, pat, i)
  }

  /** `s.replace(pat, "")`: every non-overlapping occurrence of a non-empty
      `pat`, found left to right, is removed. */
  function RemoveAll(s: string, pat: string): (r: string)
    requires pat != []
    ensures |r| <= |s|
    decreases |s|
  {
    if |s| < |pat| then s
    else if s[..|pat|] == pat then RemoveAll(s[|pat|..], pat)
    else [s[0]] + RemoveAll(s[1..], pat)
  }

  /** A string in which `pat` never occurs is left alone by `RemoveAll`. */
  lemma {:induction false} RemoveAllAbsent(s: string, pat: string)
    requires pat != []
    requires !Contains(s, pat)
    ensures RemoveAll(s, pat) == s
    decreases |s|
  {
    if |s| >= |pat| {
      assert !OccursAt(s, pat, 0);
      assert !Contains(s[1..], pat) by {
        forall i | OccursAt(s[1..], pat, i) ensures false {
          assert s[1..][i..i + |pat|] == s[i + 1..i + 1 + |pat|];
          assert OccursAt(s, pat, i + 1);
        }
      }
      RemoveAllAbsent(s[1..], pat);
    }
  }

  /** Removing `pat` from `pat + q` leaves `q` when `pat` does not occur in `q`. */
  lemma RemovePrefix(pat: string, q: string)
    requires pat != [] && !Contains(q, pat)
    ensures RemoveAll(pat + q, pat) == q
  {
    assert (pat + q)[..|pat|] == pat && (pat + q)[|pat|..] == q;
    RemoveAllAbsent(q, pat);
  }

  /** Index of the last occurrence of `c` in `s`, or -1 (Python's `rfind`). */
  function LastIndexOf(s: string, c: char): (i: int)
    ensures -1 <= i < |s|
    ensures i >= 0 ==> s[i] == c
    ensures forall j :: i < j < |s| ==> s[j] != c
  {
    if s == [] then -1
    else if s[|s| - 1] == c then |s| - 1
    else LastIndexOf(s[..|s| - 1], c)
  }

  /** `PurePath.stem`: the name without its last suffix; a leading dot or a
      trailing dot does not start a suffix. */
  function Stem(name: string): (r: string)
    ensures r == name || (0 < |r| < |name| - 1 && r == name[..|r|] && name[|r|] == '.')
    ensures r != name ==> forall j :: |r| < j < |name| ==> name[j] != '.'
    ensures r != name <==>
      exists i :: 0 < i < |name| - 1 && name[i] == '.' && forall j :: i < j < |name| ==> name[j] != '.'
  {
    var i := LastIndexOf(name, '.');
    if 0 < i < |name| - 1 then name[..i] else name
  }

  /** `stem[:8]`: the day key of a directory; Python slicing clips at the end. */
  function DayKey(name: string): (r: string)
    ensures |r| <= 8 && |r| <= |Stem(name)| && r == Stem(name)[..|r|]
    ensures |Stem(name)| >= 8 ==> |r| == 8
    ensures |Stem(name)| < 8 ==> r == Stem(name)
  {
    var s := Stem(name);
    if |s| <= 8 then s else s[..8]
  }

  /** `s.split("_")[-1]`: the text after the last underscore, or all of `s`. */
  function LastSegment(s: string): (r: string)
    ensures |r| <= |s| && r == s[|s| - |r|..]
    ensures forall i :: 0 <= i < |r| ==> r[i] != '_'
    ensures r == s || s[|s| - |r| - 1] == '_'
  {
    if s == [] || s[|s| - 1] == '_' then []
    else LastSegment(s[..|s| - 1]) + [s[|s| - 1]]
  }

  function DigitValue(c: char): nat
    requires IsDigit(c)
  {
    (c as int) - ('0' as int)
  }

  /** The value of a string of decimal digits, most significant first. */
  function DigitsValue(s: string): nat
    requires AllDigits(s)
  {
    if s == [] then 0 else 10 * DigitsValue(s[..|s| - 1]) + DigitValue(s[|s| - 1])
  }

  /** Python's `int(s)` for ASCII decimal text: surrounding white space in the
      sense of `IsIntSpace` is ignored, then `ParseStripped` reads the rest. */
  function ParseInt(s: string): Option<int> {
    ParseStripped(IntStrip(s))
  }

  /** One optional sign, then at least one digit; anything else raises
      `ValueError` (here `None`). */
  function ParseStripped(t: string): Option<int> {
    if t != [] && (t[0] == '+' || t[0] == '-') then
      var d := t[1..];
      if d != [] && AllDigits(d) then
        Some(if t[0] == '-' then -(DigitsValue(d) as int) else DigitsValue(d))
      else None
    else if t != [] && AllDigits(t) then Some(DigitsValue(t))
    else None
  }

  /** `int(s)` succeeds exactly on stripped text made of one optional sign
      and at least one digit. */
  lemma ParseIntAccepts(s: string)
    ensures ParseInt(s).Some? <==>
      var t := IntStrip(s);
      || (t != [] && AllDigits(t))
      || (|t| >= 2 && (t[0] == '+' || t[0] == '-') && AllDigits(t[1..]))
  {
  }

  /** `str(n)` for a natural number: its shortest decimal spelling. */
  function Decimal(n: nat): (r: string)
    ensures r != [] && AllDigits(r)
    ensures n > 0 ==> r[0] != '0'
  {
    if n < 10 then ['0' + n as char]
    else Decimal(n / 10) + ['0' + (n % 10) as char]
  }

  lemma {:induction false} DecimalValue(n: nat)
    ensures DigitsValue(Decimal(n)) == n
  {
    if n >= 10 {
      var d := Decimal(n);
      assert d[..|d| - 1] == Decimal(n / 10);
      DecimalValue(n / 10);
    }
  }

  /** Text that neither starts nor ends with white space of kind `ws` is left alone. */
  lemma StripNoSpace(s: string, ws: Blanks)
    requires s != [] && !IsBlank(ws, s[0]) && !IsBlank(ws, s[|s| - 1])
    ensures StripRight(StripLeft(s, ws), ws) == s
  {
  }

  /** `int()` skips ordinary white space around its text: `int(" " + t + "\n")`
      is `int(t)`. */
  lemma IntSkipsSpace(t: string)
    requires t != [] && !IsIntSpace(t[0]) && !IsIntSpace(t[|t| - 1])
    ensures ParseInt(" " + t + "\n") == ParseInt(t)
  {
    var s := " " + t + "\n";
    IntStripAround(t);
    StripNoSpace(t, IntBlanks);
    assert IntStrip(s) == IntStrip(t);
  }

  lemma IntStripAround(t: string)
    requires t != [] && !IsIntSpace(t[0]) && !IsIntSpace(t[|t| - 1])
    ensures IntStrip(" " + t + "\n") == t
  {
    var u := t + "\n";
    assert StripLeft(" " + u, IntBlanks) == u by {
      LeftDrop(" " + u, IntBlanks);
      assert (" " + u)[1..] == u;
      LeftKeep(u, IntBlanks);
    }
    assert " " + t + "\n" == " " + u;
    assert StripRight(u, IntBlanks) == t by {
      RightDrop(u, IntBlanks);
      assert u[..|u| - 1] == t;
      RightKeep(t, IntBlanks);
    }
  }

  /** `int()` does not skip a leading separator `\x1c`..`\x1f`, although
      `strip()` drops it: `int("\x1c5")` raises. */
  lemma IntKeepsSeparator(t: string)
    requires t != [] && '\U{1C}' <= t[0] <= '\U{1F}'
    ensures ParseInt(t) == None
    ensures Strip(t) == Strip(t[1..])
  {
    assert ParseInt(t) == None by {
      LeftKeep(t, IntBlanks);
      var r := StripRight(t, IntBlanks);
      assert r != [] && r[0] == t[0];
      NoSignNoDigit(r);
    }
    assert StripLeft(t, StrBlanks) == StripLeft(t[1..], StrBlanks) by {
      LeftDrop(t, StrBlanks);
    }
  }

  /** Text that starts with neither a sign nor a digit is not a number. */
  lemma NoSignNoDigit(r: string)
    requires r != [] && !IsDigit(r[0]) && r[0] != '+' && r[0] != '-'
    ensures ParseStripped(r) == None
  {
    assert !AllDigits(r);
  }

  /** Text with no white space at either end survives `strip()`, with or
      without a line break after it. */
  lemma StripBare(l: string)
    requires l != [] && !IsSpace(l[0]) && !IsSpace(l[|l| - 1])
    ensures Strip(l) == l && Strip(l + "\n") == l
  {
    LeftKeep(l, StrBlanks);
    RightKeep(l, StrBlanks);
    var ln := l + "\n";
    assert StripRight(StripLeft(ln, StrBlanks), StrBlanks) == l by {
      assert ln[0] == l[0] && ln[..|ln| - 1] == l;
      LeftKeep(ln, StrBlanks);
      RightDrop(ln, StrBlanks);
    }
  }

  /** One strip step at each end: a leading (trailing) blank goes, a
      leading (trailing) non-blank stops the strip. */
  lemma LeftDrop(s: string, ws: Blanks)
    requires s != [] && IsBlank(ws, s[0])
    ensures StripLeft(s, ws) == StripLeft(s[1..], ws)
  {
  }

  lemma LeftKeep(s: string, ws: Blanks)
    requires s != [] && !IsBlank(ws, s[0])
    ensures StripLeft(s, ws) == s
  {
  }

  lemma RightDrop(s: string, ws: Blanks)
    requires s != [] && IsBlank(ws, s[|s| - 1])
    ensures StripRight(s, ws) == StripRight(s[..|s| - 1], ws)
  {
  }

  lemma RightKeep(s: string, ws: Blanks)
    requires s != [] && !IsBlank(ws, s[|s| - 1])
    ensures StripRight(s, ws) == s
  {
  }

  /** `int()` reads a string of digits as its value. */
  lemma ParseUnsigned(d: string, n: nat)
    requires d != [] && AllDigits(d) && DigitsValue(d) == n
    ensures ParseInt(d) == Some(n)
  {
    assert IsDigit(d[0]) && IsDigit(d[|d| - 1]);
    StripNoSpace(d, IntBlanks);
  }

  /** `int()` reads a minus sign followed by digits as the negated value. */
  lemma ParseNegative(m: string, d: string, n: nat)
    requires m == "-" + d && d != [] && AllDigits(d) && DigitsValue(d) == n
    ensures ParseInt(m) == Some(-(n as int))
  {
    assert m[0] == '-' && m[1..] == d && m[|m| - 1] == d[|d| - 1];
    assert IsDigit(d[|d| - 1]);
    StripNoSpace(m, IntBlanks);
  }

  /** `int()` reads a string of digits, with or without a minus sign, as its
      value. */
  lemma ParseDigits(d: string, n: nat)
    requires d != [] && AllDigits(d) && DigitsValue(d) == n
    ensures ParseInt(d) == Some(n)
    ensures ParseInt("-" + d) == Some(-(n as int))
  {
    ParseUnsigned(d, n);
    ParseNegative("-" + d, d, n);
  }

  /** `int(str(n)) == n` and `int("-" + str(n)) == -n`: the sequence numbers a
      camera writes are read back exactly. */
  lemma ParseDecimal(n: nat)
    ensures ParseInt(Decimal(n)) == Some(n)
    ensures ParseInt("-" + Decimal(n)) == Some(-(n as int))
  {
    DecimalValue(n);
    ParseDigits(Decimal(n), n);
  }

}
