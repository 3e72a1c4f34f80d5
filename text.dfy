/** Python `str` operations the bot relies on, over `seq<char>`: prefix and
    suffix tests, substring search, `replace` (all or first occurrence),
    `removeprefix`/`removesuffix`, `strip`, `split()` on whitespace,
    `split(sep)`, `join`, ASCII `lower()` and the `\w` character class, and
    decimal rendering of integers (as in f-strings). */
module Text {
  import opened Base

  predicate StartsWith(s: string, p: string) { |p| <= |s| && s[..|p|] == p }

  predicate EndsWith(s: string, p: string) { |p| <= |s| && s[|s| - |p|..] == p }

  /** `sub` occurs in `s` starting at index `i`. */
  predicate OccursAt(s: string, sub: string, i: int)
  {
    0 <= i && i + |sub| <= |s| && s[i..i + |sub|] == sub
  }

  /** `sub in s` */
  predicate Contains(s: string, sub: string)
  {
    exists i | 0 <= i <= |s| - |sub| :: OccursAt(s, sub, i)
  }

  /** Python's `s.replace(pat, rep)`: every occurrence found by a
      left-to-right scan that resumes after each match; an empty pattern
      inserts `rep` before every character and at the end. */
  function Replace(s: string, pat: string, rep: string): string
    decreases |s|
  {
    if pat == [] then InsertAround(s, rep)
    else if |s| < |pat| then s
    else if s[..|pat|] == pat then rep + Replace(s[|pat|..], pat, rep)
    else [s[0]] + Replace(s[1..], pat, rep)
  }

  /** `s.replace("", rep)` */
  function InsertAround(s: string, rep: string): string
  {
    if s == [] then rep else rep + [s[0]] + InsertAround(s[1..], rep)
  }

  /** Python's `s.replace(pat, rep, 1)` */
  function ReplaceFirst(s: string, pat: string, rep: string): string
    decreases |s|
  {
    if |s| < |pat| then s
    else if s[..|pat|] == pat then rep + s[|pat|..]
    else [s[0]] + ReplaceFirst(s[1..], pat, rep)
  }

  function RemovePrefix(s: string, p: string): string
  {
    if StartsWith(s, p) then s[|p|..] else s
  }

  function RemoveSuffix(s: string, p: string): string
  {
    if p != [] && EndsWith(s, p) then s[..|s| - |p|] else s
  }

  /** The ASCII characters Python's `str.isspace()` accepts (space, \t, \n,
      \v, \f, \r and the separators 0x1C-0x1F). */
  predicate IsSpace(c: char)
  {
    c == ' ' || c == '\t' || c == '\n' || c == '\r' || ('\U{0B}' <= c <= '\U{0C}') || ('\U{1C}' <= c <= '\U{1F}')
  }

  /** The ASCII part of Python's `\w`: letters, digits and underscore. */
  predicate IsWordChar(c: char)
  {
    ('a' <= c <= 'z') || ('A' <= c <= 'Z') || ('0' <= c <= '9') || c == '_'
  }

  /** ASCII `str.lower()` of one character. */
  function LowerChar(c: char): char
  {
    if 'A' <= c <= 'Z' then (c as int + 32) as char else c
  }

  /** ASCII `str.lower()` */
  function Lower(s: string): (r: string)
    ensures |r| == |s|
    ensures forall i :: 0 <= i < |s| ==> r[i] == LowerChar(s[i])
  {
    if s == [] then [] else [LowerChar(s[0])] + Lower(s[1..])
  }

  function StripLeft(s: string): string
  {
    if s != [] && IsSpace(s[0]) then StripLeft(s[1..]) else s
  }

  function StripRight(s: string): string
  {
    if s != [] && IsSpace(s[|s| - 1]) then StripRight(s[..|s| - 1]) else s
  }

  /** `s.strip()` */
  function Strip(s: string): string { StripRight(StripLeft(s)) }

  /** The length of the run of non-space characters that `s` starts with. */
  function WordLen(s: string): (n: nat)
    ensures n <= |s|
    ensures forall k :: 0 <= k < n ==> !IsSpace(s[k])
    ensures n < |s| ==> IsSpace(s[n])
  {
    if s == [] || IsSpace(s[0]) then 0 else 1 + WordLen(s[1..])
  }

  /** A word as `str.split()` yields it: non-empty and free of whitespace. */
  predicate IsWord(w: string)
  {
    w != [] && forall k :: 0 <= k < |w| ==> !IsSpace(w[k])
  }

  /** `s.split()`: the maximal runs of non-space characters, in order. */
  function SplitWs(s: string): (r: seq<string>)
    ensures forall k :: 0 <= k < |r| ==> IsWord(r[k])
    decreases |s|
  {
    if s == [] then []
    else if IsSpace(s[0]) then SplitWs(s[1..])
    else [s[..WordLen(s)]] + SplitWs(s[WordLen(s)..])
  }

  /** `sep.join(parts)` */
  function Join(parts: seq<string>, sep: string): string
  {
    if parts == [] then []
    else if |parts| == 1 then parts[0]
    else parts[0] + sep + Join(parts[1..], sep)
  }

  /** `s.split(sep)` for a non-empty separator. */
  function SplitOn(s: string, sep: string): (r: seq<string>)
    requires sep != []
    ensures |r| >= 1
    decreases |s|
  {
    if |s| < |sep| then [s]
    else if s[..|sep|] == sep then [""] + SplitOn(s[|sep|..], sep)
    else
      var rest := SplitOn(s[1..], sep);
      [[s[0]] + rest[0]] + rest[1..]
  }

  /** Joining the pieces of `s.split(sep)` with `sep` gives back `s`. */
  lemma {:induction false} JoinSplitOn(s: string, sep: string)
    requires sep != []
    ensures Join(SplitOn(s, sep), sep) == s
    decreases |s|
  {
    if |s| < |sep| {
    } else if s[..|sep|] == sep {
      var rest := SplitOn(s[|sep|..], sep);
      JoinSplitOn(s[|sep|..], sep);
      assert SplitOn(s, sep) == [""] + rest;
      assert ([""] + rest)[1..] == rest;
      calc {
        Join(SplitOn(s, sep), sep);
        "" + sep + Join(rest, sep);
        sep + s[|sep|..];
        { assert s == s[..|sep|] + s[|sep|..]; }
        s;
      }
    } else {
      var rest := SplitOn(s[1..], sep);
      JoinSplitOn(s[1..], sep);
      var r := [[s[0]] + rest[0]] + rest[1..];
      assert SplitOn(s, sep) == r;
      if |rest| == 1 {
        assert Join(r, sep) == [s[0]] + rest[0];
        assert Join(rest, sep) == rest[0];
      } else {
        assert r[1..] == rest[1..];
        assert Join(r, sep) == [s[0]] + rest[0] + sep + Join(rest[1..], sep);
        assert Join(rest, sep) == rest[0] + sep + Join(rest[1..], sep);
      }
      assert s == [s[0]] + s[1..];
    }
  }

  /** Replacing a pattern that does not occur leaves the text unchanged. */
  lemma {:induction false} ReplaceAbsent(s: string, pat: string, rep: string)
    requires pat != [] && !Contains(s, pat)
    ensures Replace(s, pat, rep) == s
    decreases |s|
  {
    if |s| < |pat| {
    } else {
      assert s[0..0 + |pat|] == s[..|pat|];
      assert !OccursAt(s, pat, 0);
      if Contains(s[1..], pat) {
        var t := s[1..];
        var i :| 0 <= i <= |t| - |pat| && OccursAt(t, pat, i);
        assert t[i..i + |pat|] == s[i + 1..i + 1 + |pat|];
        assert OccursAt(s, pat, i + 1);
        assert false;
      }
      ReplaceAbsent(s[1..], pat, rep);
      assert s == [s[0]] + s[1..];
    }
  }

  /** Replacing a pattern by itself leaves the text unchanged. */
  lemma {:induction false} ReplaceSelf(s: string, pat: string)
    ensures Replace(s, pat, pat) == s
    decreases |s|
  {
    if pat == [] {
      InsertAroundEmpty(s);
    } else if |s| < |pat| {
    } else if s[..|pat|] == pat {
      ReplaceSelf(s[|pat|..], pat);
      assert s == s[..|pat|] + s[|pat|..];
    } else {
      ReplaceSelf(s[1..], pat);
      assert s == [s[0]] + s[1..];
    }
  }

  lemma {:induction false} InsertAroundEmpty(s: string)
    ensures InsertAround(s, "") == s
  {
    if s != [] {
      InsertAroundEmpty(s[1..]);
      assert s == [s[0]] + s[1..];
    }
  }

  /** When `s` starts with `p`, the first occurrence of `p` is that prefix, so
      `s.replace(p, "", 1)` drops exactly the prefix. */
  lemma ReplaceFirstOfPrefix(s: string, p: string)
    requires StartsWith(s, p)
    ensures ReplaceFirst(s, p, "") == s[|p|..]
  {
  }

  /** Decimal digits of a natural number, most significant first. */
  function NatToString(n: nat): (r: string)
    ensures r != [] && forall k :: 0 <= k < |r| ==> '0' <= r[k] <= '9'
    decreases n
  {
    if n < 10 then [DigitChar(n)] else NatToString(n / 10) + [DigitChar(n % 10)]
  }

  function DigitChar(d: nat): (c: char)
    requires d < 10
    ensures '0' <= c <= '9'
  {
    (48 + d) as char
  }

  /** `str(n)` / `f"{n}"` for a Python int. */
  function IntToString(n: int): string
  {
    if n < 0 then "-" + NatToString(-n) else NatToString(n)
  }

  predicate IsDigit(c: char) { '0' <= c <= '9' }

  /** The body of a Python integer literal as `int()` accepts it: ASCII
      digits, with single underscores allowed between two digits. */
  predicate DigitGroups(d: string)
  {
    d != [] && IsDigit(d[0]) && IsDigit(d[|d| - 1])
    && forall k :: 0 < k < |d| ==>
         IsDigit(d[k]) || (d[k] == '_' && k + 1 < |d| && IsDigit(d[k - 1]) && IsDigit(d[k + 1]))
  }

  /** The value of the digits of `d`, underscores skipped. */
  function DigitsValue(d: string): nat
  {
    if d == [] then 0
    else if IsDigit(d[|d| - 1]) then DigitsValue(d[..|d| - 1]) * 10 + (d[|d| - 1] as int - '0' as int)
    else DigitsValue(d[..|d| - 1])
  }

  /** Python's `int(s)` on a string: surrounding whitespace ignored, an
      optional sign, then digit groups; anything else is a ValueError
      (None here). */
  function ParseInt(s: string): Option<int>
  {
    var t := Strip(s);
    if t != [] && (t[0] == '-' || t[0] == '+') then
      if DigitGroups(t[1..]) then
        var v: int := DigitsValue(t[1..]);
        Some(if t[0] == '-' then -v else v)
      else None
    else if DigitGroups(t) then Some(DigitsValue(t))
    else None
  }

  lemma {:induction false} NatToStringValue(n: nat)
    ensures DigitGroups(NatToString(n))
    ensures DigitsValue(NatToString(n)) == n
    decreases n
  {
    var r := NatToString(n);
    AllDigitsAreGroups(r);
    if n >= 10 {
      NatToStringValue(n / 10);
      var p := NatToString(n / 10);
      assert r == p + [DigitChar(n % 10)];
      assert r[..|r| - 1] == p;
    } else {
      assert r[..|r| - 1] == [];
    }
  }

  lemma AllDigitsAreGroups(d: string)
    requires d != [] && forall k :: 0 <= k < |d| ==> '0' <= d[k] <= '9'
    ensures DigitGroups(d)
  {
    assert IsDigit(d[0]) && IsDigit(d[|d| - 1]);
    forall k | 0 < k < |d|
      ensures IsDigit(d[k])
    {
    }
  }

  /** A text that neither starts nor ends with whitespace, padded with one
      trailing space, strips back to itself. */
  lemma StripPadded(x: string)
    requires x != [] && !IsSpace(x[0]) && !IsSpace(x[|x| - 1])
    ensures Strip(x + " ") == x && Strip(x) == x
  {
    var y := x + " ";
    assert y[0] == x[0] && IsSpace(y[|y| - 1]);
    assert StripLeft(y) == y;
    assert y[..|y| - 1] == x;
    assert StripRight(y) == StripRight(x);
    assert StripLeft(x) == x;
    assert StripRight(x) == x;
  }

  /** `int()` reads back what `str()` writes, also with a trailing space. */
  lemma ParseIntRoundTrip(n: int)
    ensures ParseInt(IntToString(n)) == Some(n)
    ensures ParseInt(IntToString(n) + " ") == Some(n)
  {
    var x := IntToString(n);
    if n < 0 {
      var m: nat := -n;
      var d := NatToString(m);
      NatToStringValue(m);
      assert x == "-" + d && x[1..] == d && x[0] == '-';
      assert x[|x| - 1] == d[|d| - 1];
      StripPadded(x);
      ParseNegative(x, x);
      ParseNegative(x + " ", x);
    } else {
      NatToStringValue(n);
      ParseDigits(NatToString(n));
    }
  }

  /** Digits, with or without a trailing space, parse to their value. */
  lemma ParseDigits(d: string)
    requires d != [] && forall k :: 0 <= k < |d| ==> '0' <= d[k] <= '9'
    ensures ParseInt(d) == Some(DigitsValue(d)) && ParseInt(d + " ") == Some(DigitsValue(d))
  {
    AllDigitsAreGroups(d);
    assert IsDigit(d[0]) && IsDigit(d[|d| - 1]);
    StripPadded(d);
  }

  /** Text that strips to a minus sign and digit groups parses to the
      negated value. */
  lemma ParseNegative(y: string, x: string)
    requires Strip(y) == x && x != [] && x[0] == '-' && DigitGroups(x[1..])
    ensures ParseInt(y).Some? && ParseInt(y).value == -(DigitsValue(x[1..]) as int)
  {
  }

  /** `s.replace(pat, rep)` changes `s` exactly when `pat` occurs in it and
      `rep` differs from `pat`. */
  lemma ReplaceChanges(s: string, pat: string, rep: string)
    requires pat != []
    ensures Replace(s, pat, rep) != s <==> Contains(s, pat) && rep != pat
  {
    if !Contains(s, pat) {
      ReplaceAbsent(s, pat, rep);
    } else if rep == pat {
      ReplaceSelf(s, pat);
    } else {
      ReplaceDiffers(s, pat, rep);
    }
  }

  lemma {:induction false} ReplaceDiffers(s: string, pat: string, rep: string)
    requires pat != [] && Contains(s, pat) && rep != pat
    ensures Replace(s, pat, rep) != s
    decreases |s|
  {
    var i :| 0 <= i <= |s| - |pat| && OccursAt(s, pat, i);
    if s[..|pat|] == pat {
      var rest := s[|pat|..];
      assert s == pat + rest;
      ReplaceLength(rest, pat, rep);
      if |rep| == |pat| {
        assert Replace(s, pat, rep)[..|pat|] == rep;
      } else {
        assert |Replace(s, pat, rep)| != |s|;
      }
    } else {
      assert i != 0 by {
        assert s[0..0 + |pat|] == s[..|pat|];
      }
      assert OccursAt(s[1..], pat, i - 1) by {
        assert s[1..][i - 1..i - 1 + |pat|] == s[i..i + |pat|];
      }
      ReplaceDiffers(s[1..], pat, rep);
      assert Replace(s, pat, rep) == [s[0]] + Replace(s[1..], pat, rep);
      assert s == [s[0]] + s[1..];
    }
  }

  /** Replacing by a longer text never shortens, by a shorter one never
      lengthens. */
  lemma {:induction false} ReplaceLength(s: string, pat: string, rep: string)
    requires pat != []
    ensures |rep| >= |pat| ==> |Replace(s, pat, rep)| >= |s|
    ensures |rep| <= |pat| ==> |Replace(s, pat, rep)| <= |s|
    decreases |s|
  {
    if |s| < |pat| {
    } else if s[..|pat|] == pat {
      ReplaceLength(s[|pat|..], pat, rep);
    } else {
      ReplaceLength(s[1..], pat, rep);
    }
  }

  /** A prefix free of the pattern's first character passes through
      `replace` untouched. */
  lemma {:induction false} ReplacePassThrough(x: string, y: string, pat: string, rep: string)
    requires pat != [] && forall k :: 0 <= k < |x| ==> x[k] != pat[0]
    ensures Replace(x + y, pat, rep) == x + Replace(y, pat, rep)
    decreases |x|
  {
    if x == [] {
      assert x + y == y;
    } else {
      var s := x + y;
      assert s[0] == x[0] && s[1..] == x[1..] + y;
      ReplaceHeadMiss(s, pat, rep);
      ReplacePassThrough(x[1..], y, pat, rep);
      assert x == [x[0]] + x[1..];
    }
  }

  /** No occurrence of `pat` can start before `v` and run into it. */
  predicate NoStraddle(pat: string, v: string)
  {
    forall j :: 1 <= j < |pat| && |pat| - j <= |v| ==> pat[j..] != v[..|pat| - j]
  }

  /** A tail that holds no occurrence of `pat` and that no occurrence can
      run into is kept as it is, after the replaced head. */
  lemma {:induction false} ReplaceKeepsTail(t: string, v: string, pat: string, rep: string)
    requires pat != [] && NoStraddle(pat, v) && Replace(v, pat, rep) == v
    ensures Replace(t + v, pat, rep) == Replace(t, pat, rep) + v
    decreases |t|
  {
    if t == [] {
      assert t + v == v;
    } else if |t| >= |pat| && t[..|pat|] == pat {
      ReplaceKeepsTail(t[|pat|..], v, pat, rep);
      TailAfterMatch(t, v, pat, rep);
    } else {
      ReplaceKeepsTail(t[1..], v, pat, rep);
      TailAfterMiss(t, v, pat, rep);
    }
  }

  lemma TailAfterMatch(t: string, v: string, pat: string, rep: string)
    requires pat != [] && |t| >= |pat| && t[..|pat|] == pat
    requires Replace(t[|pat|..] + v, pat, rep) == Replace(t[|pat|..], pat, rep) + v
    ensures Replace(t + v, pat, rep) == Replace(t, pat, rep) + v
  {
    var s := t + v;
    assert s[..|pat|] == pat && s[|pat|..] == t[|pat|..] + v;
    var x := Replace(t[|pat|..], pat, rep);
    assert rep + (x + v) == (rep + x) + v;
  }

  lemma TailAfterMiss(t: string, v: string, pat: string, rep: string)
    requires pat != [] && t != [] && !(|t| >= |pat| && t[..|pat|] == pat)
    requires NoStraddle(pat, v)
    requires Replace(t[1..] + v, pat, rep) == Replace(t[1..], pat, rep) + v
    ensures Replace(t + v, pat, rep) == Replace(t, pat, rep) + v
  {
    UnmatchedHeadAppend(t, v, pat, rep);
    ReplaceUnmatchedHead(t, pat, rep);
    ConsAppend(Replace(t + v, pat, rep), Replace(t, pat, rep), t[0], Replace(t[1..], pat, rep), v);
  }

  /** With `v` appended, a head that does not start `pat` is still kept. */
  lemma UnmatchedHeadAppend(t: string, v: string, pat: string, rep: string)
    requires pat != [] && t != [] && !(|t| >= |pat| && t[..|pat|] == pat) && NoStraddle(pat, v)
    ensures Replace(t + v, pat, rep) == [t[0]] + Replace(t[1..] + v, pat, rep)
  {
    NoMatchAtStart(t, v, pat);
    ReplaceUnmatchedHead(t + v, pat, rep);
    assert (t + v)[0] == t[0] && (t + v)[1..] == t[1..] + v;
  }

  lemma ConsAppend(y: string, r: string, c: char, x: string, v: string)
    requires y == [c] + (x + v) && r == [c] + x
    ensures y == r + v
  {
    assert [c] + (x + v) == ([c] + x) + v;
  }

  /** A head that does not start `pat` cannot start it once `v` follows. */
  lemma NoMatchAtStart(t: string, v: string, pat: string)
    requires pat != [] && t != [] && !(|t| >= |pat| && t[..|pat|] == pat) && NoStraddle(pat, v)
    ensures !(|t + v| >= |pat| && (t + v)[..|pat|] == pat)
  {
    var s := t + v;
    if |s| >= |pat| {
      if |t| >= |pat| {
        assert s[..|pat|] == t[..|pat|];
      } else {
        var j := |t|;
        assert s[..|pat|][j..] == v[..|pat| - j];
      }
    }
  }

  /** A text that does not start with `pat` keeps its first character. */
  lemma ReplaceUnmatchedHead(t: string, pat: string, rep: string)
    requires pat != [] && t != [] && !(|t| >= |pat| && t[..|pat|] == pat)
    ensures Replace(t, pat, rep) == [t[0]] + Replace(t[1..], pat, rep)
  {
    if |t| < |pat| {
      assert t == [t[0]] + t[1..];
    }
  }

  /** A text whose first character does not start `pat` keeps that
      character and is replaced from the second one on. */
  lemma ReplaceHeadMiss(s: string, pat: string, rep: string)
    requires pat != [] && s != [] && s[0] != pat[0]
    ensures Replace(s, pat, rep) == [s[0]] + Replace(s[1..], pat, rep)
  {
    if |s| < |pat| {
      assert Replace(s[1..], pat, rep) == s[1..];
      assert s == [s[0]] + s[1..];
    } else {
      assert s[..|pat|][0] == s[0];
    }
  }

  /** `s.split(c)` of a text without `c` is the text alone. */
  lemma {:induction false} SplitOnNoSep(x: string, c: char)
    requires forall k :: 0 <= k < |x| ==> x[k] != c
    ensures SplitOn(x, [c]) == [x]
    decreases |x|
  {
    if x != [] {
      assert x[..1] != [c] by { assert x[..1][0] == x[0]; }
      SplitOnNoSep(x[1..], c);
      assert [x[0]] + x[1..] == x;
    }
  }

  /** `(x + c + y).split(c)` is `x` followed by the pieces of `y`, when `x`
      has no `c`. */
  lemma {:induction false} SplitOnFirst(x: string, y: string, c: char)
    requires forall k :: 0 <= k < |x| ==> x[k] != c
    ensures SplitOn(x + [c] + y, [c]) == [x] + SplitOn(y, [c])
    decreases |x|
  {
    var s := x + [c] + y;
    if x == [] {
      assert s[..1] == [c] && s[1..] == y;
    } else {
      assert s[..1] != [c] by { assert s[..1][0] == x[0]; }
      assert s[1..] == x[1..] + [c] + y;
      SplitOnFirst(x[1..], y, c);
      assert [x[0]] + x[1..] == x;
    }
  }

  /** Splitting a join on a one-character separator that no part contains
      gives the parts back. */
  lemma {:induction false} SplitOnJoin(parts: seq<string>, c: char)
    requires parts != []
    requires forall i, k :: 0 <= i < |parts| && 0 <= k < |parts[i]| ==> parts[i][k] != c
    ensures SplitOn(Join(parts, [c]), [c]) == parts
    decreases |parts|
  {
    if |parts| == 1 {
      SplitOnNoSep(parts[0], c);
    } else {
      SplitOnJoin(parts[1..], c);
      SplitOnFirst(parts[0], Join(parts[1..], [c]), c);
      assert [parts[0]] + parts[1..] == parts;
    }
  }

  /** A text without the pattern's first character is left unchanged. */
  lemma NoFirstCharAbsent(s: string, pat: string, rep: string)
    requires pat != [] && forall k :: 0 <= k < |s| ==> s[k] != pat[0]
    ensures Replace(s, pat, rep) == s
  {
    forall i | 0 <= i <= |s| - |pat|
      ensures !OccursAt(s, pat, i)
    {
      assert s[i..i + |pat|][0] == s[i];
    }
    ReplaceAbsent(s, pat, rep);
  }

  /** A pattern at the very start, followed by a text without the pattern's
      first character, is replaced once. */
  lemma ReplaceAtStart(pat: string, after: string, rep: string)
    requires pat != [] && forall k :: 0 <= k < |after| ==> after[k] != pat[0]
    ensures Replace(pat + after, pat, rep) == rep + after
  {
    var t := pat + after;
    assert t[..|pat|] == pat;
    assert t[|pat|..] == after;
    NoFirstCharAbsent(after, pat, rep);
  }

  /** A pattern between texts without its first character is replaced
      once, and nothing else changes. */
  lemma ReplaceFillsIn(before: string, pat: string, after: string, rep: string)
    requires pat != []
    requires forall k :: 0 <= k < |before| ==> before[k] != pat[0]
    requires forall k :: 0 <= k < |after| ==> after[k] != pat[0]
    ensures Replace(before + pat + after, pat, rep) == before + rep + after
  {
    var t := pat + after;
    assert before + pat + after == before + t;
    ReplacePassThrough(before, t, pat, rep);
    ReplaceAtStart(pat, after, rep);
    assert before + (rep + after) == before + rep + after;
  }

  /** `strip()` only removes characters: a character absent from `s` is
      absent from `Strip(s)`. */
  lemma StripKeepsAbsent(s: string, c: char)
    requires forall k :: 0 <= k < |s| ==> s[k] != c
    ensures forall k :: 0 <= k < |Strip(s)| ==> Strip(s)[k] != c
  {
    StripLeftKeepsAbsent(s, c);
    StripRightKeepsAbsent(StripLeft(s), c);
  }

  lemma {:induction false} StripLeftKeepsAbsent(s: string, c: char)
    requires forall k :: 0 <= k < |s| ==> s[k] != c
    ensures forall k :: 0 <= k < |StripLeft(s)| ==> StripLeft(s)[k] != c
    decreases |s|
  {
    if s != [] && IsSpace(s[0]) {
      assert forall k :: 0 <= k < |s[1..]| ==> s[1..][k] == s[k + 1];
      StripLeftKeepsAbsent(s[1..], c);
    }
  }

  lemma {:induction false} StripRightKeepsAbsent(s: string, c: char)
    requires forall k :: 0 <= k < |s| ==> s[k] != c
    ensures forall k :: 0 <= k < |StripRight(s)| ==> StripRight(s)[k] != c
    decreases |s|
  {
    if s != [] && IsSpace(s[|s| - 1]) {
      StripRightKeepsAbsent(s[..|s| - 1], c);
    }
  }

  /** A text whose first character is the pattern's but whose second is
      not, and which holds the pattern's first character nowhere else, is
      left unchanged. */
  lemma LeadMismatchUnchanged(s: string, pat: string, rep: string)
    requires |pat| >= 2 && |s| >= 2 && s[0] == pat[0] && s[1] != pat[1]
    requires forall k :: 1 <= k < |s| ==> s[k] != pat[0]
    ensures Replace(s, pat, rep) == s
  {
    if |s| >= |pat| {
      assert s[..|pat|][1] != pat[1];
      NoFirstCharAbsent(s[1..], pat, rep);
      assert [s[0]] + s[1..] == s;
    }
  }

  /** Joining one more part adds the separator and the part at the end. */
  lemma {:induction false} JoinSnoc(parts: seq<string>, x: string, sep: string)
    requires parts != []
    ensures Join(parts + [x], sep) == Join(parts, sep) + sep + x
    decreases |parts|
  {
    var all := parts + [x];
    assert all[0] == parts[0];
    if |parts| == 1 {
      assert all[1..] == [x];
    } else {
      assert all[1..] == parts[1..] + [x];
      JoinSnoc(parts[1..], x, sep);
    }
  }
}
