/**
 * The small part of Python's `str` and `os.path` behaviour that the OCR core relies on:
 * `strip`, `split(sep)`, `split()`, `lower`, `isupper`, `title`, substring search,
 * `os.path.splitext` and `os.path.basename` (POSIX flavour), `join` and slicing.
 * White space is Python's full set; case mapping covers ASCII letters only.
 */
module Strs {

  /** Python's whitespace, as `str.isspace`, `strip()` and `split()` use it: the ASCII controls
      9 to 13 and 28 to 31, the space, U+0085, U+00A0, U+1680, U+2000 to U+200A, U+2028, U+2029,
      U+202F, U+205F and U+3000. */
  predicate IsSpace(c: char) {
    if c <= '\U{0020}' then '\U{0009}' <= c <= '\U{000D}' || '\U{001C}' <= c
    else '\U{0085}' <= c && IsWideSpace(c)
  }

  /** The white space above U+0084. */
  predicate IsWideSpace(c: char) {
    c == '\U{0085}' || c == '\U{00A0}' || c == '\U{1680}' || ('\U{2000}' <= c <= '\U{200A}') ||
    c == '\U{2028}' || c == '\U{2029}' || c == '\U{202F}' || c == '\U{205F}' || c == '\U{3000}'
  }

  predicate IsUpperChar(c: char) { 'A' <= c <= 'Z' }
  predicate IsLowerChar(c: char) { 'a' <= c <= 'z' }
  predicate IsCased(c: char) { IsUpperChar(c) || IsLowerChar(c) }

  function LowerChar(c: char): (r: char)
    ensures !IsUpperChar(r)
    ensures !IsUpperChar(c) ==> r == c
  {
    if IsUpperChar(c) then (c as int + 32) as char else c
  }

  function UpperChar(c: char): (r: char)
    ensures !IsLowerChar(r)
    ensures !IsLowerChar(c) ==> r == c
  {
    if IsLowerChar(c) then (c as int - 32) as char else c
  }

  /** `s.lower()` */
  function Lower(s: string): (r: string)
    ensures |r| == |s|
    ensures forall i :: 0 <= i < |s| ==> r[i] == LowerChar(s[i])
  {
    seq(|s|, i requires 0 <= i < |s| => LowerChar(s[i]))
  }

  /** `s.isupper()`: at least one cased character and no lower-case one. */
  predicate IsUpper(s: string) {
    (exists i :: 0 <= i < |s| && IsCased(s[i])) && (forall i :: 0 <= i < |s| ==> !IsLowerChar(s[i]))
  }

  /** `s.title()`: a cased character is upper-cased when the character before it is not cased,
      lower-cased otherwise; other characters are kept. */
  function TitleFrom(s: string, prevCased: bool): (r: string)
    ensures |r| == |s|
    ensures forall i :: 0 <= i < |s| && !IsCased(s[i]) ==> r[i] == s[i]
  {
    if s == [] then []
    else
      var c := s[0];
      var d := if !IsCased(c) then c else if prevCased then LowerChar(c) else UpperChar(c);
      [d] + TitleFrom(s[1..], IsCased(c))
  }

  function Title(s: string): (r: string)
    ensures |r| == |s|
  {
    TitleFrom(s, false)
  }

  // ---------------------------------------------------------------- strip

  function LStrip(s: string): (r: string)
    ensures |r| <= |s| && r == s[|s| - |r|..]
    ensures r == [] || !IsSpace(r[0])
    ensures forall i :: 0 <= i < |s| - |r| ==> IsSpace(s[i])
  {
    if s != [] && IsSpace(s[0]) then LStrip(s[1..]) else s
  }

  function RStrip(s: string): (r: string)
    ensures |r| <= |s| && r == s[..|r|]
    ensures r == [] || !IsSpace(r[|r| - 1])
    ensures forall i :: |r| <= i < |s| ==> IsSpace(s[i])
  {
    if s != [] && IsSpace(s[|s| - 1]) then RStrip(s[..|s| - 1]) else s
  }

  /** `s.strip()`: no white space is left at either end. */
  function Strip(s: string): (r: string)
    ensures |r| <= |s|
    ensures r == [] || (!IsSpace(r[0]) && !IsSpace(r[|r| - 1]))
  {
    RStrip(LStrip(s))
  }

  predicate IsBlank(s: string) {
    forall i :: 0 <= i < |s| ==> IsSpace(s[i])
  }

  lemma StripEmptyIffBlank(s: string)
    ensures Strip(s) == [] <==> IsBlank(s)
  {
    var l := LStrip(s);
    if l != [] {
      assert !IsSpace(l[0]);
      assert RStrip(l) != [];
      assert !IsSpace(s[|s| - |l|]);
    }
  }

  // ---------------------------------------------------------------- search

  predicate OccursAt(s: string, sub: string, i: int) {
    0 <= i && i + |sub| <= |s| && s[i..i + |sub|] == sub
  }

  /** `s.find(sub, i)`: the first occurrence at or after `i`, or -1. */
  function FindFrom(s: string, sub: string, i: nat): (r: int)
    requires i <= |s|
    ensures r == -1 || (i <= r && OccursAt(s, sub, r))
    ensures forall k :: i <= k && (r == -1 || k < r) ==> !OccursAt(s, sub, k)
    decreases |s| - i
  {
    if OccursAt(s, sub, i) then i
    else if i == |s| then -1
    else FindFrom(s, sub, i + 1)
  }

  function Find(s: string, sub: string): (r: int)
    ensures r == -1 || OccursAt(s, sub, r)
    ensures forall k :: 0 <= k && (r == -1 || k < r) ==> !OccursAt(s, sub, k)
  {
    FindFrom(s, sub, 0)
  }

  /** `sub in s` */
  predicate Contains(s: string, sub: string) {
    Find(s, sub) >= 0
  }

  lemma ContainsChar(s: string, c: char)
    ensures Contains(s, [c]) <==> c in s
  {
    if c in s {
      var k :| 0 <= k < |s| && s[k] == c;
      assert s[k..k + 1] == [c];
      assert OccursAt(s, [c], k);
    }
    if Contains(s, [c]) {
      var k := Find(s, [c]);
      assert s[k..k + 1] == [c];
      assert s[k] == c;
    }
  }

  function LastIndexOf(s: string, c: char): (r: int)
    ensures -1 <= r < |s|
    ensures r >= 0 ==> s[r] == c
    ensures forall k :: r < k < |s| ==> s[k] != c
  {
    if s == [] then -1
    else if s[|s| - 1] == c then |s| - 1
    else LastIndexOf(s[..|s| - 1], c)
  }

  lemma LastIndexOfIs(s: string, c: char, k: int)
    requires -1 <= k < |s| && (k >= 0 ==> s[k] == c)
    requires forall j :: k < j < |s| ==> s[j] != c
    ensures LastIndexOf(s, c) == k
  {
  }

  function Count(s: string, c: char): (r: nat)
    ensures r <= |s|
    ensures r > 0 <==> c in s
  {
    if s == [] then 0 else (if s[0] == c then 1 else 0) + Count(s[1..], c)
  }

  /** `s.endswith(suffix)` */
  predicate EndsWith(s: string, suffix: string) {
    |suffix| <= |s| && s[|s| - |suffix|..] == suffix
  }

  // ---------------------------------------------------------------- split and join

  /** `s.split(sep)` for a non-empty separator. */
  function SplitOn(s: string, sep: string): (r: seq<string>)
    requires |sep| > 0
    ensures |r| >= 1
    decreases |s|
  {
    var i := Find(s, sep);
    if i < 0 then [s] else [s[..i]] + SplitOn(s[i + |sep|..], sep)
  }

  /** `sep.join(parts)` */
  function Join(parts: seq<string>, sep: string): string {
    if parts == [] then []
    else if |parts| == 1 then parts[0]
    else parts[0] + sep + Join(parts[1..], sep)
  }

  /** Splitting and joining back with the same separator gives the original text, and no
      piece contains the separator. */
  lemma {:induction false} SplitJoin(s: string, sep: string)
    requires |sep| > 0
    ensures Join(SplitOn(s, sep), sep) == s
    decreases |s|
  {
    var i := Find(s, sep);
    if i >= 0 {
      SplitStep(s, sep);
      var head, rest := s[..i], s[i + |sep|..];
      SplitJoin(rest, sep);
      JoinCons(head, SplitOn(rest, sep), sep);
    }
  }

  /** At the first occurrence of the separator the text falls apart into the piece before it,
      the separator and the rest, which is split further. */
  lemma SplitStep(s: string, sep: string)
    requires |sep| > 0 && Find(s, sep) >= 0
    ensures var i := Find(s, sep);
      && SplitOn(s, sep) == [s[..i]] + SplitOn(s[i + |sep|..], sep)
      && s == s[..i] + sep + s[i + |sep|..]
  {
    var i := Find(s, sep);
    assert OccursAt(s, sep, i);
    SliceThree(s, i, i + |sep|);
  }

  lemma JoinCons(head: string, tail: seq<string>, sep: string)
    requires tail != []
    ensures Join([head] + tail, sep) == head + sep + Join(tail, sep)
  {
    assert ([head] + tail)[1..] == tail;
  }

  lemma SliceThree<T>(s: seq<T>, i: nat, j: nat)
    requires i <= j <= |s|
    ensures s == s[..i] + s[i..j] + s[j..]
  {
  }

  /** No piece of a split contains the separator. */
  lemma {:induction false} SplitPiecesLackSep(s: string, sep: string)
    requires |sep| > 0
    ensures forall k :: 0 <= k < |SplitOn(s, sep)| ==> !Contains(SplitOn(s, sep)[k], sep)
    decreases |s|
  {
    var i := Find(s, sep);
    if i >= 0 {
      var rest := s[i + |sep|..];
      SplitPiecesLackSep(rest, sep);
      var tail := SplitOn(rest, sep);
      assert SplitOn(s, sep) == [s[..i]] + tail;
      var j := Find(s[..i], sep);
      if j >= 0 {
        assert s[..i][j..j + |sep|] == s[j..j + |sep|];
        assert OccursAt(s, sep, j);
      }
    }
  }

  /** The text after the first `c`, as in `s.split(c, 1)[1]`; `s` itself when `c` is absent. */
  function AfterFirst(s: string, c: char): (r: string)
    ensures c in s ==> |r| < |s|
  {
    var i := Find(s, [c]);
    ContainsChar(s, c);
    if i < 0 then s else s[i + 1..]
  }

  /** Python's `s.split()` with no argument: the maximal runs of non-white-space characters. */
  function TakeWord(s: string): (w: string)
    ensures |w| <= |s| && w == s[..|w|]
    ensures forall i :: 0 <= i < |w| ==> !IsSpace(w[i])
    ensures |w| == |s| || IsSpace(s[|w|])
  {
    if s == [] || IsSpace(s[0]) then [] else [s[0]] + TakeWord(s[1..])
  }

  predicate IsWord(w: string) {
    w != [] && forall i :: 0 <= i < |w| ==> !IsSpace(w[i])
  }

  function Words(s: string): (r: seq<string>)
    ensures forall k :: 0 <= k < |r| ==> IsWord(r[k])
    decreases |s|
  {
    var t := LStrip(s);
    if t == [] then []
    else
      var w := TakeWord(t);
      assert w != [] by { assert !IsSpace(t[0]); }
      var rest := Words(t[|w|..]);
      assert forall k :: 0 <= k < |rest| ==> IsWord(rest[k]);
      [w] + rest
  }

  lemma {:induction false} WordsEmptyIffBlank(s: string)
    ensures Words(s) == [] <==> IsBlank(s)
  {
    var t := LStrip(s);
    if t != [] {
      assert !IsSpace(s[|s| - |t|]);
    }
  }

  /** A no-break space is white space to `strip()`. */
  lemma NoBreakSpaceStripped()
    ensures Strip("\U{00A0}a") == "a"
  {
    var s := ['\U{00A0}', 'a'];
    assert IsWideSpace(s[0]) && s[1..] == ['a'];
    assert LStrip(s) == LStrip(['a']) == ['a'];
    assert RStrip(['a']) == ['a'];
  }

  /** An information separator ends a word as it does for `split()`. */
  lemma SeparatorEndsWord()
    ensures TakeWord("ab\U{001C}c") == "ab"
  {
    var s := "ab\U{001C}c";
    assert s[1..] == "b\U{001C}c";
    assert s[1..][1..] == "\U{001C}c";
    assert TakeWord(s[1..][1..]) == [];
  }

  // ---------------------------------------------------------------- replace, truncate

  /** `s.replace(c, d)` for single characters. */
  function ReplaceChar(s: string, c: char, d: char): (r: string)
    ensures |r| == |s|
    ensures forall i :: 0 <= i < |s| ==> r[i] == if s[i] == c then d else s[i]
  {
    seq(|s|, i requires 0 <= i < |s| => if s[i] == c then d else s[i])
  }

  /** `s[:n]` */
  function Truncate(s: string, n: nat): (r: string)
    ensures |r| <= n && |r| <= |s|
    ensures r == s[..|r|]
    ensures |s| <= n ==> r == s
    ensures |s| > n ==> |r| == n
  {
    if |s| <= n then s else s[..n]
  }

  // ---------------------------------------------------------------- paths

  /** `os.path.basename` on POSIX: everything after the last '/'. */
  function Basename(p: string): (r: string)
    ensures '/' !in r
    ensures |r| <= |p| && r == p[|p| - |r|..]
  {
    p[LastIndexOf(p, '/') + 1..]
  }

  predicate AllDots(s: string) {
    forall i :: 0 <= i < |s| ==> s[i] == '.'
  }

  /** `os.path.splitext` on POSIX: the extension runs from the last '.' of the last path
      component, unless everything before that dot in the component is dots. */
  function Splitext(p: string): (r: (string, string))
    ensures r.0 + r.1 == p
    ensures r.1 == [] || (r.1[0] == '.' && '/' !in r.1 && '.' !in r.1[1..])
  {
    var sepIndex := LastIndexOf(p, '/');
    var dotIndex := LastIndexOf(p, '.');
    if dotIndex > sepIndex && !AllDots(p[sepIndex + 1..dotIndex]) then
      ExtensionShape(p, sepIndex, dotIndex);
      (p[..dotIndex], p[dotIndex..])
    else
      (p, [])
  }

  lemma ExtensionShape(p: string, sepIndex: int, dotIndex: int)
    requires sepIndex == LastIndexOf(p, '/') && dotIndex == LastIndexOf(p, '.')
    requires 0 <= dotIndex && sepIndex < dotIndex
    ensures p == p[..dotIndex] + p[dotIndex..]
    ensures p[dotIndex..][0] == '.' && '/' !in p[dotIndex..] && '.' !in p[dotIndex..][1..]
  {
    var e := p[dotIndex..];
    forall k | 0 <= k < |e| ensures e[k] != '/' {
      assert e[k] == p[dotIndex + k];
    }
    forall k | 1 <= k < |e| ensures e[k] != '.' {
      assert e[k] == p[dotIndex + k];
    }
  }

  function Ext(p: string): string { Splitext(p).1 }

  /** Cutting a concatenation inside its second part. */
  lemma {:induction false} ConcatCut(a: string, b: string, k: int)
    requires 0 <= k <= |b|
    ensures (a + b)[..|a| + k] == a + b[..k]
    ensures (a + b)[|a| + k..] == b[k..]
  {
  }

  /** Where `Splitext` cuts when there is an extension. */
  lemma {:induction false} SplitextCut(p: string)
    requires Ext(p) != ""
    ensures var d := LastIndexOf(p, '.');
      0 <= d && LastIndexOf(p, '/') < d && !AllDots(p[LastIndexOf(p, '/') + 1..d]) &&
      Splitext(p) == (p[..d], p[d..])
  {
  }

  lemma {:induction false} SplitextAt(p: string, d: int)
    requires d == LastIndexOf(p, '.') && 0 <= d && LastIndexOf(p, '/') < d
    requires !AllDots(p[LastIndexOf(p, '/') + 1..d])
    ensures Splitext(p) == (p[..d], p[d..])
  {
  }

  // ---------------------------------------------------------------- numbers

  function DigitChar(d: nat): char
    requires d < 10
  {
    "0123456789"[d]
  }

  /** `str(n)` for a natural number. */
  function NatToString(n: nat): (r: string)
    ensures |r| >= 1
    ensures forall i :: 0 <= i < |r| ==> '0' <= r[i] <= '9'
  {
    if n < 10 then [DigitChar(n)] else NatToString(n / 10) + [DigitChar(n % 10)]
  }
}
