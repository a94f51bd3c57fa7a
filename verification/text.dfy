/**
  String primitives of the JavaScript host, on strings as `seq<char>`:
  the `\s` class and line terminators of its regular expressions, ASCII
  `toLowerCase`, `includes`, `startsWith`, `trim`, and `split`/`join` on a
  character or a literal separator.
 */
module Text {
  import opened Seqs

  /** Line terminators of ECMAScript regular expressions (`.` stops at them). */
  predicate IsLineTerm(c: char)
  {
    c == '\n' || c == '\r' || c as int == 0x2028 || c as int == 0x2029
  }

  /** The `\s` class of ECMAScript regular expressions, also what `trim` removes. */
  predicate IsSpace(c: char)
  {
    var n := c as int;
    || n == 0x09 || n == 0x0A || n == 0x0B || n == 0x0C || n == 0x0D || n == 0x20
    || n == 0xA0 || n == 0x1680 || (0x2000 <= n <= 0x200A)
    || n == 0x2028 || n == 0x2029 || n == 0x202F || n == 0x205F || n == 0x3000 || n == 0xFEFF
  }

  lemma LineTermIsSpace(c: char)
    ensures IsLineTerm(c) ==> IsSpace(c)
  {
  }

  function LowerChar(c: char): char
  {
    if 'A' <= c <= 'Z' then (c as int + 32) as char else c
  }

  /** `toLowerCase`, restricted to the ASCII letters. */
  function Lower(s: string): (r: string)
    ensures |r| == |s|
    ensures forall i :: 0 <= i < |s| ==> r[i] == LowerChar(s[i])
  {
    seq(|s|, i requires 0 <= i < |s| => LowerChar(s[i]))
  }

  predicate StartsWith(s: string, prefix: string)
  {
    |prefix| <= |s| && s[..|prefix|] == prefix
  }

  predicate EndsWith(s: string, suffix: string)
  {
    |suffix| <= |s| && s[|s| - |suffix|..] == suffix
  }

  /** `s.includes(t)`: t occurs somewhere in s. */
  predicate Contains(s: string, t: string)
    decreases |s|
  {
    StartsWith(s, t) || (|s| > 0 && Contains(s[1..], t))
  }

  lemma ContainsEmpty(s: string)
    ensures Contains(s, "")
  {
  }

  /** t occurs in s at index i. */
  predicate OccursAt(s: string, t: string, i: int)
  {
    0 <= i <= |s| - |t| && s[i..i + |t|] == t
  }

  /** `includes` with the occurrence made explicit. */
  lemma {:induction false} ContainsAt(s: string, t: string)
    ensures Contains(s, t) <==> exists i :: OccursAt(s, t, i)
    decreases |s|
  {
    if StartsWith(s, t) {
      assert OccursAt(s, t, 0);
    }
    if |s| > 0 {
      ContainsAt(s[1..], t);
      if Contains(s[1..], t) {
        var i :| OccursAt(s[1..], t, i);
        assert s[i + 1..i + 1 + |t|] == s[1..][i..i + |t|];
        assert OccursAt(s, t, i + 1);
      }
      if exists i :: OccursAt(s, t, i) {
        var i :| OccursAt(s, t, i);
        if i > 0 {
          assert s[1..][i - 1..i - 1 + |t|] == s[i..i + |t|];
          assert OccursAt(s[1..], t, i - 1);
        }
      }
    }
  }

  /** Case-insensitive `includes`, as the source writes it. */
  predicate ContainsIgnoringCase(s: string, t: string)
  {
    Contains(Lower(s), Lower(t))
  }

  predicate IsBlank(s: string)
  {
    forall i :: 0 <= i < |s| ==> IsSpace(s[i])
  }

  function TrimStart(s: string): (r: string)
    ensures |r| <= |s| && r == s[|s| - |r|..]
    ensures IsBlank(s[..|s| - |r|])
    ensures |r| > 0 ==> !IsSpace(r[0])
  {
    if |s| > 0 && IsSpace(s[0]) then TrimStart(s[1..]) else s
  }

  function TrimEnd(s: string): (r: string)
    ensures |r| <= |s| && r == s[..|r|]
    ensures IsBlank(s[|r|..])
    ensures |r| > 0 ==> !IsSpace(r[|r| - 1])
  {
    if |s| > 0 && IsSpace(s[|s| - 1]) then TrimEnd(s[..|s| - 1]) else s
  }

  /** `trim`: drops leading and trailing white space. */
  function Trim(s: string): (r: string)
    ensures |r| <= |s|
    ensures |r| > 0 ==> !IsSpace(r[0]) && !IsSpace(r[|r| - 1])
    ensures r == [] <==> IsBlank(s)
  {
    TrimEnd(TrimStart(s))
  }

  /** `trim` only removes characters. */
  lemma TrimKeeps(s: string)
    ensures forall c :: c in Trim(s) ==> c in s
  {
    var a := TrimStart(s);
    assert forall c :: c in a ==> c in s by {
      assert a == s[|s| - |a|..];
    }
    var b := TrimEnd(a);
    assert forall c :: c in b ==> c in a by {
      assert b == a[..|b|];
    }
  }

  /** `s.trim() !== ''` */
  lemma TrimEmptyIffBlank(s: string)
    ensures Trim(s) == "" <==> IsBlank(s)
  {
  }

  /** Index of the first occurrence of c, if any (`indexOf`). */
  function IndexOf(s: string, c: char): (r: Option<nat>)
    ensures r.None? ==> c !in s
    ensures r.Some? ==> r.value < |s| && s[r.value] == c && c !in s[..r.value]
  {
    if |s| == 0 then None
    else if s[0] == c then Some(0)
    else match IndexOf(s[1..], c)
      case None => None
      case Some(k) => assert s[..k + 1] == [s[0]] + s[1..][..k]; Some(k + 1)
  }

  /** `s.split(c)` for a one-character separator. */
  function Split(s: string, c: char): (r: seq<string>)
    ensures |r| >= 1
    ensures forall i :: 0 <= i < |r| ==> c !in r[i]
  {
    match IndexOf(s, c)
      case None => [s]
      case Some(k) => [s[..k]] + Split(s[k + 1..], c)
  }

  /** `parts.join(c)`. */
  function Join(parts: seq<string>, c: char): string
  {
    if |parts| == 0 then ""
    else if |parts| == 1 then parts[0]
    else parts[0] + [c] + Join(parts[1..], c)
  }

  lemma JoinCons(a: string, rest: seq<string>, c: char)
    requires |rest| >= 1
    ensures Join([a] + rest, c) == a + [c] + Join(rest, c)
  {
    assert ([a] + rest)[1..] == rest;
  }

  /** A text without the separator splits into itself alone. */
  lemma SplitWithout(s: string, c: char)
    requires c !in s
    ensures Split(s, c) == [s]
  {
  }

  /** Joining the pieces of a split gives the string back. */
  lemma {:induction false} JoinSplit(s: string, c: char)
    ensures Join(Split(s, c), c) == s
    decreases |s|
  {
    match IndexOf(s, c)
      case None =>
      case Some(k) =>
        var rest := Split(s[k + 1..], c);
        assert Split(s, c) == [s[..k]] + rest;
        JoinSplit(s[k + 1..], c);
        JoinCons(s[..k], rest, c);
        assert s == s[..k] + [c] + s[k + 1..];
  }

  /** Splitting a join of separator-free pieces gives the pieces back. */
  lemma {:induction false} SplitJoin(parts: seq<string>, c: char)
    requires |parts| >= 1
    requires forall i :: 0 <= i < |parts| ==> c !in parts[i]
    ensures Split(Join(parts, c), c) == parts
    decreases |parts|
  {
    var s := Join(parts, c);
    if |parts| == 1 {
      assert IndexOf(s, c) == None;
    } else {
      var rest := Join(parts[1..], c);
      assert s == parts[0] + [c] + rest;
      assert s[|parts[0]|] == c;
      assert s[..|parts[0]|] == parts[0];
      assert IndexOf(s, c) == Some(|parts[0]|);
      assert s[|parts[0]| + 1..] == rest;
      SplitJoin(parts[1..], c);
    }
  }

  /** Position of the first occurrence of t at or after `from`. */
  function FindFrom(s: string, t: string, from: nat): (r: Option<nat>)
    requires from <= |s|
    ensures r.Some? ==> from <= r.value && r.value + |t| <= |s| && s[r.value..r.value + |t|] == t
    ensures r.Some? ==> forall k :: from <= k < r.value ==> !StartsWith(s[k..], t)
    ensures r.None? ==> forall k :: from <= k <= |s| ==> !StartsWith(s[k..], t)
    decreases |s| - from
  {
    if StartsWith(s[from..], t) then Some(from)
    else if from == |s| then None
    else FindFrom(s, t, from + 1)
  }

  /** `s.split(sep)` for a non-empty literal separator. */
  function SplitStr(s: string, sep: string): (r: seq<string>)
    requires |sep| > 0
    ensures |r| >= 1
    decreases |s|
  {
    match FindFrom(s, sep, 0)
      case None => [s]
      case Some(k) => [s[..k]] + SplitStr(s[k + |sep|..], sep)
  }

  function JoinStr(parts: seq<string>, sep: string): string
  {
    if |parts| == 0 then ""
    else if |parts| == 1 then parts[0]
    else parts[0] + sep + JoinStr(parts[1..], sep)
  }

  lemma {:induction false} JoinSplitStr(s: string, sep: string)
    requires |sep| > 0
    ensures JoinStr(SplitStr(s, sep), sep) == s
    decreases |s|
  {
    match FindFrom(s, sep, 0)
      case None =>
      case Some(k) =>
        var rest := SplitStr(s[k + |sep|..], sep);
        assert SplitStr(s, sep) == [s[..k]] + rest;
        JoinSplitStr(s[k + |sep|..], sep);
        JoinStrCons(s[..k], rest, sep);
        CutAt(s, k, |sep|);
  }

  /** A string is its prefix, the n characters at k, and the rest. */
  lemma CutAt(s: string, k: nat, n: nat)
    requires k + n <= |s|
    ensures s == s[..k] + s[k..k + n] + s[k + n..]
  {
  }

  /** `s.replace(/c/g, d)` for single characters. */
  function ReplaceChar(s: string, c: char, d: char): (r: string)
    ensures |r| == |s|
    ensures c != d ==> c !in r
    ensures forall i :: 0 <= i < |s| ==> r[i] == (if s[i] == c then d else s[i])
  {
    seq(|s|, i requires 0 <= i < |s| => if s[i] == c then d else s[i])
  }

  /** `s.replace(/[chars]/g, '')`: removes every listed character. */
  function RemoveChars(s: string, chars: set<char>): (r: string)
    ensures |r| <= |s|
    ensures forall i :: 0 <= i < |r| ==> r[i] !in chars
    ensures (forall i :: 0 <= i < |s| ==> s[i] !in chars) ==> r == s
  {
    if |s| == 0 then ""
    else (if s[0] in chars then "" else [s[0]]) + RemoveChars(s[1..], chars)
  }

  /**
    The UTF-16 code units JavaScript stores for a character: the character
    itself inside the Basic Multilingual Plane, a surrogate pair above it.
   */
  function CodeUnits(c: char): (u: seq<int>)
    ensures |u| == 1 <==> c as int < 0x1_0000
    ensures |u| == 1 ==> u[0] == c as int && !(0xD800 <= u[0] < 0xE000)
    ensures |u| == 2 ==> 0xD800 <= u[0] < 0xDC00 <= u[1] < 0xE000
    ensures |u| == 2 ==> 0x1_0000 + (u[0] - 0xD800) * 0x400 + (u[1] - 0xDC00) == c as int
  {
    var n := c as int;
    if n < 0x1_0000 then [n]
    else [0xD800 + (n - 0x1_0000) / 0x400, 0xDC00 + (n - 0x1_0000) % 0x400]
  }

  /** A string as JavaScript holds it: the code units of its characters, in order. */
  function Utf16(s: string): (u: seq<int>)
    ensures |s| <= |u| <= 2 * |s|
    ensures |s| > 0 ==> u == CodeUnits(s[0]) + Utf16(s[1..])
  {
    if |s| == 0 then [] else CodeUnits(s[0]) + Utf16(s[1..])
  }

  /** Two characters with the same code units are the same character. */
  lemma CodeUnitsInjective(c: char, d: char)
    requires CodeUnits(c)[0] == CodeUnits(d)[0]
    requires |CodeUnits(c)| == 2 ==> CodeUnits(c)[1] == CodeUnits(d)[1]
    ensures c == d
  {
  }

  /** Distinct strings are held as distinct code-unit sequences. */
  lemma {:induction false} Utf16Injective(a: string, b: string)
    requires Utf16(a) == Utf16(b)
    ensures a == b
    decreases |a|
  {
    if |a| > 0 {
      var ua, ub := CodeUnits(a[0]), CodeUnits(b[0]);
      assert Utf16(a)[0] == ua[0] && Utf16(b)[0] == ub[0];
      if |ua| == 2 {
        assert Utf16(a)[1] == ua[1] && Utf16(b)[1] == ub[1];
      }
      CodeUnitsInjective(a[0], b[0]);
      assert Utf16(a[1..]) == Utf16(a)[|ua|..] == Utf16(b)[|ub|..] == Utf16(b[1..]);
      Utf16Injective(a[1..], b[1..]);
    }
  }

  /** Lexicographic order on code-unit sequences, a proper prefix first. */
  predicate UnitsLe(a: seq<int>, b: seq<int>)
    decreases |a|
  {
    if |a| == 0 then true
    else if |b| == 0 then false
    else if a[0] != b[0] then a[0] < b[0]
    else UnitsLe(a[1..], b[1..])
  }

  lemma {:induction false} UnitsLeTrans(a: seq<int>, b: seq<int>, c: seq<int>)
    requires UnitsLe(a, b) && UnitsLe(b, c)
    ensures UnitsLe(a, c)
    decreases |a|
  {
    if |a| > 0 && |b| > 0 && |c| > 0 && a[0] == b[0] && b[0] == c[0] {
      UnitsLeTrans(a[1..], b[1..], c[1..]);
    }
  }

  lemma {:induction false} UnitsLeTotal(a: seq<int>, b: seq<int>)
    ensures UnitsLe(a, b) || UnitsLe(b, a)
    ensures UnitsLe(a, b) && UnitsLe(b, a) ==> a == b
    decreases |a|
  {
    if |a| > 0 && |b| > 0 && a[0] == b[0] {
      UnitsLeTotal(a[1..], b[1..]);
      if UnitsLe(a, b) && UnitsLe(b, a) {
        assert a == [a[0]] + a[1..] && b == [b[0]] + b[1..];
      }
    }
  }

  lemma {:induction false} UnitsLeRefl(a: seq<int>)
    ensures UnitsLe(a, a)
    decreases |a|
  {
    if |a| > 0 {
      UnitsLeRefl(a[1..]);
    }
  }

  /** The default `sort()` order: the strings' UTF-16 code units compared lexicographically. */
  predicate CodeUnitLe(a: string, b: string)
  {
    UnitsLe(Utf16(a), Utf16(b))
  }

  /**
    Code-unit order is not character order: a character above the Basic
    Multilingual Plane sorts before U+FF01, because its first code unit is a
    surrogate.
   */
  lemma SurrogateSortsFirst()
    ensures CodeUnitLe("\U{1F600}", "\U{FF01}") && !CodeUnitLe("\U{FF01}", "\U{1F600}")
    ensures "\U{FF01}"[0] < "\U{1F600}"[0]
  {
    assert Utf16("\U{1F600}") == [0xD83D, 0xDE00];
    assert Utf16("\U{FF01}") == [0xFF01];
  }

  /** The comparison of the default `sort()`, as a comparator value. */
  function ByCodeUnits(): (string, string) -> bool
  {
    (a: string, b: string) => CodeUnitLe(a, b)
  }

  /** The default order is a total order, so sorting by it leaves no ties to the host. */
  lemma CodeUnitOrderTotal()
    ensures TotalOrder(ByCodeUnits())
  {
    forall a: string ensures CodeUnitLe(a, a) {
      UnitsLeRefl(Utf16(a));
    }
    forall a: string, b: string, c: string | CodeUnitLe(a, b) && CodeUnitLe(b, c) ensures CodeUnitLe(a, c) {
      UnitsLeTrans(Utf16(a), Utf16(b), Utf16(c));
    }
    forall a: string, b: string ensures (CodeUnitLe(a, b) || CodeUnitLe(b, a)) && (CodeUnitLe(a, b) && CodeUnitLe(b, a) ==> a == b) {
      UnitsLeTotal(Utf16(a), Utf16(b));
      if CodeUnitLe(a, b) && CodeUnitLe(b, a) {
        Utf16Injective(a, b);
      }
    }
  }


  /** `^` in multi-line mode: the start of the text or just after a line terminator. */
  predicate IsLineStart(t: string, p: nat)
  {
    p == 0 || (p <= |t| && IsLineTerm(t[p - 1]))
  }

  /** First position at or after i that ends the line (`$` in multi-line mode). */
  function LineEnd(t: string, i: nat): (e: nat)
    requires i <= |t|
    ensures i <= e <= |t|
    ensures forall k :: i <= k < e ==> !IsLineTerm(t[k])
    ensures e == |t| || IsLineTerm(t[e])
    decreases |t| - i
  {
    if i == |t| || IsLineTerm(t[i]) then i else LineEnd(t, i + 1)
  }

  /** `const [key, ...valueParts] = line.split(':')` and the trimmed key. */
  function KeyOf(line: string): (k: string)
    ensures ':' !in k
  {
    var parts := Split(line, ':');
    TrimKeeps(parts[0]);
    Trim(parts[0])
  }

  /** `valueParts.join(':').trim()` */
  function ValueOf(line: string): string
  {
    Trim(Join(Split(line, ':')[1..], ':'))
  }

  /** The key is the text before the first colon and the value is everything after it, colons included. */
  lemma KeyValueSplit(line: string)
    requires ':' in line
    ensures var k := IndexOf(line, ':').value;
      KeyOf(line) == Trim(line[..k]) && ValueOf(line) == Trim(line[k + 1..])
  {
    var k := IndexOf(line, ':').value;
    assert Split(line, ':') == [line[..k]] + Split(line[k + 1..], ':');
    assert Split(line, ':')[1..] == Split(line[k + 1..], ':');
    JoinSplit(line[k + 1..], ':');
  }

  // ---------------------------------------------------------------------------
  // `s.split(re)` for a pattern with capturing groups: the text between
  // matches, each match's captured groups spliced in between.
  // ---------------------------------------------------------------------------

  /** A match of the pattern: where it ends and what its groups captured. */
  datatype Hit = Hit(end: nat, groups: seq<string>)

  /** Every match found by `at` starts where it is tried and ends inside s, after its start. */
  ghost predicate ValidMatcher(s: string, at: nat -> Option<Hit>)
  {
    forall q: nat :: q < |s| && at(q).Some? ==> q < at(q).value.end <= |s|
  }

  /** The first position in p..n-1 where the pattern matches. */
  function FirstHit(n: nat, at: nat -> Option<Hit>, p: nat): (r: Option<nat>)
    ensures r.Some? ==> p <= r.value < n && at(r.value).Some?
    ensures r.Some? ==> forall k :: p <= k < r.value ==> at(k).None?
    ensures r.None? ==> forall k :: p <= k < n ==> at(k).None?
    decreases n - p
  {
    if p >= n then None
    else if at(p).Some? then Some(p)
    else FirstHit(n, at, p + 1)
  }

  /** Where the pattern matches nowhere from p on, there is no first hit. */
  lemma {:induction false} FirstHitNone(n: nat, at: nat -> Option<Hit>, p: nat)
    requires forall k :: p <= k < n ==> at(k).None?
    ensures FirstHit(n, at, p) == None
    decreases n - p
  {
    if p < n {
      FirstHitNone(n, at, p + 1);
    }
  }

  /** The split from position p on, as the host's `split` loop computes it. */
  function RegexSplit(s: string, at: nat -> Option<Hit>, p: nat): (r: seq<string>)
    requires p <= |s| && ValidMatcher(s, at)
    ensures |r| >= 1
    decreases |s| - p
  {
    match FirstHit(|s|, at, p)
      case None => [s[p..]]
      case Some(q) => [s[p..q]] + at(q).value.groups + RegexSplit(s, at, at(q).value.end)
  }

  /** One step of the split: the text up to the first match, that match's groups, then the split of the rest. */
  lemma RegexSplitStep(s: string, at: nat -> Option<Hit>, p: nat, q: nat)
    requires p <= |s| && ValidMatcher(s, at)
    requires FirstHit(|s|, at, p) == Some(q)
    ensures RegexSplit(s, at, p) == [s[p..q]] + at(q).value.groups + RegexSplit(s, at, at(q).value.end)
  {
  }

  /**
    When the groups of every match spell out the whole match, concatenating
    the pieces of the split gives the text back.
   */
  lemma {:induction false} RegexSplitCovers(s: string, at: nat -> Option<Hit>, p: nat)
    requires p <= |s| && ValidMatcher(s, at)
    requires forall q: nat :: q < |s| && at(q).Some? ==> Flatten(at(q).value.groups) == s[q..at(q).value.end]
    ensures Flatten(RegexSplit(s, at, p)) == s[p..]
    decreases |s| - p
  {
    match FirstHit(|s|, at, p)
      case None =>
        assert Flatten([s[p..]]) == s[p..] + Flatten([]);
      case Some(q) =>
        var h := at(q).value;
        var rest := RegexSplit(s, at, h.end);
        RegexSplitCovers(s, at, h.end);
        FlattenAppend([s[p..q]] + h.groups, rest);
        FlattenAppend([s[p..q]], h.groups);
        assert Flatten([s[p..q]]) == s[p..q] + Flatten([]);
        assert s[p..] == s[p..q] + s[q..h.end] + s[h.end..];
  }

  /**
    When every match has one group with property `prop`, the pieces alternate:
    text at the even positions, a group with `prop` at each odd one.
   */
  lemma {:induction false} RegexSplitOdd(s: string, at: nat -> Option<Hit>, p: nat, prop: string -> bool)
    requires p <= |s| && ValidMatcher(s, at)
    requires forall q: nat :: q < |s| && at(q).Some? ==> |at(q).value.groups| == 1 && prop(at(q).value.groups[0])
    ensures |RegexSplit(s, at, p)| % 2 == 1
    ensures forall i :: 0 <= i < |RegexSplit(s, at, p)| && i % 2 == 1 ==> prop(RegexSplit(s, at, p)[i])
    decreases |s| - p
  {
    match FirstHit(|s|, at, p)
      case None =>
      case Some(q) =>
        var h := at(q).value;
        var rest := RegexSplit(s, at, h.end);
        RegexSplitOdd(s, at, h.end, prop);
        var r := [s[p..q]] + h.groups + rest;
        assert RegexSplit(s, at, p) == r;
        forall i | 0 <= i < |r| && i % 2 == 1 ensures prop(r[i]) {
          if i >= 2 {
            assert r[i] == rest[i - 2];
          }
        }
  }

  /** The first position at or after i holding c, or the end. */
  function RunTo(s: string, i: nat, c: char): (j: nat)
    requires i <= |s|
    ensures i <= j <= |s|
    ensures forall k :: i <= k < j ==> s[k] != c
    ensures j == |s| || s[j] == c
    decreases |s| - i
  {
    if i == |s| || s[i] == c then i else RunTo(s, i + 1, c)
  }

  /** RunTo stops exactly at the first c. */
  lemma {:induction false} RunToFirst(s: string, i: nat, j: nat, c: char)
    requires i <= j < |s| && s[j] == c
    requires forall k :: i <= k < j ==> s[k] != c
    ensures RunTo(s, i, c) == j
    decreases j - i
  {
    if i < j {
      RunToFirst(s, i + 1, j, c);
    }
  }

  /**
    `s.replace(re, f)` for a global pattern: the text between matches kept,
    each match replaced by what `render` makes of its groups.
   */
  function RegexReplace(s: string, at: nat -> Option<Hit>, render: seq<string> -> string, p: nat): string
    requires p <= |s| && ValidMatcher(s, at)
    decreases |s| - p
  {
    match FirstHit(|s|, at, p)
      case None => s[p..]
      case Some(q) => s[p..q] + render(at(q).value.groups) + RegexReplace(s, at, render, at(q).value.end)
  }

  /** Where the pattern matches nowhere, replacing changes nothing. */
  lemma {:induction false} RegexReplaceNoMatch(s: string, at: nat -> Option<Hit>, render: seq<string> -> string, p: nat)
    requires p <= |s| && ValidMatcher(s, at)
    requires forall q: nat :: p <= q < |s| ==> at(q).None?
    ensures RegexReplace(s, at, render, p) == s[p..]
  {
    assert FirstHit(|s|, at, p).None?;
  }

  /** The pieces of a split with n groups per match, the groups of each match rendered in their place. */
  function Interleave(parts: seq<string>, n: nat, render: seq<string> -> string): string
    requires |parts| >= 1
    decreases |parts|
  {
    if |parts| <= n + 1 then parts[0]
    else parts[0] + render(parts[1..1 + n]) + Interleave(parts[1 + n..], n, render)
  }

  /** Every match has exactly n groups. */
  ghost predicate GroupCount(s: string, at: nat -> Option<Hit>, n: nat)
  {
    forall q: nat :: q < |s| && at(q).Some? ==> |at(q).value.groups| == n
  }

  /**
    Replacing is splitting and rendering each match's groups in its place:
    the two host operations agree on every pattern with a fixed number of groups.
   */
  lemma {:induction false} RegexReplaceIsSplit(s: string, at: nat -> Option<Hit>, n: nat, render: seq<string> -> string, p: nat)
    requires p <= |s| && ValidMatcher(s, at) && GroupCount(s, at, n)
    ensures RegexReplace(s, at, render, p) == Interleave(RegexSplit(s, at, p), n, render)
    decreases |s| - p
  {
    match FirstHit(|s|, at, p)
      case None =>
      case Some(q) =>
        var h := at(q).value;
        var rest := RegexSplit(s, at, h.end);
        RegexReplaceIsSplit(s, at, n, render, h.end);
        var parts := [s[p..q]] + h.groups + rest;
        RegexSplitStep(s, at, p, q);
        assert parts[1..1 + n] == h.groups;
        assert parts[1 + n..] == rest;
  }
  lemma JoinStrCons(a: string, rest: seq<string>, sep: string)
    requires |rest| >= 1
    ensures JoinStr([a] + rest, sep) == a + sep + JoinStr(rest, sep)
  {
    assert ([a] + rest)[1..] == rest;
  }

  /** Every match is exactly `sep` and captures nothing. */
  ghost predicate MatchesSep(s: string, at: nat -> Option<Hit>, sep: string)
  {
    forall q: nat :: q < |s| && at(q).Some? ==>
      at(q).value.groups == [] && at(q).value.end == q + |sep| <= |s| && s[q..q + |sep|] == sep
  }

  /** A split whose matches are all `sep` joins back with `sep` to the text. */
  lemma {:induction false} RegexSplitJoin(s: string, at: nat -> Option<Hit>, p: nat, sep: string)
    requires p <= |s| && ValidMatcher(s, at) && MatchesSep(s, at, sep)
    ensures JoinStr(RegexSplit(s, at, p), sep) == s[p..]
    decreases |s| - p
  {
    match FirstHit(|s|, at, p)
      case None =>
      case Some(q) =>
        var e := at(q).value.end;
        var rest := RegexSplit(s, at, e);
        RegexSplitStep(s, at, p, q);
        assert RegexSplit(s, at, p) == [s[p..q]] + rest;
        RegexSplitJoin(s, at, e, sep);
        JoinStrCons(s[p..q], rest, sep);
        SliceThree(s, p, q, e);
  }

  /** t occurs nowhere in s. */
  predicate Absent(s: string, t: string)
  {
    forall k :: 0 <= k <= |s| ==> !StartsWith(s[k..], t)
  }

  /** No piece of `s.split(sep)` contains the separator. */
  lemma {:induction false} SplitStrAbsent(s: string, sep: string)
    requires |sep| > 0
    ensures forall i :: 0 <= i < |SplitStr(s, sep)| ==> Absent(SplitStr(s, sep)[i], sep)
    decreases |s|
  {
    match FindFrom(s, sep, 0)
      case None =>
        assert SplitStr(s, sep) == [s];
      case Some(k) =>
        var rest := SplitStr(s[k + |sep|..], sep);
        assert SplitStr(s, sep) == [s[..k]] + rest;
        SplitStrAbsent(s[k + |sep|..], sep);
        BeforeFirstAbsent(s, sep, k);
        AbsentCons(s[..k], rest, sep);
  }

  /** The text before the first occurrence holds no occurrence. */
  lemma BeforeFirstAbsent(s: string, sep: string, k: nat)
    requires |sep| > 0 && FindFrom(s, sep, 0) == Some(k)
    ensures Absent(s[..k], sep)
  {
    var x := s[..k];
    forall j | 0 <= j <= |x| ensures !StartsWith(x[j..], sep) {
      if j < k && |sep| <= |x[j..]| {
        assert x[j..][..|sep|] == s[j..][..|sep|];
      }
    }
  }

  lemma AbsentCons(a: string, rest: seq<string>, sep: string)
    requires Absent(a, sep)
    requires forall i :: 0 <= i < |rest| ==> Absent(rest[i], sep)
    ensures forall i :: 0 <= i < |[a] + rest| ==> Absent(([a] + rest)[i], sep)
  {
    forall i | 0 <= i < |[a] + rest| ensures Absent(([a] + rest)[i], sep) {
      if i > 0 {
        assert ([a] + rest)[i] == rest[i - 1];
      }
    }
  }
}
