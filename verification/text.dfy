/** The JavaScript and Rust string operations the analysers rely on, over
    `string` (= `seq<char>`): white space and word characters as JavaScript
    regular expressions see them, `trim`, `split`, `join`, `startsWith`,
    `includes`, `lastIndexOf`, ASCII lower-casing and decimal rendering. */
module Text {
  import opened Wrappers

  /** The class `\s` of JavaScript regular expressions, which is also the set
      of characters `String.prototype.trim` removes: the white-space and
      line-terminator characters of ECMAScript. */
  predicate IsSpace(c: char) {
    || c == ' ' || c == '\t' || c == '\n' || c == '\r'
    || c == '\U{000B}' || c == '\U{000C}' || c == '\U{00A0}' || c == '\U{1680}'
    || ('\U{2000}' <= c <= '\U{200A}')
    || c == '\U{2028}' || c == '\U{2029}' || c == '\U{202F}' || c == '\U{205F}'
    || c == '\U{3000}' || c == '\U{FEFF}'
  }

  /** The class `\w` of JavaScript regular expressions without the `u` flag. */
  predicate IsWordChar(c: char) {
    ('a' <= c <= 'z') || ('A' <= c <= 'Z') || ('0' <= c <= '9') || c == '_'
  }

  /** Every character of `s` is white space (so `s.trim()` is empty). */
  predicate IsBlank(s: string) {
    forall k :: 0 <= k < |s| ==> IsSpace(s[k])
  }

  /** `s` has no white space at either end, so trimming leaves it as it is. */
  predicate IsTrimmed(s: string) {
    s == [] || (!IsSpace(s[0]) && !IsSpace(s[|s| - 1]))
  }

  /** s[i..j] is all white space. */
  ghost predicate SpacesBetween(s: string, i: int, j: int) {
    0 <= i <= j <= |s| && forall k :: i <= k < j ==> IsSpace(s[k])
  }

  /** End of the run of white space that starts at `i`. */
  function SkipSpace(s: string, i: nat): (j: nat)
    requires i <= |s|
    ensures SpacesBetween(s, i, j)
    ensures j == |s| || !IsSpace(s[j])
    decreases |s| - i
  {
    if i < |s| && IsSpace(s[i]) then SkipSpace(s, i + 1) else i
  }

  /** Start of the run of white space that ends at `j`. */
  function SkipSpaceBack(s: string, j: nat): (i: nat)
    requires j <= |s|
    ensures SpacesBetween(s, i, j)
    ensures i == 0 || !IsSpace(s[i - 1])
  {
    if j > 0 && IsSpace(s[j - 1]) then SkipSpaceBack(s, j - 1) else j
  }

  /** A run of white space from `i` that stops at a non-space character, or
      at the end, is the one `SkipSpace` finds. */
  lemma SkipSpaceUnique(s: string, i: nat, j: nat)
    requires i <= |s| && SpacesBetween(s, i, j) && (j == |s| || !IsSpace(s[j]))
    ensures SkipSpace(s, i) == j
  {
    var m := SkipSpace(s, i);
  }

  /** The same, backwards. */
  lemma SkipSpaceBackUnique(s: string, j: nat, i: nat)
    requires j <= |s| && SpacesBetween(s, i, j) && (i == 0 || !IsSpace(s[i - 1]))
    ensures SkipSpaceBack(s, j) == i
  {
    var m := SkipSpaceBack(s, j);
  }

  /** `s` with its leading white space removed. */
  function TrimStart(s: string): string {
    s[SkipSpace(s, 0)..]
  }

  /** `s` with its trailing white space removed. */
  function TrimEnd(s: string): string {
    s[..SkipSpaceBack(s, |s|)]
  }

  /** JavaScript's `s.trim()`: the part of `s` between its leading and its
      trailing white space. */
  function Trim(s: string): (r: string)
    ensures IsTrimmed(r)
    ensures IsBlank(s) <==> r == []
  {
    var i := SkipSpace(s, 0);
    if i == |s| then []
    else
      var j := SkipSpaceBack(s, |s|);
      assert !IsBlank(s) by { assert !IsSpace(s[i]); }
      s[i..j]
  }

  /** Trimming strips exactly blank padding from a trimmed middle: the
      decomposition `w + m + w'` is the only one. */
  lemma TrimUnique(w: string, m: string, w': string)
    requires IsBlank(w) && IsTrimmed(m) && IsBlank(w')
    ensures Trim(w + m + w') == m
  {
    var s := w + m + w';
    if m == [] {
      assert IsBlank(s) by {
        assert forall k :: 0 <= k < |s| ==> s[k] == if k < |w| then w[k] else w'[k - |w|];
      }
    } else {
      var i, j := |w|, |w| + |m|;
      assert forall k :: 0 <= k < i ==> s[k] == w[k];
      assert forall k :: j <= k < |s| ==> s[k] == w'[k - j];
      assert s[i] == m[0] && s[j - 1] == m[|m| - 1];
      SkipSpaceUnique(s, 0, i);
      SkipSpaceBackUnique(s, |s|, j);
      assert s[i..j] == m;
    }
  }

  /** `s` is its blank head, its trimmed part and its blank tail. */
  lemma TrimDecompose(s: string) returns (w: string, w': string)
    ensures IsBlank(w) && IsBlank(w') && s == w + Trim(s) + w'
  {
    var i := SkipSpace(s, 0);
    if i == |s| {
      w, w' := s, [];
      BlankSlice(s, 0, |s|);
      assert s == s + [] + [];
    } else {
      var j := SkipSpaceBack(s, |s|);
      w, w' := s[..i], s[j..];
      BlankSlice(s, 0, i);
      BlankSlice(s, j, |s|);
      ThreeSlices(s, i, j);
    }
  }

  lemma BlankSlice(s: string, i: int, j: int)
    requires SpacesBetween(s, i, j)
    ensures IsBlank(s[i..j])
  {
    assert forall k :: 0 <= k < j - i ==> s[i..j][k] == s[i + k];
  }

  lemma ThreeSlices(s: string, i: int, j: int)
    requires 0 <= i <= j <= |s|
    ensures s == s[..i] + s[i..j] + s[j..]
  {
  }

  /** White space around a string does not change its trimmed form. */
  lemma TrimIgnoresPadding(w: string, s: string, w': string)
    requires IsBlank(w) && IsBlank(w')
    ensures Trim(w + s + w') == Trim(s)
  {
    var u, u' := TrimDecompose(s);
    Regroup(w, u, Trim(s), u', w');
    BlankAppend(w, u);
    BlankAppend(u', w');
    TrimUnique(w + u, Trim(s), u' + w');
  }

  lemma Regroup(w: string, u: string, t: string, u': string, w': string)
    ensures w + (u + t + u') + w' == (w + u) + t + (u' + w')
  {
  }

  lemma BlankAppend(a: string, b: string)
    requires IsBlank(a) && IsBlank(b)
    ensures IsBlank(a + b)
  {
    assert forall k :: 0 <= k < |a + b| ==> (a + b)[k] == if k < |a| then a[k] else b[k - |a|];
  }

  /** A string without white space at either end is its own trimmed form. */
  lemma TrimmedIsFixed(s: string)
    requires IsTrimmed(s)
    ensures Trim(s) == s
  {
    assert [] + s + [] == s;
    TrimUnique([], s, []);
  }

  /** Blank padding in front of a trimmed string is what trimming removes. */
  lemma TrimPadded(w: string, s: string)
    requires IsBlank(w) && IsTrimmed(s)
    ensures Trim(w + s) == s
  {
    assert w + s + [] == w + s;
    TrimUnique(w, s, []);
  }

  /** The leading white space of `a` and the rest. */
  lemma SplitLeading(a: string) returns (w: string)
    ensures IsBlank(w) && a == w + TrimStart(a)
    ensures TrimStart(a) == [] || !IsSpace(TrimStart(a)[0])
  {
    var i := SkipSpace(a, 0);
    w := a[..i];
    assert forall k :: 0 <= k < |w| ==> w[k] == a[k];
    assert a == a[..i] + a[i..];
  }

  /** The trailing white space of `b` and the rest. */
  lemma SplitTrailing(b: string) returns (w': string)
    ensures IsBlank(w') && b == TrimEnd(b) + w'
    ensures TrimEnd(b) == [] || !IsSpace(TrimEnd(b)[|TrimEnd(b)| - 1])
  {
    var j := SkipSpaceBack(b, |b|);
    w' := b[j..];
    assert forall k :: 0 <= k < |w'| ==> w'[k] == b[j + k];
    assert b == b[..j] + b[j..];
  }

  /** A character that is not white space, with no white space on its
      outer sides, makes a trimmed string. */
  lemma MarkIsTrimmed(x: string, c: char, y: string)
    requires !IsSpace(c)
    requires x == [] || !IsSpace(x[0])
    requires y == [] || !IsSpace(y[|y| - 1])
    ensures IsTrimmed(x + [c] + y)
  {
    var m := x + [c] + y;
    assert m[0] == if |x| > 0 then x[0] else c;
    assert m[|m| - 1] == if |y| > 0 then y[|y| - 1] else c;
  }

  /** Around a character that is not white space, trimming works on each
      side separately. */
  lemma TrimAroundMark(a: string, c: char, b: string)
    requires !IsSpace(c)
    ensures Trim(a + [c] + b) == TrimStart(a) + [c] + TrimEnd(b)
  {
    var w := SplitLeading(a);
    var w' := SplitTrailing(b);
    var x, y := TrimStart(a), TrimEnd(b);
    MarkIsTrimmed(x, c, y);
    assert a + [c] + b == w + (x + [c] + y) + w';
    TrimUnique(w, x + [c] + y, w');
  }

  /** Trimming adds no character. */
  lemma TrimKeepsOut(s: string, c: char)
    requires c !in s
    ensures c !in Trim(s)
  {
    var w, w' := TrimDecompose(s);
    var t := Trim(s);
    assert forall k :: 0 <= k < |t| ==> t[k] == s[|w| + k];
  }

  /** Trimming only removes white space: any other character survives. */
  lemma TrimKeepsMark(s: string, c: char)
    requires c in s && !IsSpace(c)
    ensures c in Trim(s)
  {
    var i :| 0 <= i < |s| && s[i] == c;
    assert s == s[..i] + [c] + s[i + 1..];
    TrimAroundMark(s[..i], c, s[i + 1..]);
    assert Trim(s)[|TrimStart(s[..i])|] == c;
  }

  /** Trimming what `TrimStart` left changes nothing more. */
  lemma TrimOfTrimStart(a: string)
    ensures Trim(TrimStart(a)) == Trim(a)
  {
    var i := SkipSpace(a, 0);
    assert a == a[..i] + TrimStart(a) + [];
    assert forall k :: 0 <= k < i ==> a[..i][k] == a[k];
    TrimIgnoresPadding(a[..i], TrimStart(a), []);
  }

  /** Trimming what `TrimEnd` left changes nothing more. */
  lemma TrimOfTrimEnd(b: string)
    ensures Trim(TrimEnd(b)) == Trim(b)
  {
    var j := SkipSpaceBack(b, |b|);
    assert b == [] + TrimEnd(b) + b[j..];
    assert forall k :: 0 <= k < |b| - j ==> b[j..][k] == b[j + k];
    TrimIgnoresPadding([], TrimEnd(b), b[j..]);
  }

  /** `TrimEnd` keeps a prefix, so it adds no character. */
  lemma TrimEndKeepsOut(b: string, c: char)
    requires c !in b
    ensures c !in TrimEnd(b)
  {
    var y := TrimEnd(b);
    assert forall k :: 0 <= k < |y| ==> y[k] == b[k];
  }

  /** `s.startsWith(p)`. */
  predicate StartsWith(s: string, p: string) {
    |p| <= |s| && s[..|p|] == p
  }

  /** `p` occurs in `s` starting at index `i`. */
  predicate OccursAt(s: string, p: string, i: nat) {
    i + |p| <= |s| && s[i..i + |p|] == p
  }

  /** `s.includes(p)`, searching from index `from` on. */
  function ContainsFrom(s: string, p: string, from: nat): (b: bool)
    requires from <= |s|
    ensures b <==> exists i :: from <= i && OccursAt(s, p, i)
    decreases |s| - from
  {
    if from + |p| > |s| then false
    else if s[from..from + |p|] == p then
      assert OccursAt(s, p, from);
      true
    else
      assert !OccursAt(s, p, from);
      ContainsFrom(s, p, from + 1)
  }

  /** `s.includes(p)`. */
  function Contains(s: string, p: string): (b: bool)
    ensures b <==> exists i :: OccursAt(s, p, i)
  {
    ContainsFrom(s, p, 0)
  }

  /** Index of the first `c` in `s` at or after `from`, if any. */
  function IndexOfFrom(s: string, c: char, from: nat): (r: Option<nat>)
    requires from <= |s|
    ensures r.Some? ==> from <= r.value < |s| && s[r.value] == c
    ensures r.Some? ==> forall k :: from <= k < r.value ==> s[k] != c
    ensures r.None? ==> forall k :: from <= k < |s| ==> s[k] != c
    decreases |s| - from
  {
    if from == |s| then None
    else if s[from] == c then Some(from)
    else IndexOfFrom(s, c, from + 1)
  }

  /** The last position before `to` holding `c`. */
  function LastIndexBefore(s: string, c: char, to: nat): (r: Option<nat>)
    requires to <= |s|
    ensures r.Some? ==> r.value < to && s[r.value] == c
    ensures r.Some? ==> forall k :: r.value < k < to ==> s[k] != c
    ensures r.None? ==> forall k :: 0 <= k < to ==> s[k] != c
  {
    if to == 0 then None
    else if s[to - 1] == c then Some(to - 1)
    else LastIndexBefore(s, c, to - 1)
  }

  /** `s.lastIndexOf(c)`, with JavaScript's -1 as `None`. */
  function LastIndexOf(s: string, c: char): (r: Option<nat>)
    ensures r.Some? ==> r.value < |s| && s[r.value] == c
    ensures r.Some? ==> forall k :: r.value < k < |s| ==> s[k] != c
    ensures r.None? <==> c !in s
  {
    LastIndexBefore(s, c, |s|)
  }

  /** The last `c` of `x + [c] + y`, when `y` has none, is the marked one. */
  lemma LastIndexOfMark(x: string, c: char, y: string)
    requires c !in y
    ensures LastIndexOf(x + [c] + y, c) == Some(|x|)
  {
    var t := x + [c] + y;
    assert t[|x|] == c;
    assert forall k :: |x| < k < |t| ==> t[k] == y[k - |x| - 1];
    var r := LastIndexOf(t, c);
  }

  /** Number of occurrences of `c` in `s`, the length of `s.match(/c/g) || []`. */
  function Count(s: string, c: char): (n: nat)
    ensures n <= |s|
    ensures n == 0 <==> c !in s
  {
    if |s| == 0 then 0
    else
      assert s == [s[0]] + s[1..];
      (if s[0] == c then 1 else 0) + Count(s[1..], c)
  }

  lemma {:induction false} CountAppend(a: string, b: string, c: char)
    ensures Count(a + b, c) == Count(a, c) + Count(b, c)
    decreases |a|
  {
    if |a| > 0 {
      assert (a + b)[1..] == a[1..] + b;
      CountAppend(a[1..], b, c);
    } else {
      assert a + b == b;
    }
  }

  /** `parts.join(sep)`. */
  function Join(parts: seq<string>, sep: string): (r: string)
    ensures |parts| == 1 ==> r == parts[0]
  {
    if |parts| == 0 then ""
    else if |parts| == 1 then parts[0]
    else parts[0] + sep + Join(parts[1..], sep)
  }

  /** Joining never brings in a character found in neither the parts nor
      the separator. */
  lemma {:induction false} JoinWithout(parts: seq<string>, sep: string, c: char)
    requires c !in sep && forall k :: 0 <= k < |parts| ==> c !in parts[k]
    ensures c !in Join(parts, sep)
    decreases |parts|
  {
    if |parts| > 1 {
      JoinWithout(parts[1..], sep, c);
    }
  }

  /** Joining one more part appends the separator and the part. */
  lemma {:induction false} JoinSnoc(parts: seq<string>, sep: string, last: string)
    requires |parts| >= 1
    ensures Join(parts + [last], sep) == Join(parts, sep) + sep + last
    decreases |parts|
  {
    if |parts| == 1 {
      assert (parts + [last])[1..] == [last];
    } else {
      assert (parts + [last])[1..] == parts[1..] + [last];
      JoinSnoc(parts[1..], sep, last);
    }
  }

  /** `s.split(c)` for a one-character separator: the maximal pieces of `s`
      that do not contain `c`, in order; the empty string gives `[""]`. */
  function Split(s: string, c: char): (r: seq<string>)
    ensures |r| >= 1
    ensures forall k :: 0 <= k < |r| ==> c !in r[k]
    decreases |s|
  {
    match IndexOfFrom(s, c, 0)
    case None => [s]
    case Some(i) =>
      assert c !in s[..i] by {
        assert forall k :: 0 <= k < i ==> s[..i][k] == s[k];
      }
      [s[..i]] + Split(s[i + 1..], c)
  }

  /** Joining the pieces with the separator gives the string back. */
  lemma {:induction false} JoinSplit(s: string, c: char)
    ensures Join(Split(s, c), [c]) == s
    decreases |s|
  {
    match IndexOfFrom(s, c, 0)
    case None =>
    case Some(i) =>
      JoinSplit(s[i + 1..], c);
      var rest := Split(s[i + 1..], c);
      assert Split(s, c) == [s[..i]] + rest;
      assert (Split(s, c))[1..] == rest;
      assert s == s[..i] + [c] + s[i + 1..];
  }

  /** Splitting a join of pieces free of the separator gives the pieces back. */
  lemma {:induction false} SplitJoin(parts: seq<string>, c: char)
    requires |parts| >= 1
    requires forall k :: 0 <= k < |parts| ==> c !in parts[k]
    ensures Split(Join(parts, [c]), c) == parts
    decreases |parts|
  {
    if |parts| == 1 {
      SplitWithout(parts[0], c);
    } else {
      var p, rest := parts[0], Join(parts[1..], [c]);
      assert Join(parts, [c]) == p + [c] + rest;
      SplitCons(p, c, rest);
      SplitJoin(parts[1..], c);
      assert parts == [p] + parts[1..];
    }
  }

  /** A piece free of the separator, followed by the separator, comes off
      the front of the split. */
  lemma SplitCons(p: string, c: char, rest: string)
    requires c !in p
    ensures Split(p + [c] + rest, c) == [p] + Split(rest, c)
  {
    var s := p + [c] + rest;
    assert s[|p|] == c;
    assert forall k :: 0 <= k < |p| ==> s[k] == p[k];
    assert IndexOfFrom(s, c, 0) == Some(|p|);
    assert s[..|p|] == p;
    assert s[|p| + 1..] == rest;
  }

  /** A string free of the separator is a single piece. */
  lemma SplitWithout(s: string, c: char)
    requires c !in s
    ensures Split(s, c) == [s]
  {
    assert IndexOfFrom(s, c, 0).None?;
  }

  /** Joining with `, ` and splitting at `,`: the first piece (with any
      padding `w` put in front) comes off, and the rest keep one leading
      space. */
  lemma SplitJoinedFront(w: string, parts: seq<string>)
    requires |parts| >= 2 && ',' !in w + parts[0]
    ensures Split(w + Join(parts, ", "), ',')
         == [w + parts[0]] + Split(" " + Join(parts[1..], ", "), ',')
  {
    var rest := Join(parts[1..], ", ");
    assert w + Join(parts, ", ") == (w + parts[0]) + [','] + (" " + rest);
    SplitCons(w + parts[0], ',', " " + rest);
  }

  /** The number of pieces is one more than the number of separators. */
  lemma {:induction false} SplitCount(s: string, c: char)
    ensures |Split(s, c)| == Count(s, c) + 1
    decreases |s|
  {
    match IndexOfFrom(s, c, 0)
    case None =>
      assert c !in s by {
        assert forall k :: 0 <= k < |s| ==> s[k] != c;
      }
    case Some(i) =>
      var pre, post := s[..i], s[i + 1..];
      assert c !in pre by {
        assert forall k :: 0 <= k < i ==> pre[k] == s[k];
      }
      assert s == pre + [c] + post;
      SplitCons(pre, c, post);
      CountAroundMark(pre, c, post);
      SplitCount(post, c);
  }

  /** One occurrence more than the part after the first one. */
  lemma CountAroundMark(pre: string, c: char, post: string)
    requires c !in pre
    ensures Count(pre + [c] + post, c) == Count(post, c) + 1
  {
    assert pre + [c] + post == pre + ([c] + post);
    CountAppend(pre, [c] + post, c);
    CountAppend([c], post, c);
    assert Count([c], c) == 1;
  }

  /** The total number of occurrences of `x` over a list of strings. */
  function SumCount(parts: seq<string>, x: char): nat {
    if |parts| == 0 then 0 else Count(parts[0], x) + SumCount(parts[1..], x)
  }

  /** Joining never adds occurrences of a character other than the separator. */
  lemma {:induction false} CountJoin(parts: seq<string>, c: char, x: char)
    requires x != c
    ensures Count(Join(parts, [c]), x) == SumCount(parts, x)
    decreases |parts|
  {
    if |parts| == 1 {
      assert SumCount(parts[1..], x) == 0;
    } else if |parts| > 1 {
      CountJoin(parts[1..], c, x);
      var rest := Join(parts[1..], [c]);
      CountAppend(parts[0] + [c], rest, x);
      CountAppend(parts[0], [c], x);
      assert Count([c], x) == 0;
    }
  }

  /** The occurrences of `x` in `s` are exactly those in the pieces of
      `s.split(c)`, for any other character `c`. */
  lemma CountOverSplit(s: string, c: char, x: char)
    requires x != c
    ensures SumCount(Split(s, c), x) == Count(s, x)
  {
    JoinSplit(s, c);
    CountJoin(Split(s, c), c, x);
  }

  /** `c.toLowerCase()` on ASCII letters; every other character is kept. */
  function LowerChar(c: char): char {
    if 'A' <= c <= 'Z' then (c as int + 32) as char else c
  }

  /** `s.toLowerCase()` / `str::to_lowercase`, restricted to ASCII letters. */
  function Lower(s: string): (r: string)
    ensures |r| == |s|
    ensures forall k :: 0 <= k < |s| ==> r[k] == LowerChar(s[k])
  {
    seq(|s|, k requires 0 <= k < |s| => LowerChar(s[k]))
  }

  /** Lowering twice is lowering once. */
  lemma LowerIdempotent(s: string)
    ensures Lower(Lower(s)) == Lower(s)
  {
    forall k | 0 <= k < |s| ensures LowerChar(LowerChar(s[k])) == LowerChar(s[k]) {
    }
  }

  predicate IsDigit(c: char) {
    '0' <= c <= '9'
  }

  function DigitChar(d: nat): (c: char)
    requires d < 10
    ensures IsDigit(c)
  {
    ('0' as int + d) as char
  }

  /** The decimal rendering of `n` (JavaScript template `${n}`, Rust `{}`):
      digits only, and no leading zero except for `0` itself. */
  function NatToString(n: nat): (r: string)
    ensures |r| >= 1
    ensures forall k :: 0 <= k < |r| ==> IsDigit(r[k])
    ensures r[0] == '0' ==> n == 0
  {
    if n < 10 then [DigitChar(n)] else NatToString(n / 10) + [DigitChar(n % 10)]
  }

  /** The value of a string of decimal digits. */
  function DecimalValue(s: string): nat
    requires forall k :: 0 <= k < |s| ==> IsDigit(s[k])
  {
    if |s| == 0 then 0
    else
      assert IsDigit(s[|s| - 1]);
      10 * DecimalValue(s[..|s| - 1]) + (s[|s| - 1] as int - '0' as int)
  }

  /** Reading the decimal rendering back gives the number. */
  lemma {:induction false} DecimalRoundTrip(n: nat)
    ensures DecimalValue(NatToString(n)) == n
  {
    if n >= 10 {
      var r := NatToString(n);
      assert r[..|r| - 1] == NatToString(n / 10);
      DecimalRoundTrip(n / 10);
    }
  }

  /** Distinct numbers render differently. */
  lemma NatToStringInjective(m: nat, n: nat)
    requires NatToString(m) == NatToString(n)
    ensures m == n
  {
    DecimalRoundTrip(m);
    DecimalRoundTrip(n);
  }
}
