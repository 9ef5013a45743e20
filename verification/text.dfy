/**
 ASCII models of the Python `str` operations the build and release scripts
 rely on: `lower`, `capitalize`, `isalnum`, `isspace`, `strip`, `split(sep)`,
 `sep.join(parts)` and `replace(old, new)`, plus `Count`, which counts
 occurrences of a character for the underscore count stated about
 `RScript.SanitizeVariableName`.
 Characters outside ASCII are left unchanged by case mapping and are neither
 alphanumeric nor whitespace.
 */
module Text {

  predicate IsUpper(c: char) { 'A' <= c <= 'Z' }

  predicate IsLower(c: char) { 'a' <= c <= 'z' }

  predicate IsDigit(c: char) { '0' <= c <= '9' }

  /** `c.isalnum()` for an ASCII character. */
  predicate IsAlnum(c: char) { IsUpper(c) || IsLower(c) || IsDigit(c) }

  /** `c.isspace()` for an ASCII character: tab, line feed, vertical tab,
      form feed, carriage return, the separators U+001C..U+001F, and space. */
  predicate IsSpace(c: char) {
    c == ' ' || ('\t' <= c <= '\r') || ('\U{1C}' <= c <= '\U{1F}')
  }

  predicate AllSpace(s: string) {
    forall k :: 0 <= k < |s| ==> IsSpace(s[k])
  }

  function LowerChar(c: char): (r: char)
    ensures !IsUpper(r)
    ensures IsAlnum(r) <==> IsAlnum(c)
    ensures IsSpace(r) <==> IsSpace(c)
    ensures !IsUpper(c) ==> r == c
  {
    if IsUpper(c) then (c as int + 32) as char else c
  }

  function UpperChar(c: char): (r: char)
    ensures !IsLower(r)
    ensures IsAlnum(r) <==> IsAlnum(c)
    ensures LowerChar(r) == LowerChar(c)
    ensures !IsLower(c) ==> r == c
  {
    if IsLower(c) then (c as int - 32) as char else c
  }

  /** `s.lower()`. */
  function Lower(s: string): (r: string)
    ensures |r| == |s|
    ensures forall i :: 0 <= i < |s| ==> r[i] == LowerChar(s[i])
  {
    seq(|s|, i requires 0 <= i < |s| => LowerChar(s[i]))
  }

  /** `s.capitalize()`: the first character upper-cased, every other one lower-cased. */
  function Capitalize(s: string): (r: string)
    ensures |r| == |s|
    ensures |s| > 0 ==> r[0] == UpperChar(s[0])
    ensures forall i :: 0 < i < |s| ==> r[i] == LowerChar(s[i])
  {
    if |s| == 0 then "" else [UpperChar(s[0])] + Lower(s[1..])
  }

  /** Capitalizing changes letter case only: both sides agree once lower-cased. */
  lemma CapitalizeKeepsLetters(s: string)
    ensures Lower(Capitalize(s)) == Lower(s)
  {
  }

  /** Capitalizing a capitalized text changes nothing. */
  lemma CapitalizeIdempotent(s: string)
    ensures Capitalize(Capitalize(s)) == Capitalize(s)
  {
    var c := Capitalize(s);
    var cc := Capitalize(c);
    forall i | 0 <= i < |s|
      ensures cc[i] == c[i]
    {
      if i == 0 {
        assert UpperChar(UpperChar(s[0])) == UpperChar(s[0]);
      } else {
        assert LowerChar(LowerChar(s[i])) == LowerChar(s[i]);
      }
    }
  }

  // ---------------------------------------------------------------- strip

  /** The first index at or after `i` whose character is not whitespace. */
  function SkipSpaces(s: string, i: nat): (j: nat)
    requires i <= |s|
    ensures i <= j <= |s|
    ensures forall k :: i <= k < j ==> IsSpace(s[k])
    ensures j < |s| ==> !IsSpace(s[j])
    decreases |s| - i
  {
    if i == |s| || !IsSpace(s[i]) then i else SkipSpaces(s, i + 1)
  }

  /** The least index `i <= j` such that `s[i..j]` is all whitespace. */
  function SkipSpacesBack(s: string, j: nat): (i: nat)
    requires j <= |s|
    ensures i <= j
    ensures forall k :: i <= k < j ==> IsSpace(s[k])
    ensures 0 < i ==> !IsSpace(s[i - 1])
    decreases j
  {
    if j == 0 || !IsSpace(s[j - 1]) then j else SkipSpacesBack(s, j - 1)
  }

  /** `s.strip()`: the slice of `s` left after removing leading and trailing whitespace. */
  function Strip(s: string): (r: string)
    ensures exists lo, hi :: 0 <= lo <= hi <= |s| && r == s[lo..hi] && AllSpace(s[..lo]) && AllSpace(s[hi..])
    ensures r != [] ==> !IsSpace(r[0]) && !IsSpace(r[|r| - 1])
  {
    var hi := SkipSpacesBack(s, |s|);
    var lo := SkipSpaces(s[..hi], 0);
    assert AllSpace(s[..lo]) by {
      forall k | 0 <= k < lo ensures IsSpace(s[..lo][k]) {
        assert s[..lo][k] == s[..hi][k];
      }
    }
    assert AllSpace(s[hi..]) by {
      forall k | 0 <= k < |s| - hi ensures IsSpace(s[hi..][k]) {
        assert s[hi..][k] == s[hi + k];
      }
    }
    s[lo..hi]
  }

  lemma SkipSpacesStops(s: string, i: nat, m: nat)
    requires i <= m <= |s|
    requires forall k :: i <= k < m ==> IsSpace(s[k])
    requires m < |s| ==> !IsSpace(s[m])
    ensures SkipSpaces(s, i) == m
  {
  }

  lemma SkipSpacesBackStops(s: string, j: nat, m: nat)
    requires m <= j <= |s|
    requires forall k :: m <= k < j ==> IsSpace(s[k])
    requires 0 < m ==> !IsSpace(s[m - 1])
    ensures SkipSpacesBack(s, j) == m
  {
  }

  /** Strip removes exactly the whitespace around a text that has none at its ends. */
  lemma StripSurrounded(pre: string, v: string, post: string)
    requires AllSpace(pre) && AllSpace(post)
    requires v != [] ==> !IsSpace(v[0]) && !IsSpace(v[|v| - 1])
    ensures Strip(pre + v + post) == v
  {
    var s := pre + v + post;
    var m := |pre| + |v|;
    forall k | m <= k < |s| ensures IsSpace(s[k]) {
      assert s[k] == post[k - m];
    }
    if v == [] {
      forall k | 0 <= k < |s| ensures IsSpace(s[k]) {
        if k < |pre| { assert s[k] == pre[k]; } else { assert s[k] == post[k - m]; }
      }
      SkipSpacesBackStops(s, |s|, 0);
    } else {
      assert s[m - 1] == v[|v| - 1];
      SkipSpacesBackStops(s, |s|, m);
      var t := s[..m];
      forall k | 0 <= k < |pre| ensures IsSpace(t[k]) {
        assert t[k] == pre[k];
      }
      assert t[|pre|] == v[0];
      SkipSpacesStops(t, 0, |pre|);
      assert s[|pre|..m] == v;
    }
  }

  /** The case without leading whitespace: trailing whitespace strips away. */
  lemma StripTrailing(v: string, post: string)
    requires AllSpace(post)
    requires v != [] ==> !IsSpace(v[0]) && !IsSpace(v[|v| - 1])
    ensures Strip(v + post) == v
  {
    assert "" + v + post == v + post;
    StripSurrounded("", v, post);
  }

  // ------------------------------------------------------------ join, split

  /** The number of characters in all of `parts` together. */
  function TotalLength(parts: seq<string>): nat {
    if |parts| == 0 then 0 else |parts[0]| + TotalLength(parts[1..])
  }

  /** `sep.join(parts)`: every part, with one separator between each two
      neighbours and none before the first or after the last. */
  function Join(parts: seq<string>, sep: string): string
  {
    if |parts| == 0 then ""
    else if |parts| == 1 then parts[0]
    else parts[0] + sep + Join(parts[1..], sep)
  }

  /** A join of n parts holds all their characters and n - 1 separators, and
      nothing else; joining no parts gives the empty text. */
  lemma {:induction false} JoinLength(parts: seq<string>, sep: string)
    ensures parts == [] ==> Join(parts, sep) == ""
    ensures parts != [] ==> |Join(parts, sep)| == TotalLength(parts) + (|parts| - 1) * |sep|
  {
    if |parts| > 1 {
      JoinLength(parts[1..], sep);
    }
  }

  lemma JoinConsHead(c: char, x: string, tail: seq<string>, sep: string)
    ensures Join([[c] + x] + tail, sep) == [c] + Join([x] + tail, sep)
  {
    if |tail| > 0 {
      assert ([[c] + x] + tail)[1..] == tail;
      assert ([x] + tail)[1..] == tail;
    }
  }

  lemma JoinConsEmpty(tail: seq<string>, sep: string)
    requires tail != []
    ensures Join([""] + tail, sep) == sep + Join(tail, sep)
  {
    assert ([""] + tail)[1..] == tail;
  }

  /** Joining one more part adds the separator and that part at the end. */
  lemma {:induction false} JoinSnoc(parts: seq<string>, x: string, sep: string)
    requires parts != []
    ensures Join(parts + [x], sep) == Join(parts, sep) + sep + x
  {
    if |parts| == 1 {
      assert (parts + [x])[1..] == [x];
    } else {
      assert (parts + [x])[1..] == parts[1..] + [x];
      JoinSnoc(parts[1..], x, sep);
    }
  }

  /** Lines that end with a blank one, after a non-empty line without `c`,
      join on `c` into a text that ends with exactly one `c`. */
  lemma JoinEndsOnce(lines: seq<string>, c: char)
    requires |lines| >= 3 && lines[|lines| - 1] == ""
    requires lines[|lines| - 2] != [] && c !in lines[|lines| - 2]
    ensures var t := Join(lines, [c]); |t| >= 2 && t[|t| - 1] == c && t[|t| - 2] != c
  {
    var front, last := lines[..|lines| - 2], lines[|lines| - 2];
    assert lines == front + [last] + [""];
    JoinSnoc(front + [last], "", [c]);
    JoinSnoc(front, last, [c]);
  }

  /** `pat` occurs somewhere in `s`. */
  ghost predicate Occurs(s: string, pat: string) {
    exists k :: OccursAt(s, pat, k)
  }

  /** `pat` occurs in `s` starting at index `k`. */
  predicate OccursAt(s: string, pat: string, k: int) {
    0 <= k && k + |pat| <= |s| && s[k..k + |pat|] == pat
  }

  lemma OccursOneChar(s: string, c: char)
    ensures Occurs(s, [c]) <==> c in s
  {
    if c in s {
      var k :| 0 <= k < |s| && s[k] == c;
      assert s[k..k + 1] == [c];
      assert OccursAt(s, [c], k);
    }
    if Occurs(s, [c]) {
      var k :| OccursAt(s, [c], k);
      assert s[k] == s[k..k + 1][0] == c;
    }
  }

  /** `s.split(sep)`: scanning left to right, every non-overlapping occurrence
      of `sep` ends one part; the parts joined with `sep` give `s` back. */
  function Split(s: string, sep: string): (parts: seq<string>)
    requires sep != []
    ensures parts != []
    ensures Join(parts, sep) == s
    ensures forall i :: 0 <= i < |parts| ==> !Occurs(parts[i], sep)
    decreases |s|
  {
    if |s| < |sep| then
      TooShortToOccur(s, sep);
      [s]
    else if s[..|sep|] == sep then
      var rest := Split(s[|sep|..], sep);
      JoinConsEmpty(rest, sep);
      TooShortToOccur("", sep);
      [""] + rest
    else
      var rest := Split(s[1..], sep);
      JoinConsHead(s[0], rest[0], rest[1..], sep);
      assert [rest[0]] + rest[1..] == rest;
      JoinHeadPrefix(rest, sep);
      NoOccurrenceCons(s, sep, rest[0]);
      [[s[0]] + rest[0]] + rest[1..]
  }

  /** A text shorter than the pattern does not hold it. */
  lemma TooShortToOccur(s: string, pat: string)
    requires |s| < |pat|
    ensures !Occurs(s, pat)
  {
  }

  /** The first part of a join begins the joined text. */
  lemma JoinHeadPrefix(parts: seq<string>, sep: string)
    requires parts != []
    ensures parts[0] <= Join(parts, sep)
  {
  }

  /** Where the pattern does not start at the head of `s`, putting `s`'s first
      character back in front of a pattern-free prefix of the rest keeps it
      pattern-free. */
  lemma NoOccurrenceCons(s: string, pat: string, x: string)
    requires |pat| <= |s| && s[..|pat|] != pat
    requires x <= s[1..]
    requires !Occurs(x, pat)
    ensures !Occurs([s[0]] + x, pat)
  {
    var y := [s[0]] + x;
    forall k ensures !OccursAt(y, pat, k) {
      if k == 0 && |pat| <= |y| {
        assert y[..|pat|] == s[..|pat|];
      } else if 0 < k && k + |pat| <= |y| {
        assert y[k..k + |pat|] == x[k - 1..k - 1 + |pat|];
        assert !OccursAt(x, pat, k - 1);
      }
    }
  }

  /** A text without the separator splits into itself alone. */
  lemma {:induction false} SplitWithout(s: string, sep: string)
    requires sep != []
    requires !Occurs(s, sep)
    ensures Split(s, sep) == [s]
    decreases |s|
  {
    if |s| < |sep| {
    } else if s[..|sep|] == sep {
      assert OccursAt(s, sep, 0);
      assert false;
    } else {
      forall k | OccursAt(s[1..], sep, k) ensures OccursAt(s, sep, k + 1) {
        assert s[k + 1..k + 1 + |sep|] == s[1..][k..k + |sep|];
      }
      SplitWithout(s[1..], sep);
      assert [s[0]] + s[1..] == s;
    }
  }

  /** A text holding a one-character separator splits into at least two parts. */
  lemma {:induction false} SplitWith(s: string, c: char)
    requires c in s
    ensures |Split(s, [c])| >= 2
    decreases |s|
  {
    if s[..1] != [c] {
      assert s[0] != c;
      assert c in s[1..] by {
        var k :| 0 <= k < |s| && s[k] == c;
        assert s[1..][k - 1] == c;
      }
      SplitWith(s[1..], c);
    }
  }

  /** Splitting at the first one-character separator peels off the text before it. */
  lemma {:induction false} SplitAfter(a: string, c: char, t: string)
    requires c !in a
    ensures Split(a + [c] + t, [c]) == [a] + Split(t, [c])
    decreases |a|
  {
    var s := a + [c] + t;
    if |a| == 0 {
      assert s == [c] + t;
      assert s[..1] == [c];
      assert s[1..] == t;
    } else {
      assert s[0] == a[0];
      assert s[..1] != [c];
      assert s[1..] == a[1..] + [c] + t;
      SplitAfter(a[1..], c, t);
      assert [a[0]] + a[1..] == a;
    }
  }

  /** Split undoes Join for a one-character separator that occurs in no part. */
  lemma {:induction false} SplitJoin(parts: seq<string>, c: char)
    requires parts != []
    requires forall i :: 0 <= i < |parts| ==> c !in parts[i]
    ensures Split(Join(parts, [c]), [c]) == parts
  {
    if |parts| == 1 {
      OccursOneChar(parts[0], c);
      SplitWithout(parts[0], [c]);
    } else {
      SplitJoin(parts[1..], c);
      SplitAfter(parts[0], c, Join(parts[1..], [c]));
      assert [parts[0]] + parts[1..] == parts;
    }
  }

  /** A one-character separator splits a text into two or more parts exactly
      when the text holds it. */
  lemma SplitOneCharCount(s: string, c: char)
    ensures |Split(s, [c])| >= 2 <==> c in s
  {
    if c in s {
      SplitWith(s, c);
    } else {
      OccursOneChar(s, c);
      SplitWithout(s, [c]);
    }
  }

  /** No part of a split holds the one-character separator. */
  lemma {:induction false} SplitPartsFree(s: string, c: char)
    ensures forall i :: 0 <= i < |Split(s, [c])| ==> c !in Split(s, [c])[i]
    decreases |s|
  {
    if |s| >= 1 {
      SplitPartsFree(s[1..], c);
      var rest := Split(s[1..], [c]);
      var parts := Split(s, [c]);
      if s[..1] != [c] {
        assert s[0] != c;
        assert parts == [[s[0]] + rest[0]] + rest[1..];
        forall i | 0 <= i < |parts| ensures c !in parts[i] {
          if i > 0 {
            assert parts[i] == rest[i];
          }
        }
      }
    }
  }

  // ---------------------------------------------------------------- replace

  /** `s.replace(pat, rep)`: a left-to-right scan that rewrites every
      non-overlapping occurrence of `pat`. It equals `rep.join(s.split(pat))`. */
  function Replace(s: string, pat: string, rep: string): (r: string)
    requires pat != []
    ensures r == Join(Split(s, pat), rep)
    decreases |s|
  {
    if |s| < |pat| then s
    else if s[..|pat|] == pat then
      var r := Replace(s[|pat|..], pat, rep);
      JoinConsEmpty(Split(s[|pat|..], pat), rep);
      rep + r
    else
      var r := Replace(s[1..], pat, rep);
      var rest := Split(s[1..], pat);
      JoinConsHead(s[0], rest[0], rest[1..], rep);
      assert [rest[0]] + rest[1..] == rest;
      [s[0]] + r
  }

  /** Text without the pattern comes back unchanged, and replacing a
      pattern by itself changes nothing. */
  lemma ReplaceUnchanged(s: string, pat: string, rep: string)
    requires pat != []
    ensures !Occurs(s, pat) ==> Replace(s, pat, rep) == s
    ensures Replace(s, pat, pat) == s
  {
    if !Occurs(s, pat) {
      SplitWithout(s, pat);
    }
  }

  /** When `pat` first occurs right after `a`, replacing rewrites that
      occurrence and leaves `a` as it is. */
  lemma {:induction false} ReplaceAfter(a: string, pat: string, t: string, rep: string)
    requires pat != []
    requires forall k :: 0 <= k < |a| ==> !OccursAt(a + pat, pat, k)
    ensures Replace(a + pat + t, pat, rep) == a + rep + Replace(t, pat, rep)
    decreases |a|
  {
    var s := a + pat + t;
    if |a| == 0 {
      assert s == pat + t;
      ReplaceHit(s, pat, rep);
      assert s[|pat|..] == t;
    } else {
      NoEarlyOccurrenceShift(a, pat);
      ReplaceAfter(a[1..], pat, t, rep);
      FirstMiss(a, pat, t);
      ReplaceMiss(s, pat, rep);
      var tail := Replace(t, pat, rep);
      ConcatTail(a, pat, t);
      ConsAppend(a, rep, tail);
    }
  }

  lemma ConcatTail(a: string, b: string, c: string)
    requires a != []
    ensures (a + b + c)[0] == a[0] && (a + b + c)[1..] == a[1..] + b + c
  {
  }

  lemma ConsAppend(a: string, b: string, c: string)
    requires a != []
    ensures [a[0]] + (a[1..] + b + c) == a + b + c
  {
    assert [a[0]] + a[1..] == a;
  }

  lemma FirstMiss(a: string, pat: string, t: string)
    requires a != [] && pat != []
    requires !OccursAt(a + pat, pat, 0)
    ensures |pat| <= |a + pat + t| && (a + pat + t)[..|pat|] != pat
  {
    assert (a + pat + t)[..|pat|] == (a + pat)[0..|pat|];
  }

  lemma ReplaceHit(s: string, pat: string, rep: string)
    requires pat != [] && |pat| <= |s| && s[..|pat|] == pat
    ensures Replace(s, pat, rep) == rep + Replace(s[|pat|..], pat, rep)
  {
  }

  lemma ReplaceMiss(s: string, pat: string, rep: string)
    requires pat != [] && |pat| <= |s| && s[..|pat|] != pat
    ensures Replace(s, pat, rep) == [s[0]] + Replace(s[1..], pat, rep)
  {
  }

  lemma NoEarlyOccurrenceShift(a: string, pat: string)
    requires a != []
    requires forall k :: 0 <= k < |a| ==> !OccursAt(a + pat, pat, k)
    ensures forall k :: 0 <= k < |a[1..]| ==> !OccursAt(a[1..] + pat, pat, k)
  {
    assert a[1..] + pat == (a + pat)[1..];
    forall k | 0 <= k < |a[1..]| ensures !OccursAt(a[1..] + pat, pat, k) {
      assert !OccursAt(a + pat, pat, k + 1);
      if k + |pat| <= |a[1..] + pat| {
        assert (a[1..] + pat)[k..k + |pat|] == (a + pat)[k + 1..k + 1 + |pat|];
      }
    }
  }

  /** Replacing one character by another maps the text character by character. */
  lemma {:induction false} ReplaceOneChar(s: string, a: char, b: char)
    ensures |Replace(s, [a], [b])| == |s|
    ensures forall i :: 0 <= i < |s| ==> Replace(s, [a], [b])[i] == if s[i] == a then b else s[i]
    decreases |s|
  {
    if |s| >= 1 {
      ReplaceOneChar(s[1..], a, b);
    }
  }

  // ---------------------------------------------------------------- count

  /** `s.count(c)` for one character. */
  function Count(c: char, s: string): nat
  {
    if |s| == 0 then 0 else (if s[0] == c then 1 else 0) + Count(c, s[1..])
  }

  lemma {:induction false} CountConcat(c: char, a: string, b: string)
    ensures Count(c, a + b) == Count(c, a) + Count(c, b)
  {
    if |a| > 0 {
      assert (a + b)[0] == a[0];
      assert (a + b)[1..] == a[1..] + b;
      CountConcat(c, a[1..], b);
    } else {
      assert a + b == b;
    }
  }

  // ------------------------------------------------------------ sequences

  /** The concatenation of `f(x)` over `xs`, in order. */
  function ConcatMap<T, U>(xs: seq<T>, f: T -> seq<U>): seq<U>
  {
    if |xs| == 0 then [] else f(xs[0]) + ConcatMap(xs[1..], f)
  }

  lemma {:induction false} ConcatMapAppend<T, U>(a: seq<T>, b: seq<T>, f: T -> seq<U>)
    ensures ConcatMap(a + b, f) == ConcatMap(a, f) + ConcatMap(b, f)
  {
    if |a| > 0 {
      assert (a + b)[0] == a[0];
      assert (a + b)[1..] == a[1..] + b;
      ConcatMapAppend(a[1..], b, f);
    } else {
      assert a + b == b;
    }
  }

  lemma ConcatMapOne<T, U>(x: T, f: T -> seq<U>)
    ensures ConcatMap([x], f) == f(x)
  {
    assert [x][1..] == [];
  }

  lemma ConcatMapSnoc<T, U>(a: seq<T>, x: T, f: T -> seq<U>)
    ensures ConcatMap(a + [x], f) == ConcatMap(a, f) + f(x)
  {
    ConcatMapAppend(a, [x], f);
    ConcatMapOne(x, f);
  }

  /** The last two elements of a concatenation come from its second part. */
  lemma LastTwoOfConcat<T>(a: seq<T>, b: seq<T>)
    requires |b| >= 2
    ensures (a + b)[|a + b| - 1] == b[|b| - 1] && (a + b)[|a + b| - 2] == b[|b| - 2]
  {
  }

  /** The image of one more element of `xs` extends the image of the prefix. */
  lemma ConcatMapPrefixStep<T, U>(xs: seq<T>, i: nat, f: T -> seq<U>)
    requires i < |xs|
    ensures ConcatMap(xs[..i + 1], f) == ConcatMap(xs[..i], f) + f(xs[i])
  {
    ConcatMapSnoc(xs[..i], xs[i], f);
    assert xs[..i + 1] == xs[..i] + [xs[i]];
  }

  /** Concatenation regroups: appending `c` after `b` extends `a + b`. */
  lemma AppendAssoc<T>(a: seq<T>, b: seq<T>, c: seq<T>)
    ensures a + (b + c) == a + b + c
  {
  }

  /** No element of `lines` contains character `c`. */
  predicate FreeOf(lines: seq<string>, c: char) {
    forall i :: 0 <= i < |lines| ==> c !in lines[i]
  }

  lemma FreeOfAppend(a: seq<string>, b: seq<string>, c: char)
    requires FreeOf(a, c) && FreeOf(b, c)
    ensures FreeOf(a + b, c)
  {
    forall i | 0 <= i < |a + b| ensures c !in (a + b)[i] {
      if i >= |a| { assert (a + b)[i] == b[i - |a|]; }
    }
  }

  lemma {:induction false} FreeOfConcatMap<T>(xs: seq<T>, f: T -> seq<string>, c: char)
    requires forall i :: 0 <= i < |xs| ==> FreeOf(f(xs[i]), c)
    ensures FreeOf(ConcatMap(xs, f), c)
  {
    if |xs| > 0 {
      FreeOfConcatMap(xs[1..], f, c);
      FreeOfAppend(f(xs[0]), ConcatMap(xs[1..], f), c);
    }
  }

  /** A line list without line feeds, written out with `"\n".join(lines)`
      and split again at line feeds, gives the same list back. */
  lemma JoinedLinesSplit(lines: seq<string>)
    requires lines != []
    requires FreeOf(lines, '\n')
    ensures Split(Join(lines, "\n"), "\n") == lines
  {
    SplitJoin(lines, '\n');
  }

  /** The same, for a text that ends with one more line feed: splitting
      yields the lines and a final empty part. */
  lemma TerminatedLinesSplit(lines: seq<string>)
    requires lines != []
    requires FreeOf(lines, '\n')
    ensures Split(Join(lines, "\n") + "\n", "\n") == lines + [""]
  {
    JoinSnoc(lines, "", "\n");
    assert Join(lines, "\n") + "\n" + "" == Join(lines, "\n") + "\n";
    FreeOfAppend(lines, [""], '\n');
    SplitJoin(lines + [""], '\n');
  }
}
