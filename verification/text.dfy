/**
 The string operations the pages rely on, restricted to ASCII:
 `toLowerCase` / `toUpperCase`, `includes`, `trim`, `split(',')` and the
 digit strip `replace(/\D/g, '')`.

 JavaScript's case mapping and `trim` also act on non-ASCII characters; here
 only the ASCII letters are mapped and only the ASCII whitespace characters
 (space, tab, line feed, vertical tab, form feed, carriage return) are
 trimmed. The digit class `\d` of a JavaScript regular expression without the
 `u` flag is exactly `0`-`9`, so the digit strip is modelled exactly.
 */
module Text {

  import opened Seqs

  // ---------------------------------------------------------------------
  // Characters
  // ---------------------------------------------------------------------

  predicate IsUpper(c: char) { 'A' <= c <= 'Z' }

  predicate IsLower(c: char) { 'a' <= c <= 'z' }

  predicate IsDigit(c: char) { '0' <= c <= '9' }

  /** The ASCII whitespace characters `trim` removes. */
  predicate IsSpace(c: char) { c == ' ' || 9 <= c as int <= 13 }

  /** `toLowerCase` on one character: only `A`-`Z` change. */
  function LowerChar(c: char): (r: char)
    ensures IsUpper(c) ==> IsLower(r) && r as int == c as int + 32
    ensures !IsUpper(c) ==> r == c
    ensures !IsUpper(r)
  {
    if IsUpper(c) then (c as int + 32) as char else c
  }

  /** `toUpperCase` on one character: only `a`-`z` change. */
  function UpperChar(c: char): (r: char)
    ensures IsLower(c) ==> IsUpper(r) && r as int == c as int - 32
    ensures !IsLower(c) ==> r == c
    ensures !IsLower(r)
  {
    if IsLower(c) then (c as int - 32) as char else c
  }

  /** Upper-casing a character does not change its lower-case form. */
  lemma LowerOfUpperChar(c: char)
    ensures LowerChar(UpperChar(c)) == LowerChar(c)
  {
  }

  // ---------------------------------------------------------------------
  // Case mapping of strings
  // ---------------------------------------------------------------------

  /** `s.toLowerCase()` */
  function Lower(s: string): (r: string)
    ensures |r| == |s|
    ensures forall i :: 0 <= i < |s| ==> r[i] == LowerChar(s[i])
  {
    if |s| == 0 then [] else [LowerChar(s[0])] + Lower(s[1..])
  }

  /** `s.toUpperCase()` */
  function Upper(s: string): (r: string)
    ensures |r| == |s|
    ensures forall i :: 0 <= i < |s| ==> r[i] == UpperChar(s[i])
  {
    if |s| == 0 then [] else [UpperChar(s[0])] + Upper(s[1..])
  }

  /** Two strings that differ only in the case of ASCII letters. */
  ghost predicate EqualIgnoringCase(a: string, b: string)
  {
    |a| == |b| && forall i :: 0 <= i < |a| ==> LowerChar(a[i]) == LowerChar(b[i])
  }

  /** Strings equal up to case have the same lower-case form. */
  lemma LowerIgnoresCase(a: string, b: string)
    requires EqualIgnoringCase(a, b)
    ensures Lower(a) == Lower(b)
  {
  }

  /** A string and its upper-case form are equal up to case. */
  lemma UpperEqualIgnoringCase(s: string)
    ensures EqualIgnoringCase(Upper(s), s)
  {
    forall i | 0 <= i < |s|
      ensures LowerChar(Upper(s)[i]) == LowerChar(s[i])
    {
      LowerOfUpperChar(s[i]);
    }
  }

  // ---------------------------------------------------------------------
  // Substring search: `hay.includes(needle)`
  // ---------------------------------------------------------------------

  /** `needle` occurs in `hay` starting at index `i`. */
  ghost predicate OccursAt(needle: string, hay: string, i: int)
  {
    0 <= i && i + |needle| <= |hay| && hay[i..i + |needle|] == needle
  }

  lemma OccursShift(needle: string, hay: string)
    requires |hay| > 0
    ensures forall i :: OccursAt(needle, hay[1..], i) ==> OccursAt(needle, hay, i + 1)
    ensures forall j :: OccursAt(needle, hay, j) && j > 0 ==> OccursAt(needle, hay[1..], j - 1)
  {
    forall i | OccursAt(needle, hay[1..], i)
      ensures OccursAt(needle, hay, i + 1)
    {
      assert hay[1..][i..i + |needle|] == hay[i + 1..i + 1 + |needle|];
    }
    forall j | OccursAt(needle, hay, j) && j > 0
      ensures OccursAt(needle, hay[1..], j - 1)
    {
      assert hay[1..][j - 1..j - 1 + |needle|] == hay[j..j + |needle|];
    }
  }

  /** `hay.includes(needle)`: true exactly when `needle` occurs somewhere in `hay`. */
  function Contains(hay: string, needle: string): (r: bool)
    ensures r <==> exists i :: OccursAt(needle, hay, i)
    decreases |hay|
  {
    if |needle| > |hay| then
      false
    else if hay[..|needle|] == needle then
      assert OccursAt(needle, hay, 0);
      true
    else
      OccursShift(needle, hay);
      assert !OccursAt(needle, hay, 0);
      Contains(hay[1..], needle)
  }

  /** Every string contains the empty string. */
  lemma ContainsEmpty(hay: string)
    ensures Contains(hay, "")
  {
    assert OccursAt("", hay, 0);
  }

  // ---------------------------------------------------------------------
  // `trim()`
  // ---------------------------------------------------------------------

  /** Every character of `s` at an index in `[lo, hi)` is whitespace. */
  predicate SpaceBetween(s: string, lo: nat, hi: nat)
    requires lo <= hi <= |s|
  {
    forall k :: lo <= k < hi ==> IsSpace(s[k])
  }

  /** Neither the first nor the last character is whitespace. */
  predicate NoEdgeSpace(s: string)
  {
    |s| == 0 || (!IsSpace(s[0]) && !IsSpace(s[|s| - 1]))
  }

  /** The index of the first non-whitespace character at or after `i`, or `|s|`. */
  function SkipSpace(s: string, i: nat): (j: nat)
    requires i <= |s|
    ensures i <= j <= |s| && SpaceBetween(s, i, j)
    ensures j == |s| || !IsSpace(s[j])
    decreases |s| - i
  {
    if i < |s| && IsSpace(s[i]) then SkipSpace(s, i + 1) else i
  }

  /**
   The index just past the last non-whitespace character in `[lo, hi)`, or
   `lo` when there is none.
   */
  function SkipSpaceBack(s: string, lo: nat, hi: nat): (j: nat)
    requires lo <= hi <= |s|
    ensures lo <= j <= hi && SpaceBetween(s, j, hi)
    ensures j == lo || !IsSpace(s[j - 1])
  {
    if lo < hi && IsSpace(s[hi - 1]) then SkipSpaceBack(s, lo, hi - 1) else hi
  }

  /**
   `r` is `s` with some all-whitespace prefix and some all-whitespace suffix
   removed.
   */
  ghost predicate IsInnerPart(r: string, s: string)
  {
    exists i, j :: 0 <= i <= j <= |s| && r == s[i..j] && SpaceBetween(s, 0, i) && SpaceBetween(s, j, |s|)
  }

  /** `s.trim()`: the inner part of `s` with whitespace on neither edge. */
  function Trim(s: string): (r: string)
    ensures NoEdgeSpace(r)
    ensures IsInnerPart(r, s)
    ensures forall k :: 0 <= k < |r| ==> r[k] in s
  {
    var i := SkipSpace(s, 0);
    var j := SkipSpaceBack(s, i, |s|);
    assert forall k :: 0 <= k < j - i ==> s[i..j][k] == s[i + k];
    s[i..j]
  }

  /** Trimming an already trimmed string leaves it unchanged. */
  lemma TrimNoEdgeSpace(s: string)
    requires NoEdgeSpace(s)
    ensures Trim(s) == s
  {
  }

  /** `trim()` is idempotent. */
  lemma TrimIdempotent(s: string)
    ensures Trim(Trim(s)) == Trim(s)
  {
    TrimNoEdgeSpace(Trim(s));
  }

  // ---------------------------------------------------------------------
  // `split(sep)` and its inverse `join(sep)`
  // ---------------------------------------------------------------------

  /** The number of occurrences of `c` in `s`. */
  function CountChar(s: string, c: char): nat
  {
    if |s| == 0 then 0 else (if s[0] == c then 1 else 0) + CountChar(s[1..], c)
  }

  /** `parts.join(sep)` */
  function Join(parts: seq<string>, sep: char): string
  {
    if |parts| == 0 then ""
    else if |parts| == 1 then parts[0]
    else parts[0] + [sep] + Join(parts[1..], sep)
  }

  /**
   `s.split(sep)` for a one-character separator: one segment per separator
   plus one (so the empty string gives one empty segment), and no segment
   holds the separator.
   */
  function Split(s: string, sep: char): (r: seq<string>)
    ensures |r| == CountChar(s, sep) + 1
    ensures forall k :: 0 <= k < |r| ==> sep !in r[k]
  {
    if |s| == 0 then
      [""]
    else
      var rest := Split(s[1..], sep);
      if s[0] == sep then [""] + rest else [[s[0]] + rest[0]] + rest[1..]
  }

  /** Joining the segments with the separator gives the input back. */
  lemma {:induction false} JoinSplit(s: string, sep: char)
    ensures Join(Split(s, sep), sep) == s
    decreases |s|
  {
    if |s| > 0 {
      var rest := Split(s[1..], sep);
      JoinSplit(s[1..], sep);
      assert s == [s[0]] + s[1..];
      if s[0] != sep && |rest| > 1 {
        assert Join(rest, sep) == rest[0] + [sep] + Join(rest[1..], sep);
      }
    }
  }

  lemma {:induction false} SplitNoSeparator(a: string, sep: char)
    requires sep !in a
    ensures Split(a, sep) == [a]
    decreases |a|
  {
    if |a| > 0 {
      SplitNoSeparator(a[1..], sep);
      assert [a[0]] + a[1..] == a;
    }
  }

  lemma {:induction false} SplitAfterSegment(a: string, b: string, sep: char)
    requires sep !in a
    ensures Split(a + [sep] + b, sep) == [a] + Split(b, sep)
    decreases |a|
  {
    var x := a + [sep] + b;
    if |a| == 0 {
      assert x == [sep] + b;
      assert x[1..] == b;
    } else {
      SplitAfterSegment(a[1..], b, sep);
      assert x[1..] == a[1..] + [sep] + b;
      var rest := Split(x[1..], sep);
      assert rest == [a[1..]] + Split(b, sep);
      assert x[0] == a[0] && a[0] != sep;
      assert Split(x, sep) == [[a[0]] + rest[0]] + rest[1..];
      assert [a[0]] + a[1..] == a;
    }
  }

  /** Splitting a join of separator-free segments gives the segments back. */
  lemma {:induction false} SplitJoin(parts: seq<string>, sep: char)
    requires |parts| > 0
    requires forall k :: 0 <= k < |parts| ==> sep !in parts[k]
    ensures Split(Join(parts, sep), sep) == parts
    decreases |parts|
  {
    if |parts| == 1 {
      SplitNoSeparator(parts[0], sep);
    } else {
      SplitJoin(parts[1..], sep);
      SplitAfterSegment(parts[0], Join(parts[1..], sep), sep);
      assert [parts[0]] + parts[1..] == parts;
    }
  }

  // ---------------------------------------------------------------------
  // Digit strip: `s.replace(/\D/g, '')`
  // ---------------------------------------------------------------------

  ghost predicate AllDigits(s: string)
  {
    forall k :: 0 <= k < |s| ==> IsDigit(s[k])
  }

  /** `s.replace(/\D/g, '')`: the digits of `s`, in order. */
  function Digits(s: string): string
  {
    Filter(s, IsDigit)
  }

  /**
   Only digits remain, each digit as often as it occurs in `s`, and the strip
   works piecewise so the digits keep their order.
   */
  lemma DigitsSpec(s: string, t: string)
    ensures AllDigits(Digits(s))
    ensures forall c :: multiset(Digits(s))[c] == if IsDigit(c) then multiset(s)[c] else 0
    ensures Digits(s + t) == Digits(s) + Digits(t)
  {
    var r := Digits(s);
    assert forall k :: 0 <= k < |r| ==> r[k] in r;
    FilterCount(s, IsDigit);
    FilterAppend(s, t, IsDigit);
  }

  /** Stripping twice is the same as stripping once. */
  lemma DigitsIdempotent(s: string)
    ensures Digits(Digits(s)) == Digits(s)
  {
    FilterIdempotent(s, IsDigit);
  }

  // ---------------------------------------------------------------------
  // `s.charAt(0).toUpperCase() + s.slice(1)`
  // ---------------------------------------------------------------------

  function Capitalize(s: string): (r: string)
    ensures |r| == |s|
    ensures |s| > 0 ==> r[0] == UpperChar(s[0]) && r[1..] == s[1..]
  {
    if |s| == 0 then s else [UpperChar(s[0])] + s[1..]
  }

  /**
   Capitalizing a string that has no upper-case letters can be undone by
   lower-casing.
   */
  lemma LowerCapitalize(s: string)
    requires forall k :: 0 <= k < |s| ==> !IsUpper(s[k])
    ensures Lower(Capitalize(s)) == s
  {
    var r := Lower(Capitalize(s));
    forall k | 0 <= k < |s|
      ensures r[k] == s[k]
    {
      if k == 0 {
        LowerOfUpperChar(s[0]);
      } else {
        assert Capitalize(s)[k] == s[k];
      }
    }
  }
}
