/**
 The Kotlin standard-library string operations the profile filter relies on:
 `Char.isWhitespace` / `String.isBlank`, `String.contains(other, ignoreCase = true)`,
 `String.trim()` and `String.replace(old, "")` for a one-character `old`.
 */
module Text {
  import opened Lists

  /** Kotlin's `Char.isWhitespace` on the JVM: `Character.isWhitespace(c) || Character.isSpaceChar(c)`.
      That is the controls U+0009..U+000D and U+001C..U+001F together with every character
      of the Unicode space, line and paragraph separator categories. */
  predicate IsWhitespace(c: char)
  {
    var n := c as int;
    (0x09 <= n <= 0x0D) || (0x1C <= n <= 0x20) || n == 0xA0 || n == 0x1680
    || (0x2000 <= n <= 0x200A) || n == 0x2028 || n == 0x2029 || n == 0x202F
    || n == 0x205F || n == 0x3000
  }

  /** `String.isBlank()`: empty, or made of whitespace only. */
  predicate IsBlank(s: string)
  {
    forall i :: 0 <= i < |s| ==> IsWhitespace(s[i])
  }

  /** `String.isNotBlank()`: at least one character is not whitespace (not the same as non-empty). */
  predicate IsNotBlank(s: string)
  {
    !IsBlank(s)
  }

  lemma NotBlankWitness(s: string)
    ensures IsNotBlank(s) <==> exists i :: 0 <= i < |s| && !IsWhitespace(s[i])
    ensures IsNotBlank(s) ==> s != []
  {
  }

  // ---------------------------------------------------------------------------
  // Case-insensitive comparison

  /** `Char.uppercaseChar()`, for the ASCII letters; every other character maps to itself. */
  function UppercaseChar(c: char): (u: char)
    ensures 'a' <= c <= 'z' ==> 'A' <= u <= 'Z' && u as int == c as int - 32
    ensures !('a' <= c <= 'z') ==> u == c
  {
    if 'a' <= c <= 'z' then (c as int - 32) as char else c
  }

  /** `Char.lowercaseChar()`, for the ASCII letters; every other character maps to itself. */
  function LowercaseChar(c: char): (l: char)
    ensures 'A' <= c <= 'Z' ==> 'a' <= l <= 'z' && l as int == c as int + 32
    ensures !('A' <= c <= 'Z') ==> l == c
  {
    if 'A' <= c <= 'Z' then (c as int + 32) as char else c
  }

  /** Character equality as `String.regionMatches(..., ignoreCase = true)` decides it:
      equal, or equal after upper-casing, or equal after upper- then lower-casing. */
  predicate CharEqualsIgnoreCase(a: char, b: char)
  {
    a == b || UppercaseChar(a) == UppercaseChar(b)
    || LowercaseChar(UppercaseChar(a)) == LowercaseChar(UppercaseChar(b))
  }

  /** The case fold that `CharEqualsIgnoreCase` compares by. */
  function Fold(c: char): char
  {
    LowercaseChar(UppercaseChar(c))
  }

  lemma CharEqualsIgnoreCaseIsFoldEquality(a: char, b: char)
    ensures CharEqualsIgnoreCase(a, b) <==> Fold(a) == Fold(b)
  {
  }

  /** The case fold applied to every character of a string. */
  function FoldAll(s: string): (r: string)
    ensures |r| == |s|
    ensures forall i :: 0 <= i < |s| ==> r[i] == Fold(s[i])
  {
    seq(|s|, i requires 0 <= i < |s| => Fold(s[i]))
  }

  /** `t` occurs in `s` at offset `at`, comparing characters without regard to case. */
  predicate RegionMatchesIgnoreCase(s: string, at: int, t: string)
  {
    0 <= at && at + |t| <= |s|
    && forall j :: 0 <= j < |t| ==> CharEqualsIgnoreCase(s[at + j], t[j])
  }

  /** `s.contains(t, ignoreCase = true)`: some offset of `s` where `t` matches. */
  predicate ContainsIgnoreCase(s: string, t: string)
  {
    exists at :: 0 <= at <= |s| - |t| && RegionMatchesIgnoreCase(s, at, t)
  }

  /** Plain (case-sensitive) substring occurrence, used as the reference definition. */
  ghost predicate IsSubstring(t: string, s: string)
  {
    exists at :: OccursAt(t, s, at)
  }

  /** `t` is the slice of `s` that starts at offset `at`. */
  predicate OccursAt(t: string, s: string, at: int)
  {
    0 <= at <= |s| - |t| && s[at..at + |t|] == t
  }

  /** Case-insensitive containment is exactly substring occurrence after folding both strings. */
  lemma ContainsIgnoreCaseIffFoldedSubstring(s: string, t: string)
    ensures ContainsIgnoreCase(s, t) <==> IsSubstring(FoldAll(t), FoldAll(s))
  {
    var fs, ft := FoldAll(s), FoldAll(t);
    if ContainsIgnoreCase(s, t) {
      var at :| 0 <= at <= |s| - |t| && RegionMatchesIgnoreCase(s, at, t);
      forall j | 0 <= j < |t|
        ensures fs[at..at + |t|][j] == ft[j]
      {
        CharEqualsIgnoreCaseIsFoldEquality(s[at + j], t[j]);
      }
      assert OccursAt(ft, fs, at);
    }
    if IsSubstring(ft, fs) {
      var at :| OccursAt(ft, fs, at);
      forall j | 0 <= j < |t|
        ensures CharEqualsIgnoreCase(s[at + j], t[j])
      {
        assert fs[at..at + |ft|][j] == ft[j];
        CharEqualsIgnoreCaseIsFoldEquality(s[at + j], t[j]);
      }
      assert RegionMatchesIgnoreCase(s, at, t);
    }
  }

  // ---------------------------------------------------------------------------
  // trim() and replace(c, "")

  /** The leading-whitespace half of `String.trim()`. */
  function TrimStart(s: string): (r: string)
    ensures |r| <= |s| && r == s[|s| - |r|..]
    ensures forall i :: 0 <= i < |s| - |r| ==> IsWhitespace(s[i])
    ensures r != [] ==> !IsWhitespace(r[0])
    decreases |s|
  {
    if s != [] && IsWhitespace(s[0]) then TrimStart(s[1..]) else s
  }

  /** The trailing-whitespace half of `String.trim()`. */
  function TrimEnd(s: string): (r: string)
    ensures |r| <= |s| && r == s[..|r|]
    ensures forall i :: |r| <= i < |s| ==> IsWhitespace(s[i])
    ensures r != [] ==> !IsWhitespace(r[|r| - 1])
    decreases |s|
  {
    if s != [] && IsWhitespace(s[|s| - 1]) then TrimEnd(s[..|s| - 1]) else s
  }

  /** `r` is the slice `s[i..j]`, and every character of `s` outside it is whitespace. */
  ghost predicate TrimmedAt(r: string, s: string, i: int, j: int)
  {
    0 <= i <= j <= |s| && r == s[i..j]
    && (forall k :: 0 <= k < i ==> IsWhitespace(s[k]))
    && (forall k :: j <= k < |s| ==> IsWhitespace(s[k]))
  }

  /** `String.trim()`: the contiguous middle of `s` left after dropping its leading and trailing
      whitespace, so that it neither starts nor ends with whitespace. */
  function Trim(s: string): (r: string)
    ensures exists i, j :: TrimmedAt(r, s, i, j)
    ensures r == [] || (!IsWhitespace(r[0]) && !IsWhitespace(r[|r| - 1]))
    ensures r == [] <==> IsBlank(s)
    ensures forall c :: c in r ==> c in s
  {
    TrimSlice(s);
    SliceMembers(s, |s| - |TrimStart(s)|, |s|);
    SliceMembers(TrimStart(s), 0, |TrimEnd(TrimStart(s))|);
    TrimEnd(TrimStart(s))
  }

  /** Where the two halves of `trim()` leave the slice they cut out. */
  lemma TrimSlice(s: string)
    ensures exists i, j :: TrimmedAt(TrimEnd(TrimStart(s)), s, i, j)
  {
    var t := TrimStart(s);
    SuffixThenPrefix(s, t, TrimEnd(t));
  }

  /** A prefix `r` of a suffix `t` of `s`, each cut off only whitespace, is a trimmed slice of `s`. */
  lemma SuffixThenPrefix(s: string, t: string, r: string)
    requires |t| <= |s| && t == s[|s| - |t|..]
    requires forall k :: 0 <= k < |s| - |t| ==> IsWhitespace(s[k])
    requires |r| <= |t| && r == t[..|r|]
    requires forall k :: |r| <= k < |t| ==> IsWhitespace(t[k])
    ensures TrimmedAt(r, s, |s| - |t|, |s| - |t| + |r|)
  {
    var i := |s| - |t|;
    forall k | i + |r| <= k < |s|
      ensures IsWhitespace(s[k])
    {
      assert s[k] == t[k - i];
    }
  }

  lemma SliceMembers(s: string, i: nat, j: nat)
    requires i <= j <= |s|
    ensures forall c :: c in s[i..j] ==> c in s
  {
    forall c | c in s[i..j] ensures c in s {
      var k :| 0 <= k < j - i && s[i..j][k] == c;
      assert s[i + k] == c;
    }
  }

  /** Trimming a string that neither starts nor ends with whitespace leaves it as it is. */
  lemma {:induction false} TrimKeepsTrimmed(s: string)
    requires s == [] || (!IsWhitespace(s[0]) && !IsWhitespace(s[|s| - 1]))
    ensures Trim(s) == s
  {
  }

  /** `s.replace(c.toString(), "")`: every occurrence of `c` removed, the rest kept in order. */
  function RemoveChar(s: string, c: char): (r: string)
    ensures r == Filter(s, x => x != c)
    ensures c !in r
    ensures forall x :: x != c ==> multiset(r)[x] == multiset(s)[x]
    decreases |s|
  {
    if s == [] then []
    else
      var rest := RemoveChar(s[1..], c);
      assert s == [s[0]] + s[1..];
      if s[0] == c then rest else [s[0]] + rest
  }

  /** Removal looks at the first character and goes on with the rest. */
  lemma RemoveCharCons(x: char, rest: string, c: char)
    ensures RemoveChar([x] + rest, c) == if x == c then RemoveChar(rest, c) else [x] + RemoveChar(rest, c)
  {
    assert ([x] + rest)[0] == x && ([x] + rest)[1..] == rest;
  }

  /** Removing a character that does not occur changes nothing. */
  lemma {:induction false} RemoveCharAbsent(s: string, c: char)
    requires c !in s
    ensures RemoveChar(s, c) == s
    decreases |s|
  {
    if s != [] {
      RemoveCharAbsent(s[1..], c);
    }
  }

  /** Removing a character from a concatenation removes it from each part. */
  lemma RemoveCharAppend(a: string, b: string, c: char)
    ensures RemoveChar(a + b, c) == RemoveChar(a, c) + RemoveChar(b, c)
  {
    FilterAppend(a, b, x => x != c);
  }

  // ---------------------------------------------------------------------------
  // joinToString

  /** `parts.joinToString(separator)`. */
  function JoinToString(parts: seq<string>, separator: string): string
    decreases |parts|
  {
    if parts == [] then ""
    else if |parts| == 1 then parts[0]
    else parts[0] + separator + JoinToString(parts[1..], separator)
  }

  /** Appending a part appends the separator and that part to the joined string. */
  lemma {:induction false} JoinSnoc(parts: seq<string>, p: string, separator: string)
    requires parts != []
    ensures JoinToString(parts + [p], separator) == JoinToString(parts, separator) + separator + p
    decreases |parts|
  {
    assert (parts + [p])[0] == parts[0];
    if |parts| > 1 {
      assert (parts + [p])[1..] == parts[1..] + [p];
      JoinSnoc(parts[1..], p, separator);
    } else {
      assert (parts + [p])[1..] == [p];
    }
  }

  /** The joined string starts with the first part. */
  lemma JoinToStringStart(parts: seq<string>, separator: string)
    requires parts != [] && parts[0] != []
    ensures |JoinToString(parts, separator)| > 0
    ensures JoinToString(parts, separator)[0] == parts[0][0]
  {
    if |parts| > 1 {
      var joined := parts[0] + separator + JoinToString(parts[1..], separator);
      assert joined[0] == parts[0][0];
    }
  }

  /** A character that occurs once in every part and never in the separator occurs once per part
      in the joined string. */
  lemma {:induction false} JoinToStringCount(parts: seq<string>, separator: string, c: char)
    requires forall i :: 0 <= i < |parts| ==> multiset(parts[i])[c] == 1
    requires multiset(separator)[c] == 0
    ensures multiset(JoinToString(parts, separator))[c] == |parts|
    decreases |parts|
  {
    if |parts| > 1 {
      JoinToStringCount(parts[1..], separator, c);
      var tail := JoinToString(parts[1..], separator);
      assert multiset(parts[0] + separator + tail) == multiset(parts[0]) + multiset(separator) + multiset(tail);
    }
  }
}
