/**
 * The few functions of Go's `strings` package that the commenter relies on,
 * as functions over `string` (= `seq<char>`), each with the property the
 * commenter depends on.
 */
module GoStrings {

  /** strings.HasPrefix */
  predicate HasPrefix(s: string, prefix: string) {
    prefix <= s
  }

  /** strings.HasSuffix */
  predicate HasSuffix(s: string, suffix: string) {
    |suffix| <= |s| && s[|s| - |suffix|..] == suffix
  }

  /** strings.Contains: `pattern` occurs somewhere in `s` (the empty pattern always does). */
  predicate Contains(s: string, pattern: string)
    decreases |s|
  {
    pattern <= s || (s != [] && Contains(s[1..], pattern))
  }

  /** strings.TrimPrefix: drops `prefix` once, if `s` starts with it. */
  function TrimPrefix(s: string, prefix: string): (r: string)
    ensures HasPrefix(s, prefix) ==> prefix + r == s
    ensures !HasPrefix(s, prefix) ==> r == s
  {
    if prefix <= s then s[|prefix|..] else s
  }

  /** strings.TrimSuffix: drops `suffix` once, if `s` ends with it. */
  function TrimSuffix(s: string, suffix: string): (r: string)
    ensures HasSuffix(s, suffix) ==> r + suffix == s
    ensures !HasSuffix(s, suffix) ==> r == s
  {
    if HasSuffix(s, suffix) then s[..|s| - |suffix|] else s
  }

  /**
   * strings.ReplaceAll(s, pattern, ""): scans `s` from the left and deletes
   * every non-overlapping occurrence of `pattern`. Go returns `s` unchanged
   * when the pattern and its replacement are both empty.
   */
  function RemoveAll(s: string, pattern: string): (r: string)
    ensures |r| <= |s|
    ensures HasPrefix(s, pattern) && pattern != [] ==> |r| <= |s| - |pattern|
    decreases |s|
  {
    if pattern == [] || |s| < |pattern| then s
    else if pattern <= s then RemoveAll(s[|pattern|..], pattern)
    else [s[0]] + RemoveAll(s[1..], pattern)
  }

  /** Reference definition: `s` with every occurrence of the character `c` dropped. */
  function Without(s: string, c: char): (r: string)
    ensures c !in r
    ensures |r| <= |s|
    ensures c !in s ==> r == s
    decreases |s|
  {
    if s == [] then []
    else if s[0] == c then Without(s[1..], c)
    else [s[0]] + Without(s[1..], c)
  }

  /** Removing a pattern that does not occur leaves the string as it is. */
  lemma {:induction false} RemoveAllAbsent(s: string, pattern: string)
    requires !Contains(s, pattern)
    ensures RemoveAll(s, pattern) == s
    decreases |s|
  {
    if pattern != [] && |s| >= |pattern| {
      RemoveAllAbsent(s[1..], pattern);
    }
  }

  /** A leading occurrence is removed, and removal carries on in the rest. */
  lemma RemoveAllLeading(pattern: string, rest: string)
    requires pattern != []
    ensures RemoveAll(pattern + rest, pattern) == RemoveAll(rest, pattern)
  {
  }

  /**
   * Removal is not a prefix strip: text in which no occurrence starts is
   * kept, the first occurrence after it is removed, and removal carries on
   * in the rest.
   */
  lemma {:induction false} RemoveAllAfterClean(u: string, pattern: string, v: string)
    requires pattern != []
    requires forall k :: 0 <= k < |u| ==> !(pattern <= (u + pattern + v)[k..])
    ensures RemoveAll(u + pattern + v, pattern) == u + RemoveAll(v, pattern)
    decreases |u|
  {
    var s := u + pattern + v;
    if u == [] {
      assert s == pattern + v;
      RemoveAllLeading(pattern, v);
    } else {
      var tail := u[1..] + pattern + v;
      assert s == [u[0]] + tail;
      assert !(pattern <= s) by {
        assert s[0..] == s;
      }
      forall k | 0 <= k < |u[1..]|
        ensures !(pattern <= tail[k..])
      {
        assert tail[k..] == s[k + 1..];
      }
      RemoveAllSkip(u[0], tail, pattern);
      RemoveAllAfterClean(u[1..], pattern, v);
      assert u == [u[0]] + u[1..];
    }
  }

  /** A character at which no occurrence starts is kept, and removal carries on after it. */
  lemma RemoveAllSkip(c: char, tail: string, pattern: string)
    requires pattern != [] && |tail| + 1 >= |pattern|
    requires !(pattern <= [c] + tail)
    ensures RemoveAll([c] + tail, pattern) == [c] + RemoveAll(tail, pattern)
  {
    assert ([c] + tail)[1..] == tail;
  }

  /** With a one-character pattern, ReplaceAll deletes every occurrence of that character. */
  lemma {:induction false} RemoveAllSingleChar(s: string, c: char)
    ensures RemoveAll(s, [c]) == Without(s, c)
    decreases |s|
  {
    if s != [] {
      RemoveAllSingleChar(s[1..], c);
      if s[0] == c {
        assert [c] <= s;
      } else {
        assert !([c] <= s);
      }
    }
  }

  /** Number of occurrences of `c` in `s`. */
  function Count(s: string, c: char): (n: nat)
    ensures n <= |s|
    ensures n == 0 <==> c !in s
    decreases |s|
  {
    if s == [] then 0
    else (if s[0] == c then 1 else 0) + Count(s[1..], c)
  }

  /**
   * strings.Split(s, [sep]) for a one-character separator: the pieces
   * between the separators, empty pieces included.
   */
  function Split(s: string, sep: char): (parts: seq<string>)
    ensures |parts| == Count(s, sep) + 1
    ensures forall i :: 0 <= i < |parts| ==> sep !in parts[i]
    decreases |s|
  {
    if s == [] then [[]]
    else
      var rest := Split(s[1..], sep);
      if s[0] == sep then [[]] + rest
      else [[s[0]] + rest[0]] + rest[1..]
  }

  /** strings.Join(parts, [sep]) */
  function Join(parts: seq<string>, sep: char): string
    decreases |parts|
  {
    if parts == [] then []
    else if |parts| == 1 then parts[0]
    else parts[0] + [sep] + Join(parts[1..], sep)
  }

  /** Split loses nothing: joining its pieces gives back the input. */
  lemma {:induction false} JoinSplit(s: string, sep: char)
    ensures Join(Split(s, sep), sep) == s
    decreases |s|
  {
    if s != [] {
      var rest := Split(s[1..], sep);
      JoinSplit(s[1..], sep);
      if s[0] == sep {
        assert ([[]] + rest)[1..] == rest;
      } else if |rest| == 1 {
        assert Split(s, sep) == [[s[0]] + rest[0]];
      } else {
        var parts := Split(s, sep);
        assert parts[1..] == rest[1..];
        assert Join(rest, sep) == rest[0] + [sep] + Join(rest[1..], sep);
      }
    }
  }

  /** ASCII lower-casing of one character. */
  function LowerChar(c: char): char {
    if 'A' <= c <= 'Z' then (c as int + 32) as char else c
  }

  /**
   * strings.ToLower, restricted to ASCII letters: same length, each upper-case
   * letter becomes its lower-case letter, every other character is kept.
   */
  function ToLower(s: string): (r: string)
    ensures |r| == |s|
    ensures forall i :: 0 <= i < |r| && 'A' <= s[i] <= 'Z' ==> r[i] == (s[i] as int + 32) as char
    ensures forall i :: 0 <= i < |r| ==> !('A' <= r[i] <= 'Z')
    ensures forall i :: 0 <= i < |r| && !('A' <= s[i] <= 'Z') ==> r[i] == s[i]
  {
    seq(|s|, i requires 0 <= i < |s| => LowerChar(s[i]))
  }

  /** `s` spells "true" in any mix of upper and lower case. */
  predicate IsTrueIgnoringCase(s: string) {
    && |s| == 4
    && (s[0] == 't' || s[0] == 'T')
    && (s[1] == 'r' || s[1] == 'R')
    && (s[2] == 'u' || s[2] == 'U')
    && (s[3] == 'e' || s[3] == 'E')
  }

  /** Lower-casing gives "true" exactly for the case variants of "true". */
  lemma ToLowerIsTrue(s: string)
    ensures ToLower(s) == "true" <==> IsTrueIgnoringCase(s)
  {
    if IsTrueIgnoringCase(s) {
      assert ToLower(s) == [ToLower(s)[0], ToLower(s)[1], ToLower(s)[2], ToLower(s)[3]];
    }
    if ToLower(s) == "true" {
      assert |s| == 4;
      assert ToLower(s)[0] == 't' && ToLower(s)[1] == 'r';
      assert ToLower(s)[2] == 'u' && ToLower(s)[3] == 'e';
    }
  }
}
