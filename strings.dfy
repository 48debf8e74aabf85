/**
 * The few string operations the task relies on, with JavaScript's meaning:
 * `startsWith`, `indexOf` of a substring, and `replace` with a plain (or
 * literal regular-expression) pattern, which rewrites the FIRST occurrence only.
 */
module Strings {
  import opened Wrappers

  /** `pattern` occurs in `s` starting at index `i`. */
  predicate OccursAt(s: string, pattern: string, i: nat) {
    i + |pattern| <= |s| && s[i..i + |pattern|] == pattern
  }

  /** `s.startsWith(prefix)`. */
  predicate StartsWith(s: string, prefix: string) {
    OccursAt(s, prefix, 0)
  }

  /** `s.indexOf(pattern)`, searching from index `from`: the least index of an occurrence. */
  function IndexFrom(s: string, pattern: string, from: nat): (r: Option<nat>)
    ensures r.Some? ==> from <= r.value && OccursAt(s, pattern, r.value)
    ensures r.Some? ==> forall j :: from <= j < r.value ==> !OccursAt(s, pattern, j)
    ensures r.None? ==> forall j :: from <= j ==> !OccursAt(s, pattern, j)
    decreases |s| - from
  {
    if from + |pattern| > |s| then None
    else if s[from..from + |pattern|] == pattern then Some(from)
    else IndexFrom(s, pattern, from + 1)
  }

  /** `s.indexOf(pattern)`; `None` stands for -1. */
  function IndexOf(s: string, pattern: string): (r: Option<nat>)
    ensures r.Some? ==> OccursAt(s, pattern, r.value)
    ensures r.Some? ==> forall j :: 0 <= j < r.value ==> !OccursAt(s, pattern, j)
    ensures r.None? ==> forall j :: 0 <= j ==> !OccursAt(s, pattern, j)
  {
    IndexFrom(s, pattern, 0)
  }

  /**
   * `s.replace(pattern, replacement)`: the first occurrence of `pattern` is replaced, any
   * later one is kept; without an occurrence `s` is returned unchanged.
   */
  function ReplaceFirst(s: string, pattern: string, replacement: string): (r: string)
    ensures |r| == if IndexOf(s, pattern).Some? then |s| - |pattern| + |replacement| else |s|
    ensures IndexOf(s, pattern).None? ==> r == s
    ensures IndexOf(s, pattern).Some? ==>
      var i := IndexOf(s, pattern).value;
      r[..i] == s[..i] && r[i..i + |replacement|] == replacement && r[i + |replacement|..] == s[i + |pattern|..]
  {
    match IndexOf(s, pattern)
    case None => s
    case Some(i) => s[..i] + replacement + s[i + |pattern|..]
  }

  /**
   * After a stem in which `.scss` does not occur, the `.scss` that follows is the first
   * occurrence and the only one renamed, whatever comes after it: an occurrence that
   * started inside the stem and ran into the extension would need a `.` at one of the
   * positions 1..4 of `.scss`, and there is none.
   */
  lemma ExtensionRenamed(stem: string, rest: string)
    requires IndexOf(stem, ".scss").None?
    ensures ReplaceFirst(stem + ".scss" + rest, ".scss", ".css") == stem + ".css" + rest
  {
    var s := stem + ".scss" + rest;
    assert OccursAt(s, ".scss", |stem|) by { assert s[|stem|..|stem| + 5] == ".scss"; }
    forall j | 0 <= j < |stem|
      ensures !OccursAt(s, ".scss", j)
    {
      if j + 5 <= |stem| {
        assert !OccursAt(stem, ".scss", j);
        assert s[j..j + 5] == stem[j..j + 5];
      } else if j + 5 <= |s| {
        // The extension's dot sits at offset |stem| - j, one of 1..4, of the window.
        var k := |stem| - j;
        assert 1 <= k <= 4;
        assert s[|stem|] == '.';
        assert s[j..j + 5][k] == s[|stem|];
        assert ".scss"[k] != '.';
      }
    }
    assert IndexOf(s, ".scss") == Some(|stem|);
    var r := ReplaceFirst(s, ".scss", ".css");
    assert r == s[..|stem|] + ".css" + s[|stem| + 5..];
    assert s[..|stem|] == stem;
    assert s[|stem| + 5..] == rest;
  }

  /** A pattern at the very start is the first occurrence, so it is the one replaced. */
  lemma ReplacePrefix(pattern: string, rest: string, replacement: string)
    ensures ReplaceFirst(pattern + rest, pattern, replacement) == replacement + rest
  {
    var s := pattern + rest;
    assert OccursAt(s, pattern, 0) by { assert s[..|pattern|] == pattern; }
    assert IndexOf(s, pattern) == Some(0);
    assert s[|pattern|..] == rest;
  }
}
