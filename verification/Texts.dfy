/** Strings taken apart at a separator and put together again. */
module Texts {
  import opened Sequences

  function Join(parts: seq<string>, c: char): string {
    if parts == [] then ""
    else if |parts| == 1 then parts[0]
    else parts[0] + [c] + Join(parts[1..], c)
  }

  /** The pieces between the separators; one more than there are separators. */
  function Split(s: string, c: char): (parts: seq<string>)
    ensures |parts| > 0
    ensures forall k :: 0 <= k < |parts| ==> c !in parts[k]
  {
    if s == "" then [""]
    else if s[0] == c then [""] + Split(s[1..], c)
    else
      var rest := Split(s[1..], c);
      [[s[0]] + rest[0]] + rest[1..]
  }

  lemma {:induction false} JoinSplit(s: string, c: char)
    ensures Join(Split(s, c), c) == s
  {
    if s != "" {
      JoinSplit(s[1..], c);
      var rest := Split(s[1..], c);
      if s[0] != c {
        var parts := Split(s, c);
        assert parts[1..] == rest[1..];
        assert s == [s[0]] + s[1..];
      } else {
        assert Split(s, c)[1..] == rest;
      }
    }
  }

  lemma {:induction false} SplitWhole(s: string, c: char)
    requires c !in s
    ensures Split(s, c) == [s]
  {
    if s != "" {
      SplitWhole(s[1..], c);
      assert [s[0]] + s[1..] == s;
    }
  }

  lemma {:induction false} SplitAtFirst(s: string, c: char, rest: string)
    requires c !in s
    ensures Split(s + [c] + rest, c) == [s] + Split(rest, c)
  {
    var whole := s + [c] + rest;
    if s == "" {
      assert whole[1..] == rest;
    } else {
      assert whole[1..] == s[1..] + [c] + rest;
      SplitAtFirst(s[1..], c, rest);
      var tail := Split(whole[1..], c);
      assert tail[0] == s[1..] && tail[1..] == Split(rest, c);
      assert [s[0]] + s[1..] == s;
    }
  }

  lemma {:induction false} SplitJoin(parts: seq<string>, c: char)
    requires parts != [] && forall k :: 0 <= k < |parts| ==> c !in parts[k]
    ensures Split(Join(parts, c), c) == parts
  {
    if |parts| == 1 {
      SplitWhole(parts[0], c);
    } else {
      SplitJoin(parts[1..], c);
      SplitAtFirst(parts[0], c, Join(parts[1..], c));
    }
  }

  predicate StartsWith(s: string, prefix: string) {
    |prefix| <= |s| && s[..|prefix|] == prefix
  }

  predicate EndsWith(s: string, suffix: string) {
    |suffix| <= |s| && s[|s| - |suffix|..] == suffix
  }

  /** Whether `part` occurs in `s` at `at`. */
  predicate OccursAt(s: string, part: string, at: nat) {
    at <= |s| && StartsWith(s[at..], part)
  }

  /** The leftmost occurrence. */
  function Find(s: string, part: string): (r: Option<nat>)
    ensures r.Some? ==> OccursAt(s, part, r.value)
    ensures forall k: nat :: OccursAt(s, part, k) ==> r.Some? && r.value <= k
  {
    if StartsWith(s, part) then assert s[0..] == s; Some(0)
    else if s == "" then None
    else
      assert s[0..] == s;
      assert forall k: nat :: 0 < k <= |s| ==> s[k..] == s[1..][k - 1..];
      assert forall k: nat :: 0 < k && OccursAt(s, part, k) ==> OccursAt(s[1..], part, k - 1);
      match Find(s[1..], part)
      case None => None
      case Some(k) => Some(k + 1)
  }
}
