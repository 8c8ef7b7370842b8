/**
 * The few functions of Go's `strings` package that the pipeline relies on:
 * the path split used by the JSON path lookup and the searches that the
 * default device-ID regular expression performs.
 */
module Strings {
  import opened Wrappers

  /** `sep` occurs in `s` starting at position `j`. */
  predicate OccursAt(s: string, sep: string, j: nat)
  {
    j + |sep| <= |s| && s[j..j + |sep|] == sep
  }

  lemma OccursAtTail(s: string, sep: string, j: nat)
    requires s != []
    ensures OccursAt(s, sep, j + 1) <==> OccursAt(s[1..], sep, j)
  {
    if j + 1 + |sep| <= |s| {
      assert s[j + 1..j + 1 + |sep|] == s[1..][j..j + |sep|];
    }
  }

  /** Position of the first occurrence of a non-empty `sep` in `s` (Go's strings.Index); see IndexOfSpec. */
  function IndexOf(s: string, sep: string): (r: Option<nat>)
    requires sep != []
    ensures r.Some? ==> r.value + |sep| <= |s|
    decreases |s|
  {
    if |s| < |sep| then None
    else if s[..|sep|] == sep then Some(0)
    else
      var rest := IndexOf(s[1..], sep);
      if rest.None? then None else Some(rest.value + 1)
  }

  /** IndexOf finds an occurrence, and none comes before it; None means `sep` does not occur at all. */
  lemma {:induction false} IndexOfSpec(s: string, sep: string)
    requires sep != []
    ensures var r := IndexOf(s, sep);
            && (r.Some? ==> OccursAt(s, sep, r.value))
            && (r.Some? ==> forall j: nat :: j < r.value ==> !OccursAt(s, sep, j))
            && (r.None? ==> forall j: nat :: !OccursAt(s, sep, j))
    decreases |s|
  {
    if |s| >= |sep| && s[..|sep|] != sep {
      IndexOfSpec(s[1..], sep);
      forall j: nat
        ensures OccursAt(s, sep, j + 1) <==> OccursAt(s[1..], sep, j)
      {
        OccursAtTail(s, sep, j);
      }
      assert !OccursAt(s, sep, 0);
      forall j: nat | OccursAt(s, sep, j)
        ensures OccursAt(s[1..], sep, j - 1)
      {
        OccursAtTail(s, sep, j - 1);
      }
    }
  }

  /** Every character of `s` as a one-character string (Go's strings.Split with an empty separator). */
  function Explode(s: string): (parts: seq<string>)
    ensures |parts| == |s|
    ensures forall i :: 0 <= i < |s| ==> parts[i] == [s[i]]
  {
    seq(|s|, i requires 0 <= i < |s| => [s[i]])
  }

  /**
   * Go's strings.Split: the pieces of `s` between the occurrences of `sep`,
   * scanning left to right; an empty `sep` splits into single characters.
   */
  function Split(s: string, sep: string): (parts: seq<string>)
  {
    if sep == [] then Explode(s) else SplitOn(s, sep)
  }

  /** Split with a non-empty separator. */
  function SplitOn(s: string, sep: string): (parts: seq<string>)
    requires sep != []
    ensures |parts| >= 1
    decreases |s|
  {
    var i := IndexOf(s, sep);
    if i.None? then [s] else [s[..i.value]] + SplitOn(s[i.value + |sep|..], sep)
  }

  /** A separator whose first character is absent from `s[..i]` cannot occur before `i`. */
  lemma NoOccurrenceBefore(s: string, sep: string, i: nat)
    requires sep != [] && i <= |s| && sep[0] !in s[..i]
    ensures forall j: nat :: j < i ==> !OccursAt(s, sep, j)
  {
    forall j: nat | j < i
      ensures !OccursAt(s, sep, j)
    {
      assert s[j] == s[..i][j];
      if j + |sep| <= |s| {
        assert s[j..j + |sep|][0] == s[j];
      }
    }
  }

  /** The first occurrence is the occurrence with none before it. */
  lemma {:induction false} IndexOfIs(s: string, sep: string, i: nat)
    requires sep != [] && OccursAt(s, sep, i)
    requires forall j: nat :: j < i ==> !OccursAt(s, sep, j)
    ensures IndexOf(s, sep) == Some(i)
    decreases i
  {
    if i > 0 {
      assert !OccursAt(s, sep, 0);
      assert s[..|sep|] != sep;
      OccursAtTail(s, sep, i - 1);
      forall j: nat | j < i - 1
        ensures !OccursAt(s[1..], sep, j)
      {
        OccursAtTail(s, sep, j);
      }
      IndexOfIs(s[1..], sep, i - 1);
    }
  }

  /** A string in which `sep` occurs nowhere has no first occurrence. */
  lemma {:induction false} IndexOfNone(s: string, sep: string)
    requires sep != []
    requires forall j: nat :: !OccursAt(s, sep, j)
    ensures IndexOf(s, sep).None?
    decreases |s|
  {
    if |s| >= |sep| {
      assert !OccursAt(s, sep, 0);
      assert s[..|sep|] != sep;
      forall j: nat
        ensures !OccursAt(s[1..], sep, j)
      {
        OccursAtTail(s, sep, j);
      }
      IndexOfNone(s[1..], sep);
    }
  }

  /** One step of a split: the piece before the first separator, then the split of the rest. */
  lemma {:induction false} SplitStep(s: string, sep: string, i: nat)
    requires sep != [] && IndexOf(s, sep) == Some(i)
    ensures i + |sep| <= |s| && SplitOn(s, sep) == [s[..i]] + SplitOn(s[i + |sep|..], sep)
  {
  }

  /** The first occurrence of a separator whose first character is absent before `i`. */
  lemma {:induction false} IndexOfFirst(s: string, sep: string, i: nat)
    requires sep != [] && OccursAt(s, sep, i) && sep[0] !in s[..i]
    ensures IndexOf(s, sep) == Some(i)
  {
    NoOccurrenceBefore(s, sep, i);
    IndexOfIs(s, sep, i);
  }

  /** Unfolds one step of a split whose first separator is known to start at `i`. */
  lemma {:induction false} SplitAt(s: string, sep: string, i: nat)
    requires sep != [] && OccursAt(s, sep, i) && sep[0] !in s[..i]
    ensures SplitOn(s, sep) == [s[..i]] + SplitOn(s[i + |sep|..], sep)
  {
    IndexOfFirst(s, sep, i);
    SplitStep(s, sep, i);
  }

  /** A string free of the separator's first character splits into itself alone. */
  lemma SplitWhole(s: string, sep: string)
    requires sep != [] && sep[0] !in s
    ensures SplitOn(s, sep) == [s]
  {
    assert s[..|s|] == s;
    NoOccurrenceBefore(s, sep, |s|);
    IndexOfNone(s, sep);
  }

  /** A first piece free of the separator's first character is split off as it is. */
  lemma SplitAfterPiece(a: string, b: string, sep: string)
    requires sep != [] && sep[0] !in a
    ensures SplitOn(a + sep + b, sep) == [a] + SplitOn(b, sep)
  {
    var s := a + sep + b;
    assert s[..|a|] == a && s[|a|..|a| + |sep|] == sep && s[|a| + |sep|..] == b;
    SplitAt(s, sep, |a|);
  }

  /** Go's strings.Join. */
  function Join(parts: seq<string>, sep: string): string
  {
    if parts == [] then []
    else if |parts| == 1 then parts[0]
    else parts[0] + sep + Join(parts[1..], sep)
  }

  lemma {:induction false} JoinExplode(s: string)
    ensures Join(Explode(s), []) == s
    decreases |s|
  {
    if |s| > 1 {
      assert Explode(s)[1..] == Explode(s[1..]);
      JoinExplode(s[1..]);
    }
  }

  /** Joining the pieces of a split at a non-empty separator gives the string back. */
  lemma {:induction false} JoinSplitOn(s: string, sep: string)
    requires sep != []
    ensures Join(SplitOn(s, sep), sep) == s
    decreases |s|
  {
    var r := IndexOf(s, sep);
    if r.Some? {
      var i := r.value;
      var rest := s[i + |sep|..];
      IndexOfSpec(s, sep);
      SplitStep(s, sep, i);
      JoinSplitOn(rest, sep);
      assert s == s[..i] + sep + rest;
    }
  }

  /** Joining the pieces of a split with the same separator gives the string back. */
  lemma JoinSplit(s: string, sep: string)
    ensures Join(Split(s, sep), sep) == s
  {
    if sep == [] {
      JoinExplode(s);
    } else {
      JoinSplitOn(s, sep);
    }
  }

  /** The text before the first occurrence of a separator does not contain it. */
  lemma HeadAvoidsSeparator(s: string, sep: string, i: nat)
    requires sep != [] && IndexOf(s, sep) == Some(i)
    ensures IndexOf(s[..i], sep).None?
  {
    IndexOfSpec(s, sep);
    var head := s[..i];
    forall j: nat
      ensures !OccursAt(head, sep, j)
    {
      if j + |sep| <= i {
        assert head[j..j + |sep|] == s[j..j + |sep|];
        assert !OccursAt(s, sep, j);
      }
    }
    IndexOfNone(head, sep);
  }

  /**
   * Splitting undoes joining when no piece contains the separator's first
   * character, so a key may hold any other character (a dot under "->").
   */
  lemma {:induction false} SplitJoin(parts: seq<string>, sep: string)
    requires sep != [] && parts != []
    requires forall p :: p in parts ==> sep[0] !in p
    ensures Split(Join(parts, sep), sep) == parts
    ensures SplitOn(Join(parts, sep), sep) == parts
    decreases |parts|
  {
    if |parts| == 1 {
      SplitWhole(parts[0], sep);
    } else {
      SplitJoin(parts[1..], sep);
      SplitAfterPiece(parts[0], Join(parts[1..], sep), sep);
    }
  }

  /** No piece of a split with a non-empty separator contains that separator. */
  lemma {:induction false} SplitPiecesAvoidSeparator(s: string, sep: string)
    requires sep != []
    ensures forall p :: p in SplitOn(s, sep) ==> IndexOf(p, sep).None?
    decreases |s|
  {
    var i := IndexOf(s, sep);
    if i.Some? {
      var rest := s[i.value + |sep|..];
      HeadAvoidsSeparator(s, sep, i.value);
      SplitPiecesAvoidSeparator(rest, sep);
      SplitStep(s, sep, i.value);
      forall p | p in SplitOn(s, sep)
        ensures IndexOf(p, sep).None?
      {
        if p != s[..i.value] {
          assert p in SplitOn(rest, sep);
        }
      }
    } else {
      assert SplitOn(s, sep) == [s];
    }
  }

  /** Position of the last occurrence of `c` in `s` (Go's strings.LastIndexByte). */
  function LastIndexOfChar(s: string, c: char): (r: Option<nat>)
    ensures r.Some? ==> r.value < |s| && s[r.value] == c
    ensures r.Some? ==> forall j :: r.value < j < |s| ==> s[j] != c
    ensures r.None? ==> forall j :: 0 <= j < |s| ==> s[j] != c
  {
    if s == [] then None
    else if s[|s| - 1] == c then Some(|s| - 1)
    else LastIndexOfChar(s[..|s| - 1], c)
  }

  /** No `c` follows the last occurrence of `c`, and a string without one holds none. */
  lemma AfterLastIndex(s: string, c: char)
    ensures match LastIndexOfChar(s, c)
            case None => c !in s
            case Some(i) => c !in s[i + 1..]
  {
    match LastIndexOfChar(s, c)
    case None =>
    case Some(i) =>
      var rest := s[i + 1..];
      forall k | 0 <= k < |rest|
        ensures rest[k] != c
      {
        assert rest[k] == s[i + 1 + k];
      }
  }

  /** The last `c` of `s + [c] + rest` is the one after `s` when `rest` holds no `c`. */
  lemma {:induction false} LastIndexAfter(s: string, c: char, rest: string)
    requires c !in rest
    ensures LastIndexOfChar(s + [c] + rest, c) == Some(|s|)
    decreases |rest|
  {
    var whole := s + [c] + rest;
    if rest != [] {
      var shorter := rest[..|rest| - 1];
      assert c !in shorter by {
        forall k | 0 <= k < |shorter| ensures shorter[k] != c {
          assert shorter[k] == rest[k];
        }
      }
      LastIndexAfter(s, c, shorter);
      assert whole[..|whole| - 1] == s + [c] + shorter;
    }
  }

  /** The text of `s` before its first line break. */
  function FirstLine(s: string): (line: string)
    ensures line <= s
    ensures '\n' !in line
    ensures |line| < |s| ==> s[|line|] == '\n'
    ensures '\n' !in s ==> line == s
  {
    if s == [] || s[0] == '\n' then [] else [s[0]] + FirstLine(s[1..])
  }
}
