/**
 * The string operations the launcher's scripts rely on (`toLowerCase`,
 * `includes`, `endsWith`, `indexOf`, `replace` with a string pattern and
 * `split` with a string separator), over `seq<char>`.  Lower-casing is ASCII
 * only.
 */
module Text {
  import opened Wrappers

  /** The ASCII lower-case alphabet, in order. */
  const LowerAlphabet: string := "abcdefghijklmnopqrstuvwxyz"

  /** `c.toLowerCase()` restricted to ASCII: the k-th capital becomes the k-th small letter. */
  function LowerChar(c: char): (r: char)
    ensures 'A' <= c <= 'Z' ==> r == LowerAlphabet[c as int - 'A' as int]
    ensures !('A' <= r <= 'Z')
    ensures !('A' <= c <= 'Z') ==> r == c
  {
    if 'A' <= c <= 'Z' then (c as int - 'A' as int + 'a' as int) as char else c
  }

  /** `s.toLowerCase()`, character by character. */
  function Lower(s: string): (r: string)
    ensures |r| == |s|
    ensures forall i :: 0 <= i < |s| ==> r[i] == LowerChar(s[i])
  {
    seq(|s|, i requires 0 <= i < |s| => LowerChar(s[i]))
  }

  /** `pat` occurs in `s` starting at index `i`. */
  predicate OccursAt(s: string, pat: string, i: int)
  {
    0 <= i && i + |pat| <= |s| && s[i..i + |pat|] == pat
  }

  /** `s.startsWith(pre)`. */
  predicate StartsWith(s: string, pre: string)
  {
    |pre| <= |s| && s[..|pre|] == pre
  }

  /** `s.endsWith(suf)`. */
  predicate EndsWith(s: string, suf: string)
  {
    |suf| <= |s| && s[|s| - |suf|..] == suf
  }

  /** The first index from `k` on at which `pat` occurs, if any. */
  function IndexFrom(s: string, pat: string, k: nat): (r: Option<nat>)
    ensures r.Some? ==> k <= r.value && OccursAt(s, pat, r.value)
    ensures forall j :: k <= j && (r.None? || j < r.value) ==> !OccursAt(s, pat, j)
    decreases |s| - k
  {
    if k + |pat| > |s| then None
    else if s[k..k + |pat|] == pat then Some(k)
    else IndexFrom(s, pat, k + 1)
  }

  /** `s.indexOf(pat)`: the first index at which `pat` occurs, if any. */
  function IndexOf(s: string, pat: string): (r: Option<nat>)
    ensures r.Some? ==> OccursAt(s, pat, r.value)
    ensures forall j :: 0 <= j && (r.None? || j < r.value) ==> !OccursAt(s, pat, j)
  {
    IndexFrom(s, pat, 0)
  }

  /** `s.includes(pat)`. */
  predicate Contains(s: string, pat: string)
  {
    IndexOf(s, pat).Some?
  }

  /** There is a position at which `pat` occurs in `s`. */
  ghost predicate Occurs(s: string, pat: string)
  {
    exists i :: OccursAt(s, pat, i)
  }

  lemma ContainsOccurs(s: string, pat: string)
    ensures Contains(s, pat) <==> Occurs(s, pat)
  {
    if Occurs(s, pat) {
      var i :| OccursAt(s, pat, i);
    }
  }

  /** A string that does not contain the one-character string `[c]` has no character equal to `c`. */
  lemma NotContainsChar(s: string, c: char)
    requires !Contains(s, [c])
    ensures forall i :: 0 <= i < |s| ==> s[i] != c
  {
    forall i | 0 <= i < |s|
      ensures s[i] != c
    {
      if s[i] == c {
        assert s[i..i + 1] == [c];
        assert OccursAt(s, [c], i);
      }
    }
  }

  /** An occurrence inside the slice `s[lo..hi]` is an occurrence in `s`, shifted by `lo`. */
  lemma OccursInSlice(s: string, pat: string, lo: nat, hi: nat, j: nat)
    requires lo <= hi <= |s| && OccursAt(s[lo..hi], pat, j)
    ensures OccursAt(s, pat, lo + j) && lo + j + |pat| <= hi
  {
    var t := s[lo..hi];
    var m := |pat|;
    assert j + m <= |t|;
    forall k | 0 <= k < m
      ensures s[lo + j..lo + j + m][k] == pat[k]
    {
      assert pat[k] == t[j..j + m][k] == t[j + k] == s[lo + j + k];
    }
    assert s[lo + j..lo + j + m] == pat;
  }

  /** No occurrence of `pat` lies between `k` and the first occurrence from `k` on. */
  lemma NoneBefore(s: string, pat: string, k: nat, i: nat)
    requires |pat| > 0 && IndexFrom(s, pat, k).Some? && IndexFrom(s, pat, k).value == i
    ensures !Contains(s[k..i], pat)
  {
    var t := s[k..i];
    if IndexOf(t, pat).Some? {
      OccursInSlice(s, pat, k, i, IndexOf(t, pat).value);
    }
  }

  /** No occurrence of `pat` starts at `k` or later when there is none from `k` on. */
  lemma NoneAfter(s: string, pat: string, k: nat)
    requires k <= |s| && IndexFrom(s, pat, k).None?
    ensures !Contains(s[k..], pat)
  {
    var t := s[k..];
    assert t == s[k..|s|];
    if IndexOf(t, pat).Some? {
      OccursInSlice(s, pat, k, |s|, IndexOf(t, pat).value);
    }
  }

  /** `s.replace(pat, rep)` with a string pattern: only the first occurrence is replaced. */
  function ReplaceFirst(s: string, pat: string, rep: string): (r: string)
    ensures !Contains(s, pat) ==> r == s
    ensures StartsWith(s, pat) ==> r == rep + s[|pat|..]
  {
    match IndexOf(s, pat)
    case None => s
    case Some(i) => s[..i] + rep + s[i + |pat|..]
  }

  /** Wherever the first occurrence of `pat` is, that one occurrence is replaced and the rest of `s` kept. */
  lemma ReplaceFirstAt(s: string, pat: string, rep: string, i: nat)
    requires OccursAt(s, pat, i)
    requires forall j :: 0 <= j < i ==> !OccursAt(s, pat, j)
    ensures ReplaceFirst(s, pat, rep) == s[..i] + rep + s[i + |pat|..]
  {
    var k := IndexOf(s, pat);
    assert k.Some? && k.value == i;
  }

  /** The pieces of `s[start..]` split on `sep`. */
  function SplitFrom(s: string, sep: string, start: nat): (r: seq<string>)
    requires |sep| > 0 && start <= |s|
    ensures |r| >= 1
    decreases |s| - start
  {
    var idx := IndexFrom(s, sep, start);
    if idx.None? then [s[start..]] else [s[start..idx.value]] + SplitFrom(s, sep, idx.value + |sep|)
  }

  /** `s.split(sep)` with a non-empty string separator. */
  function Split(s: string, sep: string): (r: seq<string>)
    requires |sep| > 0
    ensures |r| >= 1
  {
    SplitFrom(s, sep, 0)
  }

  /** One step of a split: the piece before the next separator, then the pieces after it. */
  lemma SplitStep(s: string, sep: string, start: nat, i: nat)
    requires |sep| > 0 && start <= |s| && IndexFrom(s, sep, start).Some? && IndexFrom(s, sep, start).value == i
    ensures start <= i && i + |sep| <= |s| && s[i..i + |sep|] == sep
    ensures SplitFrom(s, sep, start) == [s[start..i]] + SplitFrom(s, sep, i + |sep|)
  {
  }

  /** The last step of a split: no separator is left, and the rest is the only piece. */
  lemma SplitEnd(s: string, sep: string, start: nat)
    requires |sep| > 0 && start <= |s|
    ensures |SplitFrom(s, sep, start)| == 1 <==> IndexFrom(s, sep, start).None?
    ensures IndexFrom(s, sep, start).None? ==> SplitFrom(s, sep, start) == [s[start..]]
  {
  }

  /**
   * `split` gives exactly one piece, the whole string, iff the separator does
   * not occur; otherwise the string starts with the first piece and the
   * separator.
   */
  lemma SplitShape(s: string, sep: string)
    requires |sep| > 0
    ensures |Split(s, sep)| == 1 <==> !Contains(s, sep)
    ensures |Split(s, sep)| == 1 ==> Split(s, sep)[0] == s
    ensures |Split(s, sep)| > 1 ==> StartsWith(s, Split(s, sep)[0] + sep)
  {
    SplitEnd(s, sep, 0);
    var idx := IndexOf(s, sep);
    if idx.Some? {
      var i := idx.value;
      SplitStep(s, sep, 0, i);
      assert s[..i + |sep|] == s[..i] + s[i..i + |sep|];
    } else {
      assert s[0..] == s;
    }
  }

  /** No piece contains the separator. */
  predicate PiecesFree(pieces: seq<string>, sep: string)
  {
    forall k :: 0 <= k < |pieces| ==> !Contains(pieces[k], sep)
  }

  lemma PiecesFreeCons(first: string, rest: seq<string>, sep: string)
    requires !Contains(first, sep) && PiecesFree(rest, sep)
    ensures PiecesFree([first] + rest, sep)
  {
    var pieces := [first] + rest;
    forall k | 0 <= k < |pieces|
      ensures !Contains(pieces[k], sep)
    {
      if k > 0 {
        assert pieces[k] == rest[k - 1];
      }
    }
  }

  /** No piece of `s[start..]` split on `sep` contains the separator. */
  lemma {:induction false} SplitFromPiecesFree(s: string, sep: string, start: nat)
    requires |sep| > 0 && start <= |s|
    ensures PiecesFree(SplitFrom(s, sep, start), sep)
    decreases |s| - start
  {
    var idx := IndexFrom(s, sep, start);
    if idx.Some? {
      var i := idx.value;
      SplitStep(s, sep, start, i);
      SplitFromPiecesFree(s, sep, i + |sep|);
      NoneBefore(s, sep, start, i);
      PiecesFreeCons(s[start..i], SplitFrom(s, sep, i + |sep|), sep);
    } else {
      SplitEnd(s, sep, start);
      NoneAfter(s, sep, start);
    }
  }

  /** No piece of a split contains the separator. */
  lemma SplitPiecesFree(s: string, sep: string)
    requires |sep| > 0
    ensures forall k :: 0 <= k < |Split(s, sep)| ==> !Contains(Split(s, sep)[k], sep)
  {
    SplitFromPiecesFree(s, sep, 0);
  }

  /** `parts.join(sep)`. */
  function Join(parts: seq<string>, sep: string): string
    requires |parts| > 0
  {
    if |parts| == 1 then parts[0] else parts[0] + sep + Join(parts[1..], sep)
  }

  lemma JoinCons(p: string, parts: seq<string>, sep: string)
    requires |parts| > 0
    ensures Join([p] + parts, sep) == p + sep + Join(parts, sep)
  {
    assert ([p] + parts)[1..] == parts;
  }

  /** A suffix of a string is the part up to a slice, the slice and the part after it. */
  lemma SliceAround(s: string, start: nat, i: nat, m: nat)
    requires start <= i && i + m <= |s|
    ensures s[start..] == s[start..i] + s[i..i + m] + s[i + m..]
  {
  }

  /** Joining the pieces of `s[start..]` with the separator gives `s[start..]` back. */
  lemma {:induction false} SplitFromJoin(s: string, sep: string, start: nat)
    requires |sep| > 0 && start <= |s|
    ensures Join(SplitFrom(s, sep, start), sep) == s[start..]
    decreases |s| - start
  {
    var idx := IndexFrom(s, sep, start);
    if idx.Some? {
      var i := idx.value;
      SplitStep(s, sep, start, i);
      SplitFromJoin(s, sep, i + |sep|);
      JoinCons(s[start..i], SplitFrom(s, sep, i + |sep|), sep);
      SliceAround(s, start, i, |sep|);
    } else {
      SplitEnd(s, sep, start);
    }
  }

  /** Splitting and joining on the same separator gives the string back. */
  lemma SplitJoin(s: string, sep: string)
    requires |sep| > 0
    ensures Join(Split(s, sep), sep) == s
  {
    SplitFromJoin(s, sep, 0);
    assert s[0..] == s;
  }

  /** The last element of a non-empty sequence (`Array.prototype.pop`'s result). */
  function Last<T>(s: seq<T>): T
    requires |s| > 0
  {
    s[|s| - 1]
  }

  /** A string ends with any occurrence of a pattern followed by the rest of the string. */
  lemma EndsWithOccurrence(s: string, sep: string, i: nat)
    requires OccursAt(s, sep, i)
    ensures EndsWith(s, sep + s[i + |sep|..])
  {
    assert s[i..] == sep + s[i + |sep|..] by {
      assert s[i..][..|sep|] == s[i..i + |sep|];
      assert s[i..][|sep|..] == s[i + |sep|..];
    }
    assert s[|s| - |s[i..]|..] == s[i..];
  }

  lemma LastCons<T>(x: T, rest: seq<T>)
    requires |rest| > 0
    ensures Last([x] + rest) == Last(rest)
  {
  }

  /** The last piece of `s[start..]` split on `sep` ends `s`. */
  lemma {:induction false} SplitFromLastEnds(s: string, sep: string, start: nat)
    requires |sep| > 0 && start <= |s|
    ensures EndsWith(s, Last(SplitFrom(s, sep, start)))
    decreases |s| - start
  {
    var idx := IndexFrom(s, sep, start);
    if idx.None? {
      SplitEnd(s, sep, start);
      assert s[|s| - |s[start..]|..] == s[start..];
    } else {
      var i := idx.value;
      var rest := SplitFrom(s, sep, i + |sep|);
      SplitStep(s, sep, start, i);
      SplitFromLastEnds(s, sep, i + |sep|);
      LastCons(s[start..i], rest);
    }
  }

  /** When `s[start..]` splits into several pieces, the last one follows a separator at the end of `s`. */
  lemma {:induction false} SplitFromLastSep(s: string, sep: string, start: nat)
    requires |sep| > 0 && start <= |s| && |SplitFrom(s, sep, start)| > 1
    ensures EndsWith(s, sep + Last(SplitFrom(s, sep, start)))
    decreases |s| - start
  {
    SplitEnd(s, sep, start);
    var i := IndexFrom(s, sep, start).value;
    var next := i + |sep|;
    var rest := SplitFrom(s, sep, next);
    SplitStep(s, sep, start, i);
    LastCons(s[start..i], rest);
    if |rest| > 1 {
      SplitFromLastSep(s, sep, next);
    } else {
      SplitEnd(s, sep, next);
      EndsWithOccurrence(s, sep, i);
    }
  }

  /** The last piece of a split is what follows the last separator. */
  lemma SplitLast(s: string, sep: string)
    requires |sep| > 0
    ensures EndsWith(s, Last(Split(s, sep)))
    ensures |Split(s, sep)| > 1 ==> EndsWith(s, sep + Last(Split(s, sep)))
  {
    SplitFromLastEnds(s, sep, 0);
    if |Split(s, sep)| > 1 {
      SplitFromLastSep(s, sep, 0);
    }
  }

  /** No character of `s` is `c`. */
  predicate FreeOf(s: string, c: char)
  {
    forall k :: 0 <= k < |s| ==> s[k] != c
  }

  /** When two suffixes of `s` each follow a `c`, the longer one has that `c` of the shorter one inside it. */
  lemma SeparatorInsideLonger(s: string, c: char, a: string, b: string)
    requires EndsWith(s, [c] + a) && EndsWith(s, [c] + b)
    ensures |a| < |b| ==> b[|b| - |a| - 1] == c
  {
    if |a| < |b| {
      var sa, sb := s[|s| - |a| - 1..], s[|s| - |b| - 1..];
      assert b[|b| - |a| - 1] == sb[|b| - |a|] == s[|s| - |a| - 1] == sa[0];
    }
  }

  /**
   * Two suffixes of `s` that both follow a `c` and contain no `c` are the
   * same: the text after the last `c` is unique.
   */
  lemma SuffixAfterLast(s: string, c: char, a: string, b: string)
    requires EndsWith(s, [c] + a) && EndsWith(s, [c] + b)
    requires FreeOf(a, c) && FreeOf(b, c)
    ensures a == b
  {
    var sa, sb := s[|s| - |a| - 1..], s[|s| - |b| - 1..];
    SeparatorInsideLonger(s, c, a, b);
    SeparatorInsideLonger(s, c, b, a);
    assert |a| == |b|;
    assert sa == sb;
    assert a == sa[1..] == sb[1..] == b;
  }
}
