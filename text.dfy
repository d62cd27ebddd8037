/**
  The two string rewrites the generator relies on, as JavaScript defines them
  for a literal (non-regular-expression) search string:
  - `s.replace(pat, rep)` replaces the first occurrence of `pat` only;
  - `s.replaceAll(pat, rep)` (and `replace` with a global regular expression
    that matches one literal) scans `s` once from left to right and replaces
    every occurrence it meets, without overlap; text produced by a
    replacement is never scanned again.
 */
module Text {
  import opened Wrappers

  /** `pat` occurs in `s` starting at index `i`. */
  predicate OccursAt(s: string, pat: string, i: nat)
  {
    i <= |s| && pat <= s[i..]
  }

  /** `pat` occurs somewhere in `s` (`s.includes(pat)`). */
  predicate Contains(s: string, pat: string)
    decreases |s|
  {
    pat <= s || (s != [] && Contains(s[1..], pat))
  }

  lemma OccursAtShift(s: string, pat: string, i: nat)
    requires s != []
    ensures OccursAt(s[1..], pat, i) <==> OccursAt(s, pat, i + 1)
  {
    if i + 1 <= |s| {
      assert s[1..][i..] == s[i + 1..];
    }
  }

  lemma OccursAtAppend(a: string, b: string, pat: string, i: nat)
    ensures OccursAt(a + b, pat, |a| + i) <==> OccursAt(b, pat, i)
  {
    if i <= |b| {
      assert (a + b)[|a| + i..] == b[i..];
    }
  }

  /** The recursive `Contains` is the usual "some index matches". */
  lemma {:induction false} ContainsIff(s: string, pat: string)
    ensures Contains(s, pat) <==> exists i: nat :: OccursAt(s, pat, i)
    decreases |s|
  {
    if pat <= s {
      assert OccursAt(s, pat, 0);
    } else if s == [] {
      forall i: nat ensures !OccursAt(s, pat, i) {
      }
    } else {
      ContainsIff(s[1..], pat);
      if Contains(s[1..], pat) {
        var i: nat :| OccursAt(s[1..], pat, i);
        OccursAtShift(s, pat, i);
      } else {
        forall i: nat ensures !OccursAt(s, pat, i) {
          if i > 0 {
            OccursAtShift(s, pat, i - 1);
          }
        }
      }
    }
  }

  /** The index of the first occurrence (`s.indexOf(pat)`, `None` for -1). */
  function FirstIndex(s: string, pat: string): Option<nat>
    decreases |s|
  {
    if pat <= s then Some(0)
    else if s == [] then None
    else
      match FirstIndex(s[1..], pat)
      case None => None
      case Some(i) => Some(i + 1)
  }

  /** `FirstIndex` finds an occurrence exactly when there is one, and finds the first. */
  lemma {:induction false} FirstIndexSpec(s: string, pat: string)
    ensures FirstIndex(s, pat).Some? <==> Contains(s, pat)
    ensures FirstIndex(s, pat).Some? ==> OccursAt(s, pat, FirstIndex(s, pat).value)
    ensures FirstIndex(s, pat).Some? ==> forall j: nat :: j < FirstIndex(s, pat).value ==> !OccursAt(s, pat, j)
    decreases |s|
  {
    if !(pat <= s) && s != [] {
      FirstIndexSpec(s[1..], pat);
      match FirstIndex(s[1..], pat)
      case None =>
      case Some(i) =>
        OccursAtShift(s, pat, i);
        assert !OccursAt(s, pat, 0);
        forall j: nat | 0 < j <= i ensures !OccursAt(s, pat, j) {
          OccursAtShift(s, pat, j - 1);
        }
    }
  }

  /** `s.replace(pat, rep)`: only the first occurrence is replaced. */
  function ReplaceFirst(s: string, pat: string, rep: string): string
  {
    FirstIndexSpec(s, pat);
    match FirstIndex(s, pat)
    case None => s
    case Some(i) => s[..i] + rep + s[i + |pat|..]
  }

  /** Without an occurrence `replace` changes nothing; with one it swaps `pat` for `rep` once. */
  lemma ReplaceFirstSpec(s: string, pat: string, rep: string)
    ensures !Contains(s, pat) ==> ReplaceFirst(s, pat, rep) == s
    ensures Contains(s, pat) ==> |ReplaceFirst(s, pat, rep)| == |s| - |pat| + |rep|
  {
    FirstIndexSpec(s, pat);
  }

  /** `s.replaceAll(pat, rep)`: one left-to-right pass, no overlaps. */
  function ReplaceAll(s: string, pat: string, rep: string): string
    requires pat != []
    decreases |s|
  {
    if s == [] then []
    else if pat <= s then rep + ReplaceAll(s[|pat|..], pat, rep)
    else [s[0]] + ReplaceAll(s[1..], pat, rep)
  }

  /** How many occurrences the left-to-right pass of `ReplaceAll` replaces. */
  function Count(s: string, pat: string): nat
    requires pat != []
    decreases |s|
  {
    if s == [] then 0
    else if pat <= s then 1 + Count(s[|pat|..], pat)
    else Count(s[1..], pat)
  }

  /** A pattern longer than the text does not occur in it. */
  lemma {:induction false} TooShortToContain(s: string, pat: string)
    requires |s| < |pat|
    ensures !Contains(s, pat)
    decreases |s|
  {
    if s != [] {
      TooShortToContain(s[1..], pat);
    }
  }

  /** The pass replaces nothing exactly when the pattern does not occur. */
  lemma {:induction false} CountZeroIff(s: string, pat: string)
    requires pat != []
    ensures Count(s, pat) == 0 <==> !Contains(s, pat)
    decreases |s|
  {
    if s != [] && !(pat <= s) {
      CountZeroIff(s[1..], pat);
    }
  }

  /** Each replacement changes the length by `|rep| - |pat|`. */
  lemma {:induction false} ReplaceAllLength(s: string, pat: string, rep: string)
    requires pat != []
    ensures |ReplaceAll(s, pat, rep)| == |s| + Count(s, pat) * (|rep| - |pat|)
    decreases |s|
  {
    if s == [] {
    } else if pat <= s {
      var t := s[|pat|..];
      ReplaceAllLength(t, pat, rep);
      assert |ReplaceAll(s, pat, rep)| == |rep| + |ReplaceAll(t, pat, rep)|;
      assert Count(s, pat) == Count(t, pat) + 1;
      assert |s| == |pat| + |t|;
      MultiplySuccessor(Count(t, pat), |rep| - |pat|);
    } else {
      ReplaceAllLength(s[1..], pat, rep);
    }
  }

  lemma MultiplySuccessor(n: nat, d: int)
    ensures (n + 1) * d == n * d + d
  {
  }

  /** A text without the pattern passes through unchanged. */
  lemma {:induction false} ReplaceAllUnchanged(s: string, pat: string, rep: string)
    requires pat != []
    ensures !Contains(s, pat) ==> ReplaceAll(s, pat, rep) == s
    decreases |s|
  {
    if s != [] {
      ReplaceAllUnchanged(s[1..], pat, rep);
    }
  }

  /** A pass whose replacement is no longer than the pattern never lengthens the text. */
  lemma {:induction false} ReplaceAllNeverLonger(s: string, pat: string, rep: string)
    requires pat != [] && |rep| <= |pat|
    ensures |ReplaceAll(s, pat, rep)| <= |s|
    decreases |s|
  {
    if s != [] {
      if pat <= s {
        ReplaceAllNeverLonger(s[|pat|..], pat, rep);
      } else {
        ReplaceAllNeverLonger(s[1..], pat, rep);
      }
    }
  }

  /** A pass whose replacement is no shorter than the pattern never shortens the text. */
  lemma {:induction false} ReplaceAllNeverShorter(s: string, pat: string, rep: string)
    requires pat != [] && |rep| >= |pat|
    ensures |ReplaceAll(s, pat, rep)| >= |s|
    decreases |s|
  {
    if s != [] {
      if pat <= s {
        ReplaceAllNeverShorter(s[|pat|..], pat, rep);
      } else {
        ReplaceAllNeverShorter(s[1..], pat, rep);
      }
    }
  }

  /** A removal (or shortening) pass strictly shortens a text that contains the pattern. */
  lemma {:induction false} ReplaceAllShortens(s: string, pat: string, rep: string)
    requires pat != [] && |rep| < |pat|
    requires Contains(s, pat)
    ensures |ReplaceAll(s, pat, rep)| < |s|
    decreases |s|
  {
    if pat <= s {
      ReplaceAllNeverLonger(s[|pat|..], pat, rep);
    } else {
      ReplaceAllShortens(s[1..], pat, rep);
    }
  }

  /** A lengthening pass strictly lengthens a text that contains the pattern. */
  lemma {:induction false} ReplaceAllLengthens(s: string, pat: string, rep: string)
    requires pat != [] && |rep| > |pat|
    requires Contains(s, pat)
    ensures |ReplaceAll(s, pat, rep)| > |s|
    decreases |s|
  {
    if pat <= s {
      ReplaceAllNeverShorter(s[|pat|..], pat, rep);
    } else {
      ReplaceAllLengthens(s[1..], pat, rep);
    }
  }

  /** A first occurrence past the start is a first occurrence in the tail. */
  lemma FirstIndexOfTail(s: string, pat: string, i: nat)
    requires FirstIndex(s, pat) == Some(i)
    requires !(pat <= s)
    ensures s != [] && 1 <= i && FirstIndex(s[1..], pat) == Some(i - 1)
  {
  }

  /**
    The pass is "find the first occurrence, replace it, continue after it":
    the text before the first match is kept, and scanning resumes right
    after the matched pattern in the original text.
   */
  lemma {:induction false} ReplaceAllAtFirstIndex(s: string, pat: string, rep: string, i: nat)
    requires pat != []
    requires FirstIndex(s, pat) == Some(i)
    ensures i + |pat| <= |s|
    ensures ReplaceAll(s, pat, rep) == s[..i] + rep + ReplaceAll(s[i + |pat|..], pat, rep)
    decreases |s|
  {
    if pat <= s {
      assert i == 0 && s[..0] == [];
      assert ReplaceAll(s, pat, rep) == s[..i] + rep + ReplaceAll(s[i + |pat|..], pat, rep);
    } else {
      FirstIndexOfTail(s, pat, i);
      ReplaceAllAtFirstIndex(s[1..], pat, rep, i - 1);
      ReplaceAllAfterUnmatchedHead(s, pat, rep, i);
    }
  }

  /** One unmatched character in front of a text whose first replacement is at `i - 1`. */
  lemma ReplaceAllAfterUnmatchedHead(s: string, pat: string, rep: string, i: nat)
    requires pat != [] && s != [] && !(pat <= s) && 1 <= i && i - 1 + |pat| <= |s| - 1
    requires ReplaceAll(s[1..], pat, rep) == s[1..][..i - 1] + rep + ReplaceAll(s[1..][i - 1 + |pat|..], pat, rep)
    ensures ReplaceAll(s, pat, rep) == s[..i] + rep + ReplaceAll(s[i + |pat|..], pat, rep)
  {
    var rest := ReplaceAll(s[i + |pat|..], pat, rep);
    assert s[1..][i - 1 + |pat|..] == s[i + |pat|..];
    assert ReplaceAll(s, pat, rep) == [s[0]] + ((s[1..][..i - 1] + rep) + rest);
    KeptHeadRegroups(s, i, rep, rest);
  }

  /** Regrouping the output of one unmatched step: the kept character joins the kept head. */
  lemma KeptHeadRegroups(s: string, i: nat, rep: string, rest: string)
    requires 1 <= i <= |s|
    ensures [s[0]] + ((s[1..][..i - 1] + rep) + rest) == s[..i] + rep + rest
  {
    assert s[..i] == [s[0]] + s[1..][..i - 1];
  }

  /** The occurrence `indexOf` finds is the first one the pass replaces. */
  lemma {:induction false} CountAtFirstIndex(s: string, pat: string, i: nat)
    requires pat != []
    requires FirstIndex(s, pat) == Some(i)
    ensures i + |pat| <= |s|
    ensures Count(s, pat) == 1 + Count(s[i + |pat|..], pat)
    decreases |s|
  {
    if !(pat <= s) {
      FirstIndexOfTail(s, pat, i);
      CountAtFirstIndex(s[1..], pat, i - 1);
      CountAfterUnmatchedHead(s, pat, i);
    }
  }

  /** One unmatched character in front of a text whose first replacement is at `i - 1`. */
  lemma CountAfterUnmatchedHead(s: string, pat: string, i: nat)
    requires pat != [] && s != [] && !(pat <= s) && 1 <= i && i - 1 + |pat| <= |s| - 1
    requires Count(s[1..], pat) == 1 + Count(s[1..][i - 1 + |pat|..], pat)
    ensures Count(s, pat) == 1 + Count(s[i + |pat|..], pat)
  {
    assert s[1..][i - 1 + |pat|..] == s[i + |pat|..];
  }

  /** `replace` and `replaceAll` agree when the pattern occurs at most once. */
  lemma ReplaceFirstIsReplaceAll(s: string, pat: string, rep: string)
    requires pat != []
    requires Count(s, pat) <= 1
    ensures ReplaceFirst(s, pat, rep) == ReplaceAll(s, pat, rep)
  {
    match FirstIndex(s, pat)
    case None =>
      FirstIndexSpec(s, pat);
      ReplaceAllUnchanged(s, pat, rep);
    case Some(i) =>
      OnlyOccurrence(s, pat, i);
      ReplaceAllUnchanged(s[i + |pat|..], pat, rep);
      ReplaceAllAtFirstIndex(s, pat, rep, i);
  }

  /** With at most one replacement, the text after the first occurrence holds no other. */
  lemma OnlyOccurrence(s: string, pat: string, i: nat)
    requires pat != []
    requires Count(s, pat) <= 1
    requires FirstIndex(s, pat) == Some(i)
    ensures i + |pat| <= |s| && !Contains(s[i + |pat|..], pat)
  {
    CountAtFirstIndex(s, pat, i);
    CountZeroIff(s[i + |pat|..], pat);
  }

  /**
    If the output of a pass has a prefix `w` that never contains the first
    character of the replacement, then `w` was already a prefix of the input.
   */
  lemma {:induction false} PrefixSurvives(t: string, pat: string, rep: string, w: string)
    requires pat != [] && rep != []
    requires w <= ReplaceAll(t, pat, rep)
    requires forall k :: 0 <= k < |w| ==> w[k] != rep[0]
    ensures w <= t
    decreases |t|
  {
    if w != [] {
      var r := ReplaceAll(t, pat, rep);
      assert w[0] == r[0] && w[0] != rep[0];
      assert pat <= t ==> rep <= r;
      assert t != [] && !(pat <= t);
      var r' := ReplaceAll(t[1..], pat, rep);
      assert r == [t[0]] + r';
      assert w[1..] <= r';
      PrefixSurvives(t[1..], pat, rep, w[1..]);
    }
  }

  /**
    A pass whose replacement does not start with a character of `pat` leaves
    no occurrence of `pat` at the very start of its output, unless the input
    itself starts with `pat`.
   */
  lemma NoMatchAtStart(s: string, pat: string, rep: string)
    requires pat != [] && rep != []
    requires forall k :: 0 <= k < |pat| ==> pat[k] != rep[0]
    ensures OccursAt(ReplaceAll(s, pat, rep), pat, 0) ==> pat <= s
  {
    var r := ReplaceAll(s, pat, rep);
    if OccursAt(r, pat, 0) && s != [] && !(pat <= s) {
      var r' := ReplaceAll(s[1..], pat, rep);
      assert r == [s[0]] + r';
      assert pat[1..] <= r';
      PrefixSurvives(s[1..], pat, rep, pat[1..]);
    }
  }

  /**
    A renaming `pat` -> `pre + pat` is complete: after the pass, every
    occurrence of `pat` is the tail of a fresh `pre + pat`. This needs the
    first character of `pre` not to occur in `pat`, and the first character
    of `pat` to occur in `pre + pat` only where `pat` itself begins.
   */
  lemma {:induction false} RenameIsComplete(s: string, pat: string, pre: string, i: nat)
    requires pat != [] && pre != []
    requires forall k :: 0 <= k < |pat| ==> pat[k] != pre[0]
    requires forall k :: 0 < k < |pre| ==> pre[k] != pat[0]
    requires forall k :: 0 < k < |pat| ==> pat[k] != pat[0]
    requires OccursAt(ReplaceAll(s, pat, pre + pat), pat, i)
    ensures |pre| <= i && OccursAt(ReplaceAll(s, pat, pre + pat), pre + pat, i - |pre|)
    decreases |s|, 1
  {
    assert s != [];
    if pat <= s {
      RenameAtMatch(s, pat, pre, i);
    } else {
      RenameAfterUnmatched(s, pat, pre, i);
    }
  }

  /** `RenameIsComplete` when the text starts with a match. */
  lemma {:induction false} RenameAtMatch(s: string, pat: string, pre: string, i: nat)
    requires pat != [] && pre != [] && pat <= s
    requires forall k :: 0 <= k < |pat| ==> pat[k] != pre[0]
    requires forall k :: 0 < k < |pre| ==> pre[k] != pat[0]
    requires forall k :: 0 < k < |pat| ==> pat[k] != pat[0]
    requires OccursAt(ReplaceAll(s, pat, pre + pat), pat, i)
    ensures |pre| <= i && OccursAt(ReplaceAll(s, pat, pre + pat), pre + pat, i - |pre|)
    decreases |s|, 0
  {
    var rep := pre + pat;
    var r := ReplaceAll(s, pat, rep);
    var r' := ReplaceAll(s[|pat|..], pat, rep);
    assert r == rep + r';
    if i >= |rep| {
      OccursAtAppend(rep, r', pat, i - |rep|);
      RenameIsComplete(s[|pat|..], pat, pre, i - |rep|);
      OccursAtAppend(rep, r', rep, i - |rep| - |pre|);
    } else {
      assert r[i] == pat[0] && r[i] == rep[i];
      assert pat[0] != pre[0];
      assert forall k :: 0 <= k < |pre| ==> rep[k] == pre[k];
      assert forall k :: |pre| <= k < |rep| ==> rep[k] == pat[k - |pre|];
      assert i == |pre|;
      assert rep <= r;
    }
  }

  /** `RenameIsComplete` when the first character of the text is kept. */
  lemma {:induction false} RenameAfterUnmatched(s: string, pat: string, pre: string, i: nat)
    requires pat != [] && pre != [] && s != [] && !(pat <= s)
    requires forall k :: 0 <= k < |pat| ==> pat[k] != pre[0]
    requires forall k :: 0 < k < |pre| ==> pre[k] != pat[0]
    requires forall k :: 0 < k < |pat| ==> pat[k] != pat[0]
    requires OccursAt(ReplaceAll(s, pat, pre + pat), pat, i)
    ensures |pre| <= i && OccursAt(ReplaceAll(s, pat, pre + pat), pre + pat, i - |pre|)
    decreases |s|, 0
  {
    var rep := pre + pat;
    var r' := ReplaceAll(s[1..], pat, rep);
    assert ReplaceAll(s, pat, rep) == [s[0]] + r';
    NoMatchAtStart(s, pat, rep);
    assert i >= 1;
    OccursAtAppend([s[0]], r', pat, i - 1);
    RenameIsComplete(s[1..], pat, pre, i - 1);
    OccursAtAppend([s[0]], r', rep, i - 1 - |pre|);
  }
}
