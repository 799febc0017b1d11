/** backend/validation.go: the clean-up of titles, names and descriptions. */
module Sanitize {
  import opened Text

  function RemoveNul(s: string): string {
    if s == "" then "" else (if s[0] == NUL then "" else [s[0]]) + RemoveNul(s[1..])
  }

  /** Index of the first c in s at or after from, or |s|. */
  function IndexFrom(s: string, c: char, from: nat): (i: nat)
    requires from <= |s|
    ensures from <= i <= |s|
    ensures i < |s| ==> s[i] == c
    ensures forall k :: from <= k < i ==> s[k] != c
    decreases |s| - from
  {
    if from == |s| || s[from] == c then from else IndexFrom(s, c, from + 1)
  }

  /** s[i..=j] is a match of the regular expression <[^>]+>. */
  predicate TagAt(s: string, i: nat, j: nat) {
    i + 2 <= j < |s| && s[i] == '<' && s[j] == '>' && forall k :: i < k < j ==> s[k] != '>'
  }

  ghost predicate HasTag(s: string) {
    exists i: nat, j: nat :: TagAt(s, i, j)
  }

  /** Length of the match of <[^>]+> that starts at the beginning of s, or 0. */
  function TagLength(s: string): (n: nat)
    ensures n <= |s|
    ensures n > 0 ==> TagAt(s, 0, n - 1)
    ensures n == 0 ==> forall j: nat :: !TagAt(s, 0, j)
  {
    if |s| < 2 || s[0] != '<' || s[1] == '>' then 0
    else
      var i := IndexFrom(s, '>', 1);
      if i < |s| then i + 1 else 0
  }

  /** anyTagRegex.ReplaceAllString(s, ""): removes the matches from left to right. */
  function StripTags(s: string): string
    decreases |s|
  {
    if s == "" then ""
    else if TagLength(s) > 0 then StripTags(s[TagLength(s)..])
    else [s[0]] + StripTags(s[1..])
  }

  function SanitizeString(s: string): string {
    StripTags(TrimSpace(RemoveNul(s)))
  }

  /** The description clean-up of validateIssue: no tag removal. */
  function CleanDescription(s: string): string {
    TrimSpace(RemoveNul(s))
  }

  /** sub is s with some characters left out; picks are the places kept, in order. */
  ghost predicate Picks(sub: string, s: string, picks: seq<nat>) {
    && |picks| == |sub|
    && (forall k :: 0 <= k < |picks| ==> picks[k] < |s| && s[picks[k]] == sub[k])
    && (forall k, l :: 0 <= k < l < |picks| ==> picks[k] < picks[l])
  }

  ghost predicate Subsequence(sub: string, s: string) {
    exists picks :: Picks(sub, s, picks)
  }

  lemma {:induction false} SubsequenceTrans(a: string, b: string, c: string)
    requires Subsequence(a, b) && Subsequence(b, c)
    ensures Subsequence(a, c)
  {
    var p :| Picks(a, b, p);
    var q :| Picks(b, c, q);
    var r := seq(|p|, k requires 0 <= k < |p| => q[p[k]]);
    assert Picks(a, c, r);
  }

  lemma {:induction false} SubsequenceSlice(s: string, lo: nat, hi: nat)
    requires lo <= hi <= |s|
    ensures Subsequence(s[lo..hi], s)
  {
    assert Picks(s[lo..hi], s, seq(hi - lo, k requires 0 <= k => lo + k));
  }

  /** Leaving out the first skip characters, or keeping the first one, extends a subsequence. */
  lemma {:induction false} SubsequenceStep(sub: string, s: string, skip: nat)
    requires skip <= |s| && Subsequence(sub, s[skip..])
    ensures Subsequence(sub, s)
    ensures skip == 1 ==> Subsequence([s[0]] + sub, s)
  {
    var p :| Picks(sub, s[skip..], p);
    var q := seq(|p|, k requires 0 <= k < |p| => p[k] + skip);
    assert Picks(sub, s, q);
    if skip == 1 {
      assert Picks([s[0]] + sub, s, [0] + q);
    }
  }

  lemma {:induction false} RemoveNulSubsequence(s: string)
    ensures Subsequence(RemoveNul(s), s)
  {
    if s == "" {
      assert Picks("", s, []);
    } else {
      RemoveNulSubsequence(s[1..]);
      SubsequenceStep(RemoveNul(s[1..]), s, 1);
      assert s[0] == NUL ==> RemoveNul(s) == RemoveNul(s[1..]);
    }
  }

  lemma {:induction false} RemoveNulFree(s: string)
    ensures Free(RemoveNul(s), NUL)
    ensures Free(s, NUL) ==> RemoveNul(s) == s
  {
    if s != "" {
      RemoveNulFree(s[1..]);
      assert s == [s[0]] + s[1..];
    }
  }

  lemma {:induction false} StripTagsSubsequence(s: string)
    ensures Subsequence(StripTags(s), s)
    decreases |s|
  {
    if s == "" {
      assert Picks("", s, []);
    } else {
      var n := if TagLength(s) > 0 then TagLength(s) else 1;
      StripTagsSubsequence(s[n..]);
      SubsequenceStep(StripTags(s[n..]), s, n);
    }
  }

  lemma {:induction false} TagShift(s: string, n: nat, i: nat, j: nat)
    requires n <= |s|
    ensures TagAt(s[n..], i, j) <==> TagAt(s, i + n, j + n)
  {
    if TagAt(s[n..], i, j) {
      forall k | i + n < k < j + n ensures s[k] != '>' { assert s[k] == s[n..][k - n]; }
    }
  }

  /** Without a match StripTags changes nothing. */
  lemma {:induction false} StripTagsId(s: string)
    requires !HasTag(s)
    ensures StripTags(s) == s
  {
    if s != "" {
      forall i: nat, j: nat ensures !TagAt(s[1..], i, j) { TagShift(s, 1, i, j); }
      StripTagsId(s[1..]);
    }
  }

  /** What StripTags keeps from a string without '>' is the string. */
  lemma {:induction false} StripTagsNoClose(s: string)
    requires Free(s, '>')
    ensures StripTags(s) == s
  {
    if s != "" {
      StripTagsNoClose(s[1..]);
    }
  }

  /** Removing tags never creates a new one, not even across the gap a removed tag leaves. */
  lemma {:induction false} StripTagsClean(s: string)
    ensures !HasTag(StripTags(s))
    decreases |s|
  {
    if s != "" {
      if TagLength(s) > 0 {
        StripTagsClean(s[TagLength(s)..]);
      } else {
        var rest := StripTags(s[1..]);
        StripTagsClean(s[1..]);
        var t := [s[0]] + rest;
        forall i: nat, j: nat ensures !TagAt(t, i, j) {
          if i > 0 && j > 0 {
            assert t[1..] == rest;
            TagShift(t, 1, i - 1, j - 1);
          } else if i == 0 {
            GapSafe(s, j);
          }
        }
      }
    }
  }

  /** If no match starts at the front of s, none starts there once the rest is stripped. */
  lemma {:induction false} GapSafe(s: string, j: nat)
    requires s != "" && TagLength(s) == 0
    ensures !TagAt([s[0]] + StripTags(s[1..]), 0, j)
  {
    if |s| >= 2 && s[0] == '<' {
      if s[1] == '>' {
        assert ([s[0]] + StripTags(s[1..]))[1] == '>';
      } else {
        assert Free(s[1..], '>');
        StripTagsNoClose(s[1..]);
      }
    }
  }

  /** StripTags changes exactly the strings that contain a tag. */
  lemma {:induction false} StripTagsFixed(s: string)
    ensures StripTags(s) == s <==> !HasTag(s)
  {
    StripTagsClean(s);
    if !HasTag(s) {
      StripTagsId(s);
    }
  }

  lemma {:induction false} FreeSubsequence(sub: string, s: string, c: char)
    requires Subsequence(sub, s) && Free(s, c)
    ensures Free(sub, c)
  {
    var p :| Picks(sub, s, p);
  }

  /** The promise of sanitizeString for every string. */
  lemma {:induction false} SanitizeClean(s: string)
    ensures Free(SanitizeString(s), NUL)
    ensures !HasTag(SanitizeString(s))
    ensures Subsequence(SanitizeString(s), s)
    ensures StripTags(SanitizeString(s)) == SanitizeString(s)
  {
    var a := RemoveNul(s);
    var b := TrimSpace(a);
    RemoveNulSubsequence(s);
    RemoveNulFree(s);
    var lo, hi := TrimShape(a);
    SubsequenceSlice(a, lo, hi);
    StripTagsSubsequence(b);
    StripTagsClean(b);
    SubsequenceTrans(StripTags(b), b, a);
    SubsequenceTrans(StripTags(b), a, s);
    FreeSubsequence(StripTags(b), a, NUL);
    StripTagsFixed(StripTags(b));
  }

  /** A string free of NUL and tags survives sanitizeString exactly if no end is white space. */
  lemma {:induction false} SanitizeFixed(s: string)
    requires Free(s, NUL) && !HasTag(s)
    ensures SanitizeString(s) == TrimSpace(s)
    ensures SanitizeString(s) == s <==> Trimmed(s)
  {
    RemoveNulFree(s);
    TrimFixed(s);
    var lo, hi := TrimShape(s);
    SliceHasNoTag(s, lo, hi);
    StripTagsId(TrimSpace(s));
  }

  lemma {:induction false} SliceHasNoTag(s: string, lo: nat, hi: nat)
    requires lo <= hi <= |s| && !HasTag(s)
    ensures !HasTag(s[lo..hi])
  {
    var t := s[lo..hi];
    forall i: nat, j: nat ensures !TagAt(t, i, j) {
      if TagAt(t, i, j) {
        forall k | lo + i < k < lo + j ensures s[k] != '>' { assert s[k] == t[k - lo]; }
        assert TagAt(s, lo + i, lo + j) && HasTag(s);
      }
    }
  }

  /** Position k belongs to no match of the pattern. */
  ghost predicate Outside(t: string, k: nat) {
    k < |t| && forall i: nat, j: nat :: TagAt(t, i, j) ==> k < i || j < k
  }

  ghost predicate FirstOutside(t: string, k: nat) {
    Outside(t, k) && forall a: nat :: a < k ==> !Outside(t, a)
  }

  ghost predicate LastOutside(t: string, k: nat) {
    Outside(t, k) && forall b: nat :: b > k ==> !Outside(t, b)
  }

  /** The first and the last character outside tags, if there are any, are not white space. */
  ghost predicate SolidEdges(t: string) {
    forall k: nat :: k < |t| && (FirstOutside(t, k) || LastOutside(t, k)) ==> !IsSpace(t[k])
  }

  /** What StripTags looks at first: a match, or one character that is kept. */
  function Front(t: string): (n: nat)
    requires t != ""
    ensures 0 < n <= |t|
  {
    if TagLength(t) > 0 then TagLength(t) else 1
  }

  lemma {:induction false} OutsideFront(t: string, k: nat)
    requires t != "" && k < Front(t)
    ensures Outside(t, k) <==> TagLength(t) == 0
  {
    if TagLength(t) > 0 {
      assert TagAt(t, 0, TagLength(t) - 1);
    }
  }

  /** Behind the front, the tags of the text are those of its rest. */
  lemma {:induction false} OutsideRest(t: string, k: nat)
    requires t != "" && k >= Front(t)
    ensures Outside(t, k) <==> Outside(t[Front(t)..], k - Front(t))
  {
    var n := Front(t);
    var rest := t[n..];
    if Outside(t, k) {
      forall i: nat, j: nat | TagAt(rest, i, j) ensures k - n < i || j < k - n {
        TagShift(t, n, i, j);
      }
    }
    if Outside(rest, k - n) {
      forall i: nat, j: nat | TagAt(t, i, j) ensures k < i || j < k {
        if i >= n {
          TagShift(t, n, i - n, j - n);
        }
      }
    }
  }

  /** The characters StripTags keeps first and last are the first and the last outside tags. */
  lemma {:induction false} KeptEdges(t: string) returns (first: nat, last: nat)
    requires StripTags(t) != ""
    ensures first < |t| && last < |t|
    ensures FirstOutside(t, first) && t[first] == StripTags(t)[0]
    ensures LastOutside(t, last) && t[last] == StripTags(t)[|StripTags(t)| - 1]
    decreases |t|
  {
    hide TagAt;
    var n := Front(t);
    var rest := t[n..];
    forall k: nat | k < n ensures Outside(t, k) <==> TagLength(t) == 0 {
      OutsideFront(t, k);
    }
    forall k: nat | k >= n ensures Outside(t, k) <==> Outside(rest, k - n) {
      OutsideRest(t, k);
    }
    if StripTags(rest) == "" {
      NothingKept(rest);
      first, last := 0, 0;
    } else {
      var f, l := KeptEdges(rest);
      first, last := if TagLength(t) > 0 then n + f else 0, n + l;
      forall a: nat | a < first ensures !Outside(t, a) {
        assert a >= n ==> !Outside(rest, a - n);
      }
      forall b: nat | b > last ensures !Outside(t, b) {
        assert !Outside(rest, b - n);
      }
    }
  }

  lemma {:induction false} NothingKept(t: string)
    requires StripTags(t) == ""
    ensures forall k: nat :: !Outside(t, k)
    decreases |t|
  {
    if t != "" {
      NothingKept(t[Front(t)..]);
      forall k: nat ensures !Outside(t, k) {
        if k < Front(t) {
          OutsideFront(t, k);
        } else {
          OutsideRest(t, k);
        }
      }
    }
  }

  function Moved(picks: seq<nat>, n: nat): (r: seq<nat>)
    ensures |r| == |picks| && forall i :: 0 <= i < |r| ==> r[i] == picks[i] + n
  {
    seq(|picks|, i requires 0 <= i < |picks| => picks[i] + n)
  }

  /** The first character, if it is kept, before the picks of the rest. */
  function AllPicks(picks: seq<nat>, n: nat, keep: bool): (r: seq<nat>)
    requires n > 0
    ensures |r| == |picks| + (if keep then 1 else 0) && (keep ==> r[0] == 0)
    ensures forall i :: 0 <= i < |picks| ==> r[i + if keep then 1 else 0] == picks[i] + n
  {
    (if keep then [0] else []) + Moved(picks, n)
  }

  lemma {:induction false} PicksFront(sub: string, s: string, n: nat, rest: seq<nat>, keep: bool)
    requires 0 < n <= |s| && Picks(sub, s[n..], rest)
    ensures Picks((if keep then [s[0]] else []) + sub, s, AllPicks(rest, n, keep))
  {
    hide AllPicks;
    var all, d := AllPicks(rest, n, keep), if keep then 1 else 0;
    var kept := (if keep then [s[0]] else []) + sub;
    forall k | 0 <= k < |all| ensures all[k] < |s| && s[all[k]] == kept[k] {
      if k >= d {
        assert all[k - d + d] == rest[k - d] + n && kept[k] == sub[k - d];
      }
    }
    PicksBehind(all, d, rest, n);
  }

  /** Increasing places stay increasing behind the first one. */
  lemma {:induction false} PicksBehind(all: seq<nat>, d: nat, rest: seq<nat>, n: nat)
    requires d <= 1 && n > 0 && |all| == |rest| + d && (d == 1 ==> all[0] == 0)
    requires forall k :: 0 <= k < |rest| ==> all[k + d] == rest[k] + n
    requires forall k, l :: 0 <= k < l < |rest| ==> rest[k] < rest[l]
    ensures forall k, l :: 0 <= k < l < |all| ==> all[k] < all[l]
  {
    forall k, l | 0 <= k < l < |all| ensures all[k] < all[l] {
      assert all[l] == rest[l - d] + n;
      if k >= d {
        assert all[k] == rest[k - d] + n;
      }
    }
  }

  lemma {:induction false} AllPicksHave(rest: seq<nat>, n: nat, keep: bool, k: nat)
    requires n > 0
    ensures k in AllPicks(rest, n, keep) <==> (keep && k == 0) || (k >= n && k - n in rest)
  {
    hide AllPicks;
    var all, d := AllPicks(rest, n, keep), if keep then 1 else 0;
    if k in all {
      var i :| 0 <= i < |all| && all[i] == k;
      assert i >= d ==> all[i - d + d] == rest[i - d] + n;
    }
    if k >= n && k - n in rest {
      var i :| 0 <= i < |rest| && rest[i] == k - n;
      assert all[i + d] == k;
    }
  }

  /** StripTags keeps exactly the characters outside tags, in order. */
  lemma {:induction false} StripTagsKeeps(t: string) returns (picks: seq<nat>)
    ensures Picks(StripTags(t), t, picks) && forall k: nat :: k in picks <==> Outside(t, k)
    decreases |t|
  {
    hide TagAt, Outside, Picks, AllPicks;
    if t == "" {
      picks := [];
      EmptyPicks();
      NothingKept(t);
    } else {
      var n, keep := Front(t), TagLength(t) == 0;
      var rest := StripTagsKeeps(t[n..]);
      picks := AllPicks(rest, n, keep);
      PicksFront(StripTags(t[n..]), t, n, rest, keep);
      assert StripTags(t) == (if keep then [t[0]] else []) + StripTags(t[n..]);
      forall k: nat ensures k in picks <==> Outside(t, k) {
        AllPicksHave(rest, n, keep, k);
        if k < n { OutsideFront(t, k); } else { OutsideRest(t, k); }
      }
    }
  }

  lemma {:induction false} EmptyPicks()
    ensures Picks("", "", [])
  {
  }

  /** RemoveNul keeps exactly the other characters, in order. */
  lemma {:induction false} RemoveNulKeeps(s: string) returns (picks: seq<nat>)
    ensures Picks(RemoveNul(s), s, picks) && forall k: nat :: k in picks <==> k < |s| && s[k] != NUL
  {
    hide Picks, AllPicks;
    if s == "" {
      picks := [];
      EmptyPicks();
    } else {
      var keep := s[0] != NUL;
      var rest := RemoveNulKeeps(s[1..]);
      picks := AllPicks(rest, 1, keep);
      PicksFront(RemoveNul(s[1..]), s, 1, rest, keep);
      forall k: nat ensures k in picks <==> k < |s| && s[k] != NUL {
        AllPicksHave(rest, 1, keep, k);
      }
    }
  }

  /** u is s without its NULs, and t the longest stretch of u without white space at its ends. */
  ghost predicate Stretch(s: string, u: string, t: string) {
    && (exists picks :: Picks(u, s, picks) && forall k: nat :: k in picks <==> k < |s| && s[k] != NUL)
    && exists lo: nat, hi: nat ::
         && lo <= hi <= |u| && t == u[lo..hi] && Trimmed(t)
         && forall a, b :: 0 <= a < b <= |u| && Trimmed(u[a..b]) ==> lo <= a && b <= hi
  }

  lemma {:induction false} CleanedStretch(s: string)
    ensures Stretch(s, RemoveNul(s), TrimSpace(RemoveNul(s)))
  {
    hide TrimSpace, RemoveNul, Trimmed, Picks;
    var picks := RemoveNulKeeps(s);
    var lo, hi := TrimLongest(RemoveNul(s));
  }

  /**
   * What sanitizeString keeps of any string: with the NULs gone and the white space at the ends, it
   * keeps exactly the characters outside tags, in order.
   */
  lemma {:induction false} SanitizeKeeps(s: string) returns (u: string, t: string, picks: seq<nat>)
    ensures Stretch(s, u, t) && Picks(SanitizeString(s), t, picks) && forall k: nat :: k in picks <==> Outside(t, k)
  {
    hide Stretch, Picks, Outside, TrimSpace, RemoveNul, StripTags;
    u, t := RemoveNul(s), TrimSpace(RemoveNul(s));
    CleanedStretch(s);
    picks := StripTagsKeeps(t);
  }

  /** The description clean-up keeps all of that. */
  lemma {:induction false} CleanDescriptionKeeps(s: string) returns (u: string)
    ensures Stretch(s, u, CleanDescription(s))
  {
    u := RemoveNul(s);
    CleanedStretch(s);
  }

  lemma {:induction false} OneEdge(t: string, j: nat, k: nat)
    ensures FirstOutside(t, j) && FirstOutside(t, k) ==> j == k
    ensures LastOutside(t, j) && LastOutside(t, k) ==> j == k
  {
    hide Outside;
  }

  lemma {:induction false} SolidIsTrimmed(t: string)
    ensures SolidEdges(t) <==> Trimmed(StripTags(t))
  {
    hide StripTags, FirstOutside, LastOutside, IsSpace;
    if StripTags(t) == "" {
      NoEdges(t);
    } else {
      var first, last := KeptEdges(t);
      forall k: nat ensures (FirstOutside(t, k) ==> k == first) && (LastOutside(t, k) ==> k == last) {
        OneEdge(t, k, first);
        OneEdge(t, k, last);
      }
    }
  }

  lemma {:induction false} NoEdges(t: string)
    requires StripTags(t) == ""
    ensures forall k: nat :: !FirstOutside(t, k) && !LastOutside(t, k)
  {
    hide Outside;
    NothingKept(t);
  }

  /**
   * Sanitizing twice equals sanitizing once exactly if, in the trimmed input without NULs, the first
   * and the last character outside tags are not white space.
   */
  lemma {:induction false} SanitizeTwice(s: string)
    ensures SanitizeString(SanitizeString(s)) == SanitizeString(s) <==> SolidEdges(TrimSpace(RemoveNul(s)))
  {
    SanitizeClean(s);
    SanitizeFixed(SanitizeString(s));
    SolidIsTrimmed(TrimSpace(RemoveNul(s)));
  }

  lemma {:induction false} StripLeadingTag(s: string, n: nat)
    requires 2 < n <= |s| && TagAt(s, 0, n - 1) && Free(s[n..], '>')
    ensures StripTags(s) == s[n..]
  {
    StripTagsNoClose(s[n..]);
    assert TagLength(s) == n;
  }

  /** White space behind a leading tag stays when the tag goes: the second pass removes it. */
  lemma {:induction false} SanitizeTwiceDiffers()
    ensures SanitizeString("<b> x") == " x" && SanitizeString(" x") != " x"
  {
    var s, t := "<b> x", " x";
    assert Free(s, NUL) && Trimmed(s) && Free(t, NUL) && !Trimmed(t);
    RemoveNulFree(s);
    TrimFixed(s);
    assert s[3..] == t && TagAt(s, 0, 2);
    hide StripTags, TrimSpace, RemoveNul;
    StripLeadingTag(s, 3);
    assert !HasTag(t);
    SanitizeFixed(t);
  }

  lemma {:induction false} CleanDescriptionShape(s: string)
    ensures Free(CleanDescription(s), NUL) && Trimmed(CleanDescription(s))
  {
    RemoveNulFree(s);
    var lo, hi := TrimShape(RemoveNul(s));
  }

  lemma {:induction false} CleanDescriptionFixed(s: string)
    requires Free(s, NUL) && Trimmed(s)
    ensures CleanDescription(s) == s
  {
    RemoveNulFree(s);
    TrimFixed(s);
  }

  /** The description clean-up is idempotent, unlike the one for titles. */
  lemma {:induction false} CleanDescriptionTwice(s: string)
    ensures CleanDescription(CleanDescription(s)) == CleanDescription(s)
  {
    CleanDescriptionShape(s);
    CleanDescriptionFixed(CleanDescription(s));
  }
}
