/** The string operations the Go and JavaScript sources share. */
module Text {
  const NUL: char := '\0'

  predicate Free(s: string, c: char) {
    forall i :: 0 <= i < |s| ==> s[i] != c
  }

  /** strings.Split and String.split for a one-character separator. */
  function Split(s: string, sep: char): (parts: seq<string>)
    ensures |parts| >= 1
    ensures forall i :: 0 <= i < |parts| ==> Free(parts[i], sep)
  {
    if s == "" then [""]
    else
      var rest := Split(s[1..], sep);
      if s[0] == sep then [""] + rest else [[s[0]] + rest[0]] + rest[1..]
  }

  /** strings.Join and Array.join for a one-character separator. */
  function Join(parts: seq<string>, sep: char): string {
    if |parts| == 0 then ""
    else if |parts| == 1 then parts[0]
    else parts[0] + [sep] + Join(parts[1..], sep)
  }

  lemma {:induction false} SplitFree(s: string, sep: char)
    requires Free(s, sep)
    ensures Split(s, sep) == [s]
  {
    if s != "" {
      SplitFree(s[1..], sep);
      assert [s[0]] + s[1..] == s;
    }
  }

  lemma {:induction false} SplitFirst(c: char, s: string, sep: char)
    ensures Split([c] + s, sep)
            == if c == sep then [""] + Split(s, sep) else [[c] + Split(s, sep)[0]] + Split(s, sep)[1..]
  {
    assert ([c] + s)[1..] == s;
  }

  lemma {:induction false} HeadOfBoth(p: seq<string>, q: seq<string>, c: char)
    requires p != []
    ensures [[c] + (p + q)[0]] + (p + q)[1..] == ([[c] + p[0]] + p[1..]) + q
    ensures [""] + (p + q) == ([""] + p) + q
  {
  }

  /** Splitting at one known separator. */
  lemma {:induction false} SplitAtSeparator(a: string, b: string, sep: char)
    ensures Split(a + [sep] + b, sep) == Split(a, sep) + Split(b, sep)
  {
    hide Split;
    if a == "" {
      assert a + [sep] + b == [sep] + b;
      SplitFirst(sep, b, sep);
      assert Split("", sep) == [""] by { SplitFree("", sep); }
    } else {
      var rest := a[1..] + [sep] + b;
      SplitAtSeparator(a[1..], b, sep);
      assert a + [sep] + b == [a[0]] + rest && a == [a[0]] + a[1..];
      SplitFirst(a[0], rest, sep);
      SplitFirst(a[0], a[1..], sep);
      HeadOfBoth(Split(a[1..], sep), Split(b, sep), a[0]);
    }
  }

  /** Joining parts without the separator and splitting again gives the parts. */
  lemma {:induction false} SplitJoin(parts: seq<string>, sep: char)
    requires |parts| >= 1 && forall i :: 0 <= i < |parts| ==> Free(parts[i], sep)
    ensures Split(Join(parts, sep), sep) == parts
  {
    SplitFree(parts[0], sep);
    if |parts| > 1 {
      SplitJoin(parts[1..], sep);
      SplitAtSeparator(parts[0], Join(parts[1..], sep), sep);
      assert parts == [parts[0]] + parts[1..];
    }
  }

  lemma {:induction false} JoinSplit(s: string, sep: char)
    ensures Join(Split(s, sep), sep) == s
  {
    if s != "" {
      var rest := Split(s[1..], sep);
      JoinSplit(s[1..], sep);
      var parts := Split(s, sep);
      if s[0] == sep {
        assert parts[1..] == rest;
        assert s == [s[0]] + s[1..];
      } else {
        assert parts[1..] == rest[1..];
        assert s == [s[0]] + s[1..];
      }
    }
  }

  /** unicode.IsSpace, the characters strings.TrimSpace removes. */
  predicate IsSpace(c: char) {
    '\t' <= c <= '\r' || c == ' ' || c == '\U{85}' || c == '\U{A0}' || c == '\U{1680}'
    || '\U{2000}' <= c <= '\U{200A}' || c == '\U{2028}' || c == '\U{2029}' || c == '\U{202F}'
    || c == '\U{205F}' || c == '\U{3000}'
  }

  function TrimLeft(s: string): string {
    if s != "" && IsSpace(s[0]) then TrimLeft(s[1..]) else s
  }

  function TrimRight(s: string): string {
    if s != "" && IsSpace(s[|s| - 1]) then TrimRight(s[..|s| - 1]) else s
  }

  function TrimSpace(s: string): string {
    TrimRight(TrimLeft(s))
  }

  /** Neither end of s is white space. */
  predicate Trimmed(s: string) {
    s == "" || (!IsSpace(s[0]) && !IsSpace(s[|s| - 1]))
  }

  lemma {:induction false} TrimLeftShape(s: string) returns (n: nat)
    ensures n <= |s| && TrimLeft(s) == s[n..] && forall k :: 0 <= k < n ==> IsSpace(s[k])
    ensures TrimLeft(s) == "" || !IsSpace(TrimLeft(s)[0])
  {
    hide IsSpace;
    if s != "" && IsSpace(s[0]) {
      n := TrimLeftShape(s[1..]);
      n := n + 1;
    } else {
      n := 0;
    }
  }

  lemma {:induction false} TrimRightShape(s: string) returns (n: nat)
    ensures n <= |s| && TrimRight(s) == s[..n] && forall k :: n <= k < |s| ==> IsSpace(s[k])
    ensures TrimRight(s) == "" || !IsSpace(TrimRight(s)[|TrimRight(s)| - 1])
  {
    hide IsSpace;
    if s != "" && IsSpace(s[|s| - 1]) {
      n := TrimRightShape(s[..|s| - 1]);
    } else {
      n := |s|;
    }
  }

  /** TrimSpace keeps one stretch of s, without white space at its ends. */
  lemma {:induction false} TrimShape(s: string) returns (lo: nat, hi: nat)
    ensures lo <= hi <= |s| && TrimSpace(s) == s[lo..hi]
    ensures Trimmed(TrimSpace(s))
  {
    hide IsSpace;
    lo := TrimLeftShape(s);
    var n := TrimRightShape(TrimLeft(s));
    hi := lo + n;
  }

  /** The stretch TrimSpace keeps is the longest: it has every other that has no white space at its ends. */
  lemma {:induction false} TrimLongest(s: string) returns (lo: nat, hi: nat)
    ensures lo <= hi <= |s| && TrimSpace(s) == s[lo..hi] && Trimmed(s[lo..hi])
    ensures forall a, b :: 0 <= a < b <= |s| && Trimmed(s[a..b]) ==> lo <= a && b <= hi
  {
    hide IsSpace, Trimmed;
    lo, hi := TrimShape(s);
    lo := TrimLeftShape(s);
    var n := TrimRightShape(TrimLeft(s));
    hi := lo + n;
    forall k | hi <= k < |s| ensures IsSpace(s[k]) {
      assert s[k] == TrimLeft(s)[k - lo];
    }
    forall a, b | 0 <= a < b <= |s| && Trimmed(s[a..b]) ensures lo <= a && b <= hi {
      SolidEnds(s, a, b);
    }
  }

  lemma {:induction false} SolidEnds(s: string, a: nat, b: nat)
    requires a < b <= |s| && Trimmed(s[a..b])
    ensures !IsSpace(s[a]) && !IsSpace(s[b - 1])
  {
    hide IsSpace;
  }

  /** TrimSpace changes exactly the strings with white space at an end. */
  lemma {:induction false} TrimFixed(s: string)
    ensures TrimSpace(s) == s <==> Trimmed(s)
  {
    hide IsSpace;
    var lo, hi := TrimShape(s);
  }
}
