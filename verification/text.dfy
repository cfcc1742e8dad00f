/**
  String helpers the application borrows from JavaScript: `String.prototype.trim`
  and `Array.prototype.join`. Strings are sequences of characters.
 */
module Text {
  import opened Outcomes

  /** The characters JavaScript's `trim` strips: the WhiteSpace and LineTerminator
      code points of ECMA-262 (sections 12.2 and 12.3), with the Unicode "Zs"
      (space separator) category spelled out. */
  predicate IsWhitespace(c: char) {
    || c == '\t' || c == '\n' || c == '\U{B}' || c == '\U{C}' || c == '\r'
    || c == ' ' || c == '\U{A0}' || c == '\U{1680}'
    || ('\U{2000}' <= c <= '\U{200A}')
    || c == '\U{2028}' || c == '\U{2029}' || c == '\U{202F}' || c == '\U{205F}'
    || c == '\U{3000}' || c == '\U{FEFF}'
  }

  /** Every character of `s` is whitespace (the empty string included). */
  predicate IsBlank(s: string) {
    forall k :: 0 <= k < |s| ==> IsWhitespace(s[k])
  }

  /** `t` neither starts nor ends with whitespace. */
  predicate IsTrimmed(t: string) {
    |t| == 0 || (!IsWhitespace(t[0]) && !IsWhitespace(t[|t| - 1]))
  }

  /** Everything before `i` and everything from `j` on is whitespace. */
  predicate BlankOutside(s: string, i: int, j: int) {
    && 0 <= i <= j <= |s|
    && (forall k :: 0 <= k < i ==> IsWhitespace(s[k]))
    && (forall k :: j <= k < |s| ==> IsWhitespace(s[k]))
  }

  /** Declarative reading of trim: `t` is the slice `s[i..j]` of `s` with only
      whitespace before `i` and after `j`, and `t` has no whitespace at its
      ends. */
  ghost predicate IsTrimOf(s: string, t: string) {
    && IsTrimmed(t)
    && exists i, j :: BlankOutside(s, i, j) && s[i..j] == t
  }

  /** The index of the first non-whitespace character at or after `i`, or
      `|s|` when there is none. */
  function SkipForward(s: string, i: nat): (n: nat)
    requires i <= |s|
    ensures i <= n <= |s|
    ensures forall k :: i <= k < n ==> IsWhitespace(s[k])
    ensures n < |s| ==> !IsWhitespace(s[n])
    decreases |s| - i
  {
    if i < |s| && IsWhitespace(s[i]) then SkipForward(s, i + 1) else i
  }

  /** The end of the last non-whitespace character before `j`, or `0` when
      there is none. */
  function SkipBackward(s: string, j: nat): (m: nat)
    requires j <= |s|
    ensures m <= j
    ensures forall k :: m <= k < j ==> IsWhitespace(s[k])
    ensures m > 0 ==> !IsWhitespace(s[m - 1])
    decreases j
  {
    if j > 0 && IsWhitespace(s[j - 1]) then SkipBackward(s, j - 1) else j
  }

  /** JavaScript's `s.trim()`: leading and trailing whitespace removed. */
  function Trim(s: string): (r: string)
    ensures IsTrimOf(s, r)
    ensures r == [] <==> IsBlank(s)
  {
    var i := SkipForward(s, 0);
    var j := SkipBackward(s, |s|);
    if i < j then
      var t := s[i..j];
      assert t[0] == s[i] && t[|t| - 1] == s[j - 1];
      CutIsTrim(s, i, j);
      t
    else
      assert IsBlank(s) by {
        forall k | 0 <= k < |s|
          ensures IsWhitespace(s[k])
        {
        }
      }
      CutIsTrim(s, i, i);
      []
  }

  /** Cutting a blank prefix before `i` and a blank suffix from `j` on leaves
      a trim of `s`, provided the slice has no whitespace at its ends. */
  lemma CutIsTrim(s: string, i: int, j: int)
    requires BlankOutside(s, i, j)
    requires IsTrimmed(s[i..j])
    ensures IsTrimOf(s, s[i..j])
  {
  }

  /** `Trim` is the only function meeting the declarative reading: any `t`
      obtained from `s` by cutting blank ends and leaving no whitespace at its
      own ends is `Trim(s)`. */
  lemma TrimUnique(s: string, t: string)
    requires IsTrimOf(s, t)
    ensures Trim(s) == t
  {
    var i, j :| BlankOutside(s, i, j) && s[i..j] == t;
    if i < j {
      assert s[i] == t[0] && s[j - 1] == t[|t| - 1];
      SkipForwardStops(s, i);
      SkipBackwardStops(s, j);
    } else {
      assert IsBlank(s) by {
        forall k | 0 <= k < |s|
          ensures IsWhitespace(s[k])
        {
          if k >= i {
            assert k >= j;
          }
        }
      }
    }
  }

  /** `SkipForward` from the start stops at the first non-whitespace
      character. */
  lemma SkipForwardStops(s: string, i: nat)
    requires i < |s| && !IsWhitespace(s[i])
    requires forall k :: 0 <= k < i ==> IsWhitespace(s[k])
    ensures SkipForward(s, 0) == i
  {
  }

  /** `SkipBackward` from the end stops after the last non-whitespace
      character. */
  lemma SkipBackwardStops(s: string, j: nat)
    requires 0 < j <= |s| && !IsWhitespace(s[j - 1])
    requires forall k :: j <= k < |s| ==> IsWhitespace(s[k])
    ensures SkipBackward(s, |s|) == j
  {
  }

  /** Trimming twice is trimming once. */
  lemma TrimIdempotent(s: string)
    ensures Trim(Trim(s)) == Trim(s)
  {
    var t := Trim(s);
    assert t[0..|t|] == t;
    TrimUnique(t, t);
  }

  /** `Array.prototype.join`: the parts with `sep` between consecutive ones;
      the empty list joins to the empty string. */
  function Join(sep: string, parts: seq<string>): (r: string)
    ensures |parts| > 0 ==> parts[0] <= r
    ensures |parts| > 0 ==> EndsWith(r, parts[|parts| - 1])
    decreases |parts|
  {
    if |parts| == 0 then ""
    else if |parts| == 1 then parts[0]
    else parts[0] + sep + Join(sep, parts[1..])
  }

  /** `x` is a suffix of `s`. */
  predicate EndsWith(s: string, x: string) {
    |x| <= |s| && s[|s| - |x|..] == x
  }

  /** Total length of the parts. */
  function TotalLength(parts: seq<string>): nat
    decreases |parts|
  {
    if |parts| == 0 then 0 else |parts[0]| + TotalLength(parts[1..])
  }

  /** A join is as long as its parts plus one separator between each pair. */
  lemma {:induction false} JoinLength(sep: string, parts: seq<string>)
    ensures |Join(sep, parts)| == TotalLength(parts) + (if |parts| == 0 then 0 else (|parts| - 1) * |sep|)
    decreases |parts|
  {
    if |parts| == 1 {
      assert TotalLength(parts) == |parts[0]| + TotalLength(parts[1..]);
    } else if |parts| > 1 {
      JoinLength(sep, parts[1..]);
      JoinLengthStep(sep, parts);
    }
  }

  /** One step of `JoinLength`: the head adds its own length and one
      separator to the join of the tail. */
  lemma JoinLengthStep(sep: string, parts: seq<string>)
    requires |parts| > 1
    requires |Join(sep, parts[1..])| == TotalLength(parts[1..]) + (|parts| - 2) * |sep|
    ensures |Join(sep, parts)| == TotalLength(parts) + (|parts| - 1) * |sep|
  {
    JoinUnfold(sep, parts);
    assert TotalLength(parts) == |parts[0]| + TotalLength(parts[1..]);
    Distribute(|parts| - 2, |sep|);
  }

  lemma Distribute(n: int, m: int)
    ensures n * m + m == (n + 1) * m
  {
  }

  /** Joining two non-empty lists is joining each and putting one separator
      between the results. */
  lemma {:induction false} JoinAppend(sep: string, xs: seq<string>, ys: seq<string>)
    requires |xs| > 0 && |ys| > 0
    ensures Join(sep, xs + ys) == Join(sep, xs) + sep + Join(sep, ys)
    decreases |xs|
  {
    var x, rest := xs[0], xs[1..];
    ConsAppend(xs, ys);
    JoinUnfold(sep, xs + ys);
    if |xs| == 1 {
      assert rest + ys == ys;
    } else {
      JoinAppend(sep, rest, ys);
      JoinUnfold(sep, xs);
      SeqAssoc(x + sep, Join(sep, rest), sep + Join(sep, ys));
    }
  }

  /** One step of `Join` on a list of two or more parts. */
  lemma JoinUnfold(sep: string, parts: seq<string>)
    requires |parts| > 1
    ensures Join(sep, parts) == parts[0] + sep + Join(sep, parts[1..])
  {
  }

  /** Two parts join around one separator. */
  lemma JoinPair(sep: string, a: string, b: string)
    ensures Join(sep, [a, b]) == a + sep + b
  {
    assert [a, b][1..] == [b];
  }

  /** Head and tail of a concatenation whose first half is non-empty. */
  lemma ConsAppend<T>(xs: seq<T>, ys: seq<T>)
    requires |xs| > 0
    ensures (xs + ys)[0] == xs[0] && (xs + ys)[1..] == xs[1..] + ys
  {
  }

  /** Concatenation is associative. */
  lemma SeqAssoc<T>(p: seq<T>, q: seq<T>, r: seq<T>)
    ensures p + (q + r) == (p + q) + r
  {
  }

  /** Whether `pat` occurs in `s` starting at index `k`. */
  predicate OccursAt(pat: string, s: string, k: nat) {
    k + |pat| <= |s| && s[k..k + |pat|] == pat
  }

  /** The index of the first occurrence of `pat` in `s` at or after `from`. */
  function FindFrom(pat: string, s: string, from: nat): (r: Option<nat>)
    ensures r.Some? ==> from <= r.value && OccursAt(pat, s, r.value)
    ensures r.Some? ==> forall k :: from <= k < r.value ==> !OccursAt(pat, s, k)
    ensures r.None? ==> forall k :: from <= k <= |s| ==> !OccursAt(pat, s, k)
    decreases |s| - from
  {
    if from + |pat| > |s| then None
    else if s[from..from + |pat|] == pat then Some(from)
    else FindFrom(pat, s, from + 1)
  }

  /** `FindFrom` returns the first occurrence: if `pat` occurs at `k` and
      nowhere between `from` and `k`, the search from `from` finds `k`. */
  lemma {:induction false} FindFromFirst(pat: string, s: string, from: nat, k: nat)
    requires from <= k && OccursAt(pat, s, k)
    requires forall i :: from <= i < k ==> !OccursAt(pat, s, i)
    ensures FindFrom(pat, s, from) == Some(k)
    decreases k - from
  {
    if from < k {
      assert !OccursAt(pat, s, from);
      FindFromFirst(pat, s, from + 1, k);
    }
  }
}
