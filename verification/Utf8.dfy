/** Cutting UTF-8 text to a byte limit without splitting a code point. Bytes are characters below 256. */
module Utf8 {

  // 10xxxxxx
  predicate IsContinuation(c: char) {
    c as int / 64 == 2
  }

  // Bytes of the code point a lead byte opens, 0 for a byte that opens none.
  function SequenceLength(lead: char): nat {
    var n := lead as int;
    if n / 128 == 0 then 1
    else if n / 32 == 6 then 2
    else if n / 16 == 14 then 3
    else if n / 8 == 30 then 4
    else 0
  }

  /** Well-formed text: lead bytes each followed by their continuation bytes. */
  predicate IsUtf8(s: string) {
    s == "" ||
    var n := SequenceLength(s[0]);
    && 0 < n <= |s| && (forall i | 1 <= i < n :: IsContinuation(s[i])) && IsUtf8(s[n..])
  }

  // What a lead byte announces, by the table in section 3 of RFC 3629.
  function Announced(lead: char): nat {
    var n := lead as int;
    if n <= 0x7F then 1
    else if 0xC0 <= n <= 0xDF then 2
    else if 0xE0 <= n <= 0xEF then 3
    else if 0xF0 <= n <= 0xF7 then 4
    else 0
  }

  predicate IsTable(s: string) {
    s == "" ||
    var n := Announced(s[0]);
    && 0 < n <= |s| && (forall i | 1 <= i < n :: 0x80 <= s[i] as int <= 0xBF) && IsTable(s[n..])
  }

  lemma ByteRanges(c: char)
    ensures SequenceLength(c) == Announced(c) && IsContinuation(c) == (0x80 <= c as int <= 0xBF)
  {
  }

  /** The code's tests of bytes are those of the table. */
  lemma {:induction false} Utf8IsTheTable(s: string)
    ensures IsUtf8(s) <==> IsTable(s)
    decreases |s|
  {
    hide SequenceLength, Announced, IsContinuation;
    if s != "" {
      ByteRanges(s[0]);
      forall i | 1 <= i < |s| ensures IsContinuation(s[i]) == (0x80 <= s[i] as int <= 0xBF) {
        ByteRanges(s[i]);
      }
      if 0 < Announced(s[0]) <= |s| {
        Utf8IsTheTable(s[Announced(s[0])..]);
      }
    }
  }

  // Position behind the last byte that is no continuation.
  function BehindLead(s: string, i: nat): (j: nat)
    requires i <= |s|
    ensures j <= i && (forall k | j <= k < i :: IsContinuation(s[k])) && (j > 0 ==> !IsContinuation(s[j - 1]))
  {
    if i > 0 && IsContinuation(s[i - 1]) then BehindLead(s, i - 1) else i
  }

  // Drops an incomplete or invalid last code point.
  function TrimTail(s: string): string {
    var i := BehindLead(s, |s|);
    if i == 0 then s
    else
      var expected := SequenceLength(s[i - 1]);
      if expected == 0 || |s| - (i - 1) < expected then s[..i - 1] else s
  }

  // What a field of `cap` bytes keeps.
  function Stored(s: string, cap: nat): string {
    if |s| <= cap then s else TrimTail(s[..cap])
  }

  /** The longest prefix of whole code points within the limit. */
  ghost predicate IsLongestPrefix(p: string, s: string, cap: nat) {
    && p <= s && |p| <= cap && IsUtf8(p)
    && forall k | |p| < k <= |s| && k <= cap :: !IsUtf8(s[..k])
  }

  lemma {:induction false} Utf8Prefix(s: string, t: string)
    requires IsUtf8(s)
    ensures IsUtf8(s + t) <==> IsUtf8(t)
    decreases |s|
  {
    if s == "" {
      assert s + t == t;
    } else {
      var n := SequenceLength(s[0]);
      Utf8Prefix(s[n..], t);
      assert (s + t)[n..] == s[n..] + t;
    }
  }

  // The boundary at or before the limit, and the code point that crosses it.
  lemma {:induction false} LastBoundary(s: string, cap: nat) returns (p: nat)
    requires IsUtf8(s) && cap < |s|
    ensures p <= cap && IsUtf8(s[..p]) && IsUtf8(s[p..])
    ensures cap < p + SequenceLength(s[p]) <= |s|
    decreases |s|
  {
    hide *;
    var n := FirstCodePoint(s);
    if cap < n {
      p := 0;
      assert s[0..] == s;
    } else {
      var rest := s[n..];
      var q := LastBoundary(rest, cap - n);
      p := q + n;
      assert s[..p] == s[..n] + rest[..q];
      assert s[p..] == rest[q..] && s[p] == rest[q];
      Utf8Prefix(s[..n], rest[..q]);
    }
  }

  lemma FirstCodePoint(s: string) returns (n: nat)
    requires IsUtf8(s) && s != ""
    ensures n == SequenceLength(s[0]) && 0 < n <= |s|
    ensures IsUtf8("") && IsUtf8(s[..n]) && IsUtf8(s[n..])
    ensures forall i | 1 <= i < n :: IsContinuation(s[i])
  {
    hide SequenceLength, IsContinuation;
    n := SequenceLength(s[0]);
    assert s[..n][n..] == "";
  }

  // Between two boundaries lies at least the code point at the first.
  lemma NextBoundary(s: string, p: nat, k: nat)
    requires p < k <= |s| && IsUtf8(s[..p]) && IsUtf8(s[..k])
    ensures k >= p + SequenceLength(s[p])
  {
    Utf8Prefix(s[..p], s[p..k]);
    assert s[..p] + s[p..k] == s[..k];
  }

  lemma LeadIsNoContinuation(c: char)
    requires SequenceLength(c) > 0
    ensures !IsContinuation(c)
  {
  }

  // The last code point of well-formed text is complete.
  lemma {:induction false} LastIsComplete(s: string)
    requires IsUtf8(s) && s != ""
    ensures var i := BehindLead(s, |s|);
      i > 0 && SequenceLength(s[i - 1]) == |s| - (i - 1)
    decreases |s|
  {
    hide *;
    var n := FirstCodePoint(s);
    LeadIsNoContinuation(s[0]);
    if n < |s| {
      var rest := s[n..];
      LastIsComplete(rest);
      BehindLeadOfSuffix(s, n, |s|);
      var i := BehindLead(rest, |rest|);
      assert rest[i - 1] == s[n + i - 1];
    } else {
      BehindLeadIs(s, |s|, 1);
    }
  }

  lemma {:induction false} BehindLeadIs(s: string, i: nat, j: nat)
    requires 0 < j <= i <= |s| && !IsContinuation(s[j - 1])
    requires forall k | j <= k < i :: IsContinuation(s[k])
    ensures BehindLead(s, i) == j
    decreases i
  {
    if j < i {
      BehindLeadIs(s, i - 1, j);
    }
  }

  lemma BehindLeadOfSuffix(s: string, n: nat, i: nat)
    requires n <= i <= |s| && BehindLead(s[n..], i - n) > 0
    ensures BehindLead(s, i) == n + BehindLead(s[n..], i - n)
  {
    var j := n + BehindLead(s[n..], i - n);
    assert s[n..][j - n - 1] == s[j - 1];
    forall k | j <= k < i ensures IsContinuation(s[k]) {
      assert s[n..][k - n] == s[k];
    }
    BehindLeadIs(s, i, j);
  }

  lemma TrimToBoundary(s: string, cap: nat, p: nat)
    requires p <= cap < |s| && IsUtf8(s[..p]) && IsUtf8(s[p..]) && cap < p + SequenceLength(s[p]) <= |s|
    ensures TrimTail(s[..cap]) == s[..p]
  {
    hide SequenceLength, IsContinuation;
    var cut := s[..cap];
    assert cut[..p] == s[..p];
    if p < cap {
      LeadIsNoContinuation(s[p]);
      forall k | p + 1 <= k < cap ensures IsContinuation(cut[k]) {
        assert s[p..][k - p] == cut[k];
      }
      BehindLeadIs(cut, cap, p + 1);
    } else if cap > 0 {
      LastIsComplete(cut);
    }
  }

  /** For well-formed text the stored part is the longest whole-code-point prefix that fits, for every limit. */
  lemma StoredIsLongestPrefix(s: string, cap: nat)
    requires IsUtf8(s)
    ensures IsLongestPrefix(Stored(s, cap), s, cap)
  {
    hide IsUtf8, TrimTail;
    if |s| > cap {
      var p := LastBoundary(s, cap);
      TrimToBoundary(s, cap, p);
      forall k | p < k <= |s| && k <= cap ensures !IsUtf8(s[..k]) {
        if IsUtf8(s[..k]) {
          NextBoundary(s, p, k);
        }
      }
    } else {
      assert s[..|s|] == s;
    }
  }
}
