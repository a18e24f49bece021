// Boyer-Moore search of the recovery updater (recovery/recovery_updater.cpp).
//
// The tables and the search are the source's loops over arrays.  They are proved equal to a
// functional description of what they compute, and the search theorems are lemmas about that
// description: any reported position is an occurrence, and the search is the leftmost-occurrence
// function exactly for the patterns that are border-free or made of one repeated character.
module BoyerMoore {
  import opened Wrappers

  const ALPHABET_LEN := 256
  const INT_MAX := 0x7fff_ffff

  type Byte = b: int | 0 <= b < 256

  // ----- Occurrences, borders and suffix re-occurrences -----

  ghost predicate AgreesAt(text: seq<Byte>, pat: seq<Byte>, s: nat, t: nat)
    requires t < |pat| && s + t < |text|
  {
    text[s + t] == pat[t]
  }

  ghost predicate RepeatsAt(pat: seq<Byte>, k: nat, t: nat)
    requires k <= t < |pat|
  {
    pat[t - k] == pat[t]
  }

  // pat[j..] agrees with text when pat is aligned at s
  ghost predicate MatchesFrom(text: seq<Byte>, pat: seq<Byte>, s: nat, j: nat) {
    s + |pat| <= |text| && forall t :: j <= t < |pat| ==> AgreesAt(text, pat, s, t)
  }

  // pat[from..] repeats, character by character, what stands k places to its left
  ghost predicate RepeatsFrom(pat: seq<Byte>, k: nat, from: nat) {
    k <= from && forall t :: from <= t < |pat| ==> RepeatsAt(pat, k, t)
  }

  ghost predicate OccursAt(text: seq<Byte>, pat: seq<Byte>, s: nat) {
    MatchesFrom(text, pat, s, 0)
  }

  // pat[q..] is a prefix of pat
  ghost predicate BorderAt(pat: seq<Byte>, q: nat) {
    q < |pat| && RepeatsFrom(pat, q, q)
  }

  // No proper non-empty prefix of pat is also a suffix of it
  ghost predicate Unbordered(pat: seq<Byte>) {
    forall q :: 1 <= q < |pat| ==> !BorderAt(pat, q)
  }

  ghost predicate Constant(pat: seq<Byte>) {
    forall t :: 0 <= t < |pat| ==> pat[t] == pat[0]
  }

  ghost predicate NulFree(pat: seq<Byte>) {
    forall t :: 0 <= t < |pat| ==> pat[t] != 0
  }

  // The suffix after j re-occurs k places to the left, preceded by a character other than pat[j]
  ghost predicate Reoccurs(pat: seq<Byte>, j: nat, k: nat) {
    1 <= k <= j < |pat| && pat[j - k] != pat[j] && RepeatsFrom(pat, k, j + 1)
  }

  lemma MatchesAtIndex(text: seq<Byte>, pat: seq<Byte>, s: nat, j: nat, t: nat)
    requires MatchesFrom(text, pat, s, j) && j <= t < |pat|
    ensures text[s + t] == pat[t]
  {
    assert AgreesAt(text, pat, s, t);
  }

  lemma RepeatsAtIndex(pat: seq<Byte>, k: nat, from: nat, t: nat)
    requires RepeatsFrom(pat, k, from) && from <= t < |pat|
    ensures pat[t - k] == pat[t]
  {
    assert RepeatsAt(pat, k, t);
  }

  // r is the first occurrence at or after s, or None when there is none
  ghost predicate IsLeftmostFrom(text: seq<Byte>, pat: seq<Byte>, s: nat, r: Option<nat>) {
    match r
    case Some(p) => s <= p && OccursAt(text, pat, p) && forall k :: s <= k < p ==> !OccursAt(text, pat, k)
    case None => forall k :: s <= k ==> !OccursAt(text, pat, k)
  }

  // ----- What the tables hold -----

  // C's strncmp(a, b, n) == 0: equal up to n characters or up to a common NUL
  predicate StrncmpIsZero(a: seq<Byte>, b: seq<Byte>, n: nat)
    requires n <= |a| && n <= |b|
    decreases n
  {
    n == 0 || (a[0] == b[0] && (a[0] == 0 || StrncmpIsZero(a[1..], b[1..], n - 1)))
  }

  predicate PrefixHit(pat: seq<Byte>, q: nat)
    requires q < |pat|
  {
    StrncmpIsZero(pat[q..], pat, |pat| - q)
  }

  // The largest index below n holding c, or -1
  ghost function LastIndexBelow(pat: seq<Byte>, c: Byte, n: nat): (r: int)
    requires n <= |pat|
    ensures -1 <= r < n
    ensures r >= 0 ==> pat[r] == c
  {
    if n == 0 then -1 else if pat[n - 1] == c then n - 1 else LastIndexBelow(pat, c, n - 1)
  }

  lemma {:induction false} LastIndexBelowIsLast(pat: seq<Byte>, c: Byte, n: nat, t: nat)
    requires n <= |pat| && LastIndexBelow(pat, c, n) < t < n
    ensures pat[t] != c
  {
    if t < n - 1 { LastIndexBelowIsLast(pat, c, n - 1, t); }
  }

  // Bad-character distance: from the last character of pat back to the closest earlier c
  ghost function Delta1(pat: seq<Byte>, c: Byte): (d: int)
    requires pat != []
    ensures 1 <= d <= |pat|
  {
    |pat| - 1 - LastIndexBelow(pat, c, |pat| - 1)
  }

  // One past the closest prefix-suffix at or after j, or |pat| - 1 when there is none
  ghost function PrefixShift(pat: seq<Byte>, j: nat): (d: nat)
    requires j < |pat|
    ensures 1 <= d <= |pat|
    decreases |pat| - j
  {
    if PrefixHit(pat, j) then j + 1
    else if j == |pat| - 1 then (HitAtZero(pat); |pat| - 1)
    else PrefixShift(pat, j + 1)
  }

  lemma {:induction false} PrefixShiftMeaning(pat: seq<Byte>, j: nat)
    requires j < |pat|
    ensures var d := PrefixShift(pat, j);
            || (j < d && PrefixHit(pat, d - 1) && forall q :: j <= q < d - 1 ==> !PrefixHit(pat, q))
            || (d == |pat| - 1 && forall q :: j <= q < |pat| ==> !PrefixHit(pat, q))
    decreases |pat| - j
  {
    if !PrefixHit(pat, j) && j < |pat| - 1 {
      PrefixShiftMeaning(pat, j + 1);
    }
  }

  lemma {:induction false} StrncmpSelf(a: seq<Byte>, n: nat)
    requires n <= |a|
    ensures StrncmpIsZero(a, a, n)
    decreases n
  {
    if n > 0 { StrncmpSelf(a[1..], n - 1); }
  }

  lemma HitAtZero(pat: seq<Byte>)
    requires pat != []
    ensures PrefixHit(pat, 0)
  {
    assert pat[0..] == pat;
    StrncmpSelf(pat, |pat|);
  }

  // The smallest k >= lo at which the suffix after j re-occurs; the prefix rule when there is none
  ghost function GoodSuffixShift(pat: seq<Byte>, j: nat, lo: nat): (d: nat)
    requires j < |pat| && 1 <= lo
    ensures 1 <= d <= |pat|
    decreases |pat| - lo
  {
    if lo > j then PrefixShift(pat, j)
    else if Reoccurs(pat, j, lo) then lo
    else GoodSuffixShift(pat, j, lo + 1)
  }

  lemma {:induction false} GoodSuffixShiftMeaning(pat: seq<Byte>, j: nat, lo: nat)
    requires j < |pat| && 1 <= lo
    ensures var d := GoodSuffixShift(pat, j, lo);
            || (lo <= d <= j && Reoccurs(pat, j, d) && forall k :: lo <= k < d ==> !Reoccurs(pat, j, k))
            || (d == PrefixShift(pat, j) && forall k :: lo <= k <= j ==> !Reoccurs(pat, j, k))
    decreases |pat| - lo
  {
    if lo <= j && !Reoccurs(pat, j, lo) {
      GoodSuffixShiftMeaning(pat, j, lo + 1);
    }
  }

  // How far the alignment moves after text character c mismatches pat[j]
  ghost function Advance(pat: seq<Byte>, c: Byte, j: nat): (d: nat)
    requires j < |pat|
    ensures 1 <= d <= |pat|
    ensures d >= GoodSuffixShift(pat, j, 1)
  {
    var bad := Delta1(pat, c) - (|pat| - 1 - j);
    var good := GoodSuffixShift(pat, j, 1);
    if bad > good then bad else good
  }

  // ----- Filling the tables -----

  method MaxSuffixLen(str: seq<Byte>, p: nat) returns (i: nat)
    requires p < |str|
    ensures i <= p
    ensures RepeatsFrom(str, |str| - 1 - p, |str| - i)
    ensures i == p || str[p - i] != str[|str| - 1 - i]
  {
    i := 0;
    while str[p - i] == str[|str| - 1 - i] && i < p
      invariant i <= p
      invariant RepeatsFrom(str, |str| - 1 - p, |str| - i)
      decreases p - i
    {
      i := i + 1;
      assert RepeatsAt(str, |str| - 1 - p, |str| - i);
    }
  }

  ghost predicate HoldsBadCharacter(delta1: seq<int>, pat: seq<Byte>)
    requires pat != []
  {
    |delta1| == ALPHABET_LEN && forall c: Byte :: delta1[c] == Delta1(pat, c)
  }

  method MakeDelta1(delta1: array<int>, pat: seq<Byte>)
    requires pat != [] && delta1.Length == ALPHABET_LEN
    modifies delta1
    ensures HoldsBadCharacter(delta1[..], pat)
  {
    var i := 0;
    while i < ALPHABET_LEN
      invariant 0 <= i <= ALPHABET_LEN
      invariant forall c :: 0 <= c < i ==> delta1[c] == |pat|
    {
      delta1[i] := |pat|;
      i := i + 1;
    }
    i := 0;
    while i < |pat| - 1
      invariant 0 <= i <= |pat| - 1
      invariant forall c: Byte :: delta1[c] == |pat| - 1 - LastIndexBelow(pat, c, i)
    {
      var idx := pat[i];
      delta1[idx] := |pat| - 1 - i;
      i := i + 1;
    }
  }

  // A re-occurrence k places to the left is what MaxSuffixLen finds at |pat| - 1 - k
  lemma ReoccursIsMaxSuffix(pat: seq<Byte>, j: nat, k: nat, suf: nat)
    requires 1 <= k < |pat| && j < |pat|
    requires suf <= |pat| - 1 - k && RepeatsFrom(pat, k, |pat| - suf)
    requires suf == |pat| - 1 - k || pat[|pat| - 1 - k - suf] != pat[|pat| - 1 - suf]
    ensures Reoccurs(pat, j, k) <==>
              j == |pat| - 1 - suf && pat[|pat| - 1 - k - suf] != pat[|pat| - 1 - suf]
  {
    var m := |pat|;
    if Reoccurs(pat, j, k) {
      if j > m - 1 - suf {
        RepeatsAtIndex(pat, k, m - suf, j);
      } else if j < m - 1 - suf {
        RepeatsAtIndex(pat, k, j + 1, m - 1 - suf);
      }
    }
  }

  // Entries from on hold the prefix rule, as index distances from the mismatch to the next end
  ghost predicate HoldsPrefixRule(delta2: seq<int>, pat: seq<Byte>, from: nat) {
    |delta2| == |pat| && forall j :: from <= j < |pat| ==> delta2[j] == PrefixShift(pat, j) + (|pat| - 1 - j)
  }

  // Every entry accounts for the re-occurrences at distance lo or more
  ghost predicate HoldsGoodSuffix(delta2: seq<int>, pat: seq<Byte>, lo: nat)
    requires 1 <= lo
  {
    |delta2| == |pat| &&
    forall j :: 0 <= j < |pat| ==> delta2[j] == GoodSuffixShift(pat, j, lo) + (|pat| - 1 - j)
  }

  lemma PrefixRuleIsGoodSuffix(delta2: seq<int>, pat: seq<Byte>)
    requires pat != [] && HoldsPrefixRule(delta2, pat, 0)
    ensures HoldsGoodSuffix(delta2, pat, |pat|)
  {
    forall j | 0 <= j < |pat|
      ensures GoodSuffixShift(pat, j, |pat|) == PrefixShift(pat, j)
    {
    }
  }

  lemma GoodSuffixStep(delta2: seq<int>, pat: seq<Byte>, k: nat, suf: nat)
    requires 1 <= k < |pat| && HoldsGoodSuffix(delta2, pat, k + 1)
    requires suf <= |pat| - 1 - k && RepeatsFrom(pat, k, |pat| - suf)
    requires suf == |pat| - 1 - k || pat[|pat| - 1 - k - suf] != pat[|pat| - 1 - suf]
    ensures HoldsGoodSuffix(
              if pat[|pat| - 1 - k - suf] != pat[|pat| - 1 - suf] then delta2[|pat| - 1 - suf := k + suf] else delta2,
              pat, k)
  {
    forall j: nat | j < |pat|
      ensures GoodSuffixShift(pat, j, k) ==
              if j == |pat| - 1 - suf && pat[|pat| - 1 - k - suf] != pat[|pat| - 1 - suf] then k
              else GoodSuffixShift(pat, j, k + 1)
    {
      ReoccursIsMaxSuffix(pat, j, k, suf);
    }
  }

  method MakeDelta2(delta2: array<int>, pat: seq<Byte>)
    requires pat != [] && delta2.Length == |pat|
    modifies delta2
    ensures HoldsGoodSuffix(delta2[..], pat, 1)
  {
    FillPrefixRule(delta2, pat);
    PrefixRuleIsGoodSuffix(delta2[..], pat);
    FillGoodSuffix(delta2, pat);
  }

  // The first loop: every entry by the prefix rule, from the last to the first
  method FillPrefixRule(delta2: array<int>, pat: seq<Byte>)
    requires pat != [] && delta2.Length == |pat|
    modifies delta2
    ensures HoldsPrefixRule(delta2[..], pat, 0)
  {
    var m := |pat|;
    var lastPrefix := m - 1;
    var p := m - 1;
    while p >= 0
      invariant -1 <= p < m
      invariant lastPrefix == if p + 1 < m then PrefixShift(pat, p + 1) else m - 1
      invariant HoldsPrefixRule(delta2[..], pat, p + 1)
    {
      if PrefixHit(pat, p) {
        lastPrefix := p + 1;
      }
      delta2[p] := lastPrefix + (m - 1 - p);
      p := p - 1;
    }
  }

  // The second loop: the re-occurrences, from the farthest to the closest
  method FillGoodSuffix(delta2: array<int>, pat: seq<Byte>)
    requires pat != [] && delta2.Length == |pat| && HoldsGoodSuffix(delta2[..], pat, |pat|)
    modifies delta2
    ensures HoldsGoodSuffix(delta2[..], pat, 1)
  {
    var m := |pat|;
    var p := 0;
    while p < m - 1
      invariant 0 <= p <= m - 1
      invariant HoldsGoodSuffix(delta2[..], pat, m - p)
    {
      var sufLen := MaxSuffixLen(pat, p);
      ghost var before, k := delta2[..], m - 1 - p;
      assert k + 1 == m - p;
      GoodSuffixStep(before, pat, k, sufLen);
      if pat[p - sufLen] != pat[m - 1 - sufLen] {
        delta2[m - 1 - sufLen] := m - 1 - p + sufLen;
        assert delta2[..] == before[m - 1 - sufLen := k + sufLen];
      }
      p := p + 1;
      assert m - p == k;
    }
  }

  // ----- The search -----

  // Where the right-to-left comparison at alignment s stops: the mismatch, or -1
  ghost function MismatchFrom(text: seq<Byte>, pat: seq<Byte>, s: nat, j: int): (r: int)
    requires s + |pat| <= |text| && -1 <= j < |pat|
    ensures -1 <= r <= j
    ensures r >= 0 ==> text[s + r] != pat[r]
    decreases j + 1
  {
    if j < 0 || text[s + j] != pat[j] then j else MismatchFrom(text, pat, s, j - 1)
  }

  lemma {:induction false} MatchedRight(text: seq<Byte>, pat: seq<Byte>, s: nat, j: int)
    requires s + |pat| <= |text| && -1 <= j < |pat| && MatchesFrom(text, pat, s, j + 1)
    ensures MatchesFrom(text, pat, s, MismatchFrom(text, pat, s, j) + 1)
    decreases j + 1
  {
    if j >= 0 && text[s + j] == pat[j] {
      assert AgreesAt(text, pat, s, j);
      MatchedRight(text, pat, s, j - 1);
    }
  }

  // The alignments the search visits from s on
  ghost function SearchFrom(text: seq<Byte>, pat: seq<Byte>, s: nat): (r: Option<nat>)
    requires pat != []
    decreases |text| - s
  {
    if s + |pat| > |text| then None
    else
      var j := MismatchFrom(text, pat, s, |pat| - 1);
      if j < 0 then Some(s)
      else SearchFrom(text, pat, s + Advance(pat, text[s + j], j))
  }

  // One turn of the outer loop, in the index arithmetic the code uses: i is where the text
  // mismatched pat[j], and the larger table entry is added to it
  lemma SearchStep(text: seq<Byte>, pat: seq<Byte>, s: nat, j: nat, next: int)
    requires pat != [] && s + |pat| <= |text| && j == MismatchFrom(text, pat, s, |pat| - 1)
    requires var d1, d2 := Delta1(pat, text[s + j]), GoodSuffixShift(pat, j, 1) + (|pat| - 1 - j);
             next == s + j + if d1 > d2 then d1 else d2
    ensures s + |pat| <= next < s + |pat| + |pat|
    ensures SearchFrom(text, pat, s) == SearchFrom(text, pat, next - (|pat| - 1))
  {
    assert next - (|pat| - 1) == s + Advance(pat, text[s + j], j);
  }

  /** The search: every array and string access is in bounds, i stays inside a 32-bit int, the
      alignment moves strictly right (so the loop ends), and the result is SearchFrom's. */
  method Search(str: seq<Byte>, pat: seq<Byte>) returns (r: Option<nat>)
    requires pat != [] && |str| + |pat| <= INT_MAX
    ensures r == SearchFrom(str, pat, 0)
    ensures r.Some? ==> OccursAt(str, pat, r.value)
    ensures Unbordered(pat) || Constant(pat) ==> IsLeftmostFrom(str, pat, 0, r)
  {
    r := SearchLoop(str, pat);
    SearchSound(str, pat, 0);
    if Unbordered(pat) || Constant(pat) {
      SearchComplete(str, pat, 0);
    }
  }

  method SearchLoop(str: seq<Byte>, pat: seq<Byte>) returns (r: Option<nat>)
    requires pat != [] && |str| + |pat| <= INT_MAX
    ensures r == SearchFrom(str, pat, 0)
  {
    var delta1 := new int[ALPHABET_LEN];
    var delta2 := new int[|pat|];
    MakeDelta1(delta1, pat);
    MakeDelta2(delta2, pat);
    var i := |pat| - 1;
    while i < |str|
      invariant |pat| - 1 <= i < |str| + |pat| <= INT_MAX
      invariant SearchFrom(str, pat, 0) == SearchFrom(str, pat, i - (|pat| - 1))
      invariant HoldsBadCharacter(delta1[..], pat) && HoldsGoodSuffix(delta2[..], pat, 1)
      decreases |str| - i
    {
      ghost var s := i - (|pat| - 1);
      var j;
      i, j := CompareBack(str, pat, i);
      if j < 0 {
        return Some(i + 1);
      }
      var d1, d2 := LookUp(delta1, delta2, pat, str[i], j);
      i := i + (if d1 > d2 then d1 else d2);
      SearchStep(str, pat, s, j, i);
    }
    return None;
  }

  // The inner loop: from the end of pat at i back to the first mismatch
  method CompareBack(str: seq<Byte>, pat: seq<Byte>, end: nat) returns (i: int, j: int)
    requires 1 <= |pat| <= end + 1 && end < |str|
    ensures j == MismatchFrom(str, pat, end - (|pat| - 1), |pat| - 1) && i == end - (|pat| - 1) + j
  {
    ghost var s := end - (|pat| - 1);
    i, j := end, |pat| - 1;
    while j >= 0 && str[i] == pat[j]
      invariant -1 <= j < |pat| && i == s + j
      invariant MismatchFrom(str, pat, s, |pat| - 1) == MismatchFrom(str, pat, s, j)
      decreases j
    {
      i := i - 1;
      j := j - 1;
    }
  }

  method LookUp(delta1: array<int>, delta2: array<int>, pat: seq<Byte>, c: Byte, j: nat) returns (d1: int, d2: int)
    requires j < |pat| && HoldsBadCharacter(delta1[..], pat) && HoldsGoodSuffix(delta2[..], pat, 1)
    ensures d1 == Delta1(pat, c) && d2 == GoodSuffixShift(pat, j, 1) + (|pat| - 1 - j)
  {
    assert delta1[..][c] == delta1[c] && delta2[..][j] == delta2[j];
    d1, d2 := delta1[c], delta2[j];
  }

  // ----- Soundness for every non-empty pattern -----

  lemma {:induction false} SearchSound(text: seq<Byte>, pat: seq<Byte>, s: nat)
    requires pat != []
    ensures var r := SearchFrom(text, pat, s); r.Some? ==> s <= r.value && OccursAt(text, pat, r.value)
    decreases |text| - s
  {
    if s + |pat| <= |text| {
      var j := MismatchFrom(text, pat, s, |pat| - 1);
      MatchedRight(text, pat, s, |pat| - 1);
      if j >= 0 {
        SearchSound(text, pat, s + Advance(pat, text[s + j], j));
      }
    }
  }

  // ----- Completeness -----

  lemma {:induction false} StrncmpIsPrefix(a: seq<Byte>, b: seq<Byte>, n: nat)
    requires n <= |a| && n <= |b|
    requires forall t :: 0 <= t < n ==> a[t] != 0
    ensures StrncmpIsZero(a, b, n) <==> a[..n] == b[..n]
    decreases n
  {
    if n > 0 {
      StrncmpIsPrefix(a[1..], b[1..], n - 1);
      assert a[..n] == [a[0]] + a[1..][..n - 1];
      assert b[..n] == [b[0]] + b[1..][..n - 1];
    }
  }

  // For a NUL-free pattern the strncmp test finds exactly the borders
  lemma PrefixHitIsBorder(pat: seq<Byte>, q: nat)
    requires NulFree(pat) && q < |pat|
    ensures PrefixHit(pat, q) <==> BorderAt(pat, q)
  {
    var a := pat[q..];
    StrncmpIsPrefix(a, pat, |pat| - q);
    if PrefixHit(pat, q) {
      forall t | q <= t < |pat|
        ensures RepeatsAt(pat, q, t)
      {
        assert a[..|pat| - q][t - q] == pat[..|pat| - q][t - q];
      }
    }
    if BorderAt(pat, q) {
      forall t | 0 <= t < |pat| - q
        ensures a[t] == pat[t]
      {
        RepeatsAtIndex(pat, q, q, t + q);
      }
    }
  }

  // The bad-character distance never jumps over an occurrence
  lemma BadCharacterSafe(text: seq<Byte>, pat: seq<Byte>, s: nat, j: nat, k: nat)
    requires j < |pat| && s + |pat| <= |text| && text[s + j] != pat[j]
    requires 1 <= k < Delta1(pat, text[s + j]) - (|pat| - 1 - j)
    ensures !OccursAt(text, pat, s + k)
  {
    LastIndexBelowIsLast(pat, text[s + j], |pat| - 1, j - k);
    if OccursAt(text, pat, s + k) {
      MatchesAtIndex(text, pat, s + k, 0, j - k);
    }
  }

  // An occurrence the good-suffix distance jumps over starts past j and makes the pattern bordered
  lemma GoodSuffixSkip(text: seq<Byte>, pat: seq<Byte>, s: nat, j: nat, k: nat)
    requires j < |pat| && MatchesFrom(text, pat, s, j + 1) && text[s + j] != pat[j]
    requires 1 <= k < GoodSuffixShift(pat, j, 1) && OccursAt(text, pat, s + k)
    ensures j < k && BorderAt(pat, k)
  {
    GoodSuffixShiftMeaning(pat, j, 1);
    if k <= j {
      MatchesAtIndex(text, pat, s + k, 0, j - k);
      forall t | j < t < |pat|
        ensures RepeatsAt(pat, k, t)
      {
        MatchesAtIndex(text, pat, s + k, 0, t - k);
        MatchesAtIndex(text, pat, s, j + 1, t);
      }
      assert Reoccurs(pat, j, k);
      assert false;
    }
    forall t | k <= t < |pat|
      ensures RepeatsAt(pat, k, t)
    {
      MatchesAtIndex(text, pat, s + k, 0, t - k);
      MatchesAtIndex(text, pat, s, j + 1, t);
    }
  }

  /** Table soundness: after a mismatch at j with everything to its right matched, no occurrence
      starts strictly between the current alignment and the next one. */
  lemma AdvanceSafe(text: seq<Byte>, pat: seq<Byte>, s: nat, j: nat, k: nat)
    requires Unbordered(pat) || Constant(pat)
    requires j < |pat| && MatchesFrom(text, pat, s, j + 1) && text[s + j] != pat[j]
    requires 1 <= k < Advance(pat, text[s + j], j)
    ensures !OccursAt(text, pat, s + k)
  {
    if k < Delta1(pat, text[s + j]) - (|pat| - 1 - j) {
      BadCharacterSafe(text, pat, s, j, k);
    } else if OccursAt(text, pat, s + k) {
      if Constant(pat) { ConstantShift(pat, j); }
      GoodSuffixSkip(text, pat, s, j, k);
    }
  }

  lemma {:induction false} EqualIsZero(a: seq<Byte>, b: seq<Byte>, n: nat)
    requires n <= |a| && n <= |b| && forall t :: 0 <= t < n ==> a[t] == b[t]
    ensures StrncmpIsZero(a, b, n)
    decreases n
  {
    if n > 0 { EqualIsZero(a[1..], b[1..], n - 1); }
  }

  lemma ConstantShift(pat: seq<Byte>, j: nat)
    requires Constant(pat) && j < |pat|
    ensures GoodSuffixShift(pat, j, 1) <= j + 1
  {
    GoodSuffixShiftMeaning(pat, j, 1);
    EqualIsZero(pat[j..], pat, |pat| - j);
  }

  lemma {:induction false} SearchComplete(text: seq<Byte>, pat: seq<Byte>, s: nat)
    requires pat != [] && (Unbordered(pat) || Constant(pat))
    ensures IsLeftmostFrom(text, pat, s, SearchFrom(text, pat, s))
    decreases |text| - s
  {
    if s + |pat| <= |text| {
      var j := MismatchFrom(text, pat, s, |pat| - 1);
      MatchedRight(text, pat, s, |pat| - 1);
      if j >= 0 {
        var d := Advance(pat, text[s + j], j);
        SearchComplete(text, pat, s + d);
        if OccursAt(text, pat, s) { MatchesAtIndex(text, pat, s, 0, j); }
        forall k | s < k < s + d
          ensures !OccursAt(text, pat, k)
        {
          AdvanceSafe(text, pat, s, j, k - s);
        }
      }
    }
  }

  // ----- The condition is necessary -----

  // Every character of a sequence that agrees with its own shift by one is the first
  lemma {:induction false} ShiftByOne(pat: seq<Byte>, t: nat)
    requires t < |pat| && BorderAt(pat, 1)
    ensures pat[t] == pat[0]
  {
    if t > 0 {
      RepeatsAtIndex(pat, 1, 1, t);
      ShiftByOne(pat, t - 1);
    }
  }

  // When the suffix after index 1 re-occurs one place to the left it repeats pat[1]
  lemma {:induction false} ReoccurrenceAtOne(pat: seq<Byte>, t: nat)
    requires Reoccurs(pat, 1, 1) && 1 <= t < |pat|
    ensures pat[t] == pat[1]
  {
    if t > 1 {
      RepeatsAtIndex(pat, 1, 2, t);
      ReoccurrenceAtOne(pat, t - 1);
    }
  }

  lemma NoReoccurrenceAtOne(pat: seq<Byte>, q: nat)
    requires 2 <= q && BorderAt(pat, q)
    ensures !Reoccurs(pat, 1, 1)
  {
    if Reoccurs(pat, 1, 1) {
      RepeatsAtIndex(pat, q, q, q);
      ReoccurrenceAtOne(pat, q);
    }
  }

  // A text whose only occurrence of pat the search jumps over
  ghost function SkippedText(pat: seq<Byte>, q: nat): (text: seq<Byte>)
    requires 2 <= q < |pat|
    ensures |text| == q + |pat|
  {
    var other: Byte := if pat[1] == 1 then 2 else 1;
    seq(q + |pat|, x requires 0 <= x < q + |pat| =>
      if x == 1 then other else if x < q then pat[x] else pat[x - q])
  }

  lemma ShiftAtOne(pat: seq<Byte>, q: nat)
    requires NulFree(pat) && 2 <= q && BorderAt(pat, q) && forall x :: 1 <= x < q ==> !BorderAt(pat, x)
    ensures GoodSuffixShift(pat, 1, 1) == q + 1
  {
    NoReoccurrenceAtOne(pat, q);
    GoodSuffixShiftMeaning(pat, 1, 1);
    assert GoodSuffixShift(pat, 1, 1) == PrefixShift(pat, 1);
    forall x: nat | 1 <= x <= q
      ensures PrefixHit(pat, x) <==> x == q
    {
      PrefixHitIsBorder(pat, x);
    }
    PrefixShiftMeaning(pat, 1);
    assert PrefixHit(pat, q);
    assert PrefixShift(pat, 1) - 1 == q;
  }

  lemma SkippedTextMissed(pat: seq<Byte>, q: nat)
    requires NulFree(pat) && !Constant(pat)
    requires 2 <= q && BorderAt(pat, q) && forall x :: 1 <= x < q ==> !BorderAt(pat, x)
    ensures var text := SkippedText(pat, q); OccursAt(text, pat, q) && SearchFrom(text, pat, 0) == None
  {
    var text := SkippedText(pat, q);
    assert OccursAt(text, pat, q);
    forall x | 2 <= x < |pat|
      ensures AgreesAt(text, pat, 0, x)
    {
      if x >= q { RepeatsAtIndex(pat, q, q, x); }
    }
    assert MatchesFrom(text, pat, 0, 2);
    MismatchIsOne(text, pat);
    ShiftAtOne(pat, q);
    var d := Advance(pat, text[1], 1);
    assert SearchFrom(text, pat, 0) == SearchFrom(text, pat, 0 + d);
  }

  lemma MismatchIsOne(text: seq<Byte>, pat: seq<Byte>)
    requires |pat| >= 2 && MatchesFrom(text, pat, 0, 2) && text[1] != pat[1]
    ensures MismatchFrom(text, pat, 0, |pat| - 1) == 1
  {
    MatchedRight(text, pat, 0, |pat| - 1);
    var j := MismatchFrom(text, pat, 0, |pat| - 1);
    if j > 1 {
      MatchesAtIndex(text, pat, 0, 2, j);
    } else if j < 1 {
      MatchesAtIndex(text, pat, 0, j + 1, 1);
    }
  }

  lemma {:induction false} SmallestBorder(pat: seq<Byte>, lo: nat, q: nat) returns (b: nat)
    requires 1 <= lo <= q && BorderAt(pat, q)
    ensures lo <= b <= q && BorderAt(pat, b) && forall x :: lo <= x < b ==> !BorderAt(pat, x)
    decreases q - lo
  {
    if lo == q || BorderAt(pat, lo) {
      b := lo;
    } else {
      b := SmallestBorder(pat, lo + 1, q);
    }
  }

  /** The exact reach of the search: for a non-empty NUL-free pattern it returns the leftmost
      occurrence in every text if and only if the pattern has no proper border or repeats one
      character. */
  lemma CorrectIffUnborderedOrConstant(pat: seq<Byte>)
    requires pat != [] && NulFree(pat)
    ensures (forall text: seq<Byte> :: IsLeftmostFrom(text, pat, 0, SearchFrom(text, pat, 0)))
              <==> Unbordered(pat) || Constant(pat)
  {
    if Unbordered(pat) || Constant(pat) {
      forall text: seq<Byte>
        ensures IsLeftmostFrom(text, pat, 0, SearchFrom(text, pat, 0))
      {
        SearchComplete(text, pat, 0);
      }
    } else {
      var some :| 1 <= some < |pat| && BorderAt(pat, some);
      var q := SmallestBorder(pat, 1, some);
      if q == 1 {
        forall t | 0 <= t < |pat|
          ensures pat[t] == pat[0]
        {
          ShiftByOne(pat, t);
        }
        assert false;
      }
      SkippedTextMissed(pat, q);
      assert !IsLeftmostFrom(SkippedText(pat, q), pat, 0, SearchFrom(SkippedText(pat, q), pat, 0));
    }
  }

  // ----- The pattern the updater searches for -----

  // Time_Stamp": "   in bytes
  const MODEM_VER_STR: seq<Byte> := [84, 105, 109, 101, 95, 83, 116, 97, 109, 112, 34, 58, 32, 34]

  lemma ModemPatternIsSpelled()
    ensures var text := "Time_Stamp\": \"";
            |MODEM_VER_STR| == |text| == 14 && forall i :: 0 <= i < 14 ==> MODEM_VER_STR[i] == text[i] as int
  {
  }

  lemma ModemSearchIsExact(text: seq<Byte>)
    ensures IsLeftmostFrom(text, MODEM_VER_STR, 0, SearchFrom(text, MODEM_VER_STR, 0))
  {
    var pat := MODEM_VER_STR;
    forall q | 1 <= q < |pat|
      ensures !BorderAt(pat, q)
    {
      if BorderAt(pat, q) { RepeatsAtIndex(pat, q, q, q); }
    }
    SearchComplete(text, pat, 0);
  }
}
