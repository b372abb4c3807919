/** The three regular expressions of the session code, hand-coded.

    Each pattern is a sequence of literal text and bounded digit runs
    (`\d{lo,hi}`). `MatchAt` matches a pattern at one position with greedy
    digit runs and no back-tracking. `Backtrack` is the reference: the
    back-tracking search Python's `re` performs, which tries the longest run
    first and then, one digit at a time, shorter ones. In all three patterns
    a digit run is followed either by a literal that starts with a non-digit
    or by the end of the pattern (`Deterministic`), and for such patterns the
    two agree (`MatchAtIsBacktrack`), so `Search` is `re.search` and
    `FirstMatch` is `findall(...)[0]`. */
module Patterns {
  import opened Strings

  datatype Token = Lit(text: string) | Digits(lo: nat, hi: nat)

  /** Every digit run has `lo <= hi`, and every digit run except a final one
      is followed by a non-empty literal whose first character is not a digit. */
  predicate Deterministic(pat: seq<Token>)
  {
    (forall k :: 0 <= k < |pat| && pat[k].Digits? ==> pat[k].lo <= pat[k].hi)
    && (forall k :: 0 <= k < |pat| - 1 && pat[k].Digits? ==>
      pat[k + 1].Lit? && |pat[k + 1].text| > 0 && !IsDigit(pat[k + 1].text[0]))
  }

  /** `\(\*, \d{1,3}\.\d{1,3}\.\d{1,3}\.\d{1,3}/\d{1,2}\)` (client_sessions.py:91) */
  const McastGroupPattern: seq<Token> := [Lit("(*, ")] + GroupAddress + [Lit(")")]

  /** The part of the group pattern between the parentheses: `a.b.c.d/n`. */
  const GroupAddress: seq<Token> :=
    [Digits(1, 3), Lit("."), Digits(1, 3), Lit("."), Digits(1, 3), Lit("."), Digits(1, 3), Lit("/"), Digits(1, 2)]

  /** `RP \d{1,3}\.\d{1,3}\.\d{1,3}\.\d{1,3}` (client_sessions.py:93) */
  const RpPattern: seq<Token> :=
    [Lit("RP "), Digits(1, 3), Lit("."), Digits(1, 3), Lit("."), Digits(1, 3), Lit("."), Digits(1, 3)]

  const PortEchoPrefix: string := "show lldp interfaces ethernet 1/"

  /** `show lldp interfaces ethernet 1/\d{1,2}` (client_sessions.py:171) */
  const PortEchoPattern: seq<Token> := [Lit(PortEchoPrefix), Digits(1, 2)]

  /** The three patterns have the shape under which greedy matching is exact. */
  lemma PatternsAreDeterministic()
    ensures Deterministic(McastGroupPattern)
    ensures Deterministic(RpPattern)
    ensures Deterministic(PortEchoPattern)
    ensures |PortEchoPrefix| == 32
  {
    forall k | 0 <= k < |McastGroupPattern| - 1 && McastGroupPattern[k].Digits?
      ensures McastGroupPattern[k + 1].Lit? && |McastGroupPattern[k + 1].text| > 0
        && !IsDigit(McastGroupPattern[k + 1].text[0])
    {
      assert k in {1, 3, 5, 7, 9};
    }
    forall k | 0 <= k < |McastGroupPattern| && McastGroupPattern[k].Digits?
      ensures McastGroupPattern[k].lo <= McastGroupPattern[k].hi
    {
      assert k in {1, 3, 5, 7, 9};
    }
    forall k | 0 <= k < |RpPattern| - 1 && RpPattern[k].Digits?
      ensures RpPattern[k + 1].Lit? && |RpPattern[k + 1].text| > 0 && !IsDigit(RpPattern[k + 1].text[0])
    {
      assert k in {1, 3, 5};
    }
    forall k | 0 <= k < |RpPattern| && RpPattern[k].Digits?
      ensures RpPattern[k].lo <= RpPattern[k].hi
    {
      assert k in {1, 3, 5, 7};
    }
  }

  /** Number of consecutive digits in `s` from index `i` on. */
  function DigitRun(s: string, i: nat): (n: nat)
    requires i <= |s|
    ensures i + n <= |s|
    ensures forall k :: i <= k < i + n ==> IsDigit(s[k])
    ensures i + n == |s| || !IsDigit(s[i + n])
    decreases |s| - i
  {
    if i < |s| && IsDigit(s[i]) then 1 + DigitRun(s, i + 1) else 0
  }

  /** The end of the match of `pat` anchored at index `i` of `s`, if any. */
  function MatchAt(s: string, i: nat, pat: seq<Token>): (r: Option<nat>)
    requires i <= |s|
    ensures r.Some? ==> i <= r.value <= |s|
    decreases |pat|
  {
    if pat == [] then Some(i)
    else match pat[0]
      case Lit(t) =>
        if OccursAt(s, i, t) then MatchAt(s, i + |t|, pat[1..]) else None
      case Digits(lo, hi) =>
        var n := DigitRun(s, i);
        if n < lo then None
        else if |pat| == 1 then Some(i + (if n <= hi then n else hi))
        else if n <= hi then MatchAt(s, i + n, pat[1..])
        else None
  }

  /** The reference: Python's back-tracking match of `pat` anchored at `i`.
      A digit run first takes as many digits as it may and then gives them
      back one at a time while the rest of the pattern fails. */
  function Backtrack(s: string, i: nat, pat: seq<Token>): Option<nat>
    requires i <= |s|
    decreases |pat|, 1, 0
  {
    if pat == [] then Some(i)
    else match pat[0]
      case Lit(t) =>
        if OccursAt(s, i, t) then Backtrack(s, i + |t|, pat[1..]) else None
      case Digits(lo, hi) =>
        var n := DigitRun(s, i);
        TryRuns(s, i, lo, if n <= hi then n else hi, pat[1..])
  }

  /** The rest of the pattern after `k`, `k - 1`, ..., `lo` digits: the first that matches. */
  function TryRuns(s: string, i: nat, lo: nat, k: nat, rest: seq<Token>): Option<nat>
    requires i + k <= |s|
    decreases |rest| + 1, 0, k
  {
    if k < lo then None
    else match Backtrack(s, i + k, rest)
      case Some(e) => Some(e)
      case None => if k == lo then None else TryRuns(s, i, lo, k - 1, rest)
  }

  lemma DeterministicTail(pat: seq<Token>)
    requires pat != [] && Deterministic(pat)
    ensures Deterministic(pat[1..])
  {
    assert forall k :: 0 <= k < |pat| - 1 ==> pat[1..][k] == pat[k + 1];
  }

  /** A literal that starts with a non-digit does not match at a digit. */
  lemma NoMatchAtDigit(s: string, j: nat, rest: seq<Token>)
    requires j < |s| && IsDigit(s[j])
    requires rest != [] && rest[0].Lit? && |rest[0].text| > 0 && !IsDigit(rest[0].text[0])
    ensures Backtrack(s, j, rest).None?
  {
    var t := rest[0].text;
    assert !OccursAt(s, j, t) by {
      assert j + |t| <= |s| ==> s[j..j + |t|][0] == s[j];
    }
  }

  /** When every count from `lo` to `k` fails, trying them all fails. */
  lemma {:induction false} TryRunsFail(s: string, i: nat, lo: nat, k: nat, rest: seq<Token>)
    requires i + k <= |s|
    requires forall j :: i + lo <= j <= i + k ==> Backtrack(s, j, rest).None?
    ensures TryRuns(s, i, lo, k, rest).None?
    decreases k
  {
    if lo < k {
      TryRunsFail(s, i, lo, k - 1, rest);
    }
  }

  /** For a deterministic pattern the greedy matcher finds what the
      back-tracking one finds, and fails where it fails. */
  lemma {:induction false} MatchAtIsBacktrack(s: string, i: nat, pat: seq<Token>)
    requires i <= |s| && Deterministic(pat)
    ensures MatchAt(s, i, pat) == Backtrack(s, i, pat)
    decreases |pat|
  {
    if pat != [] {
      DeterministicTail(pat);
      match pat[0]
      case Lit(t) =>
        if OccursAt(s, i, t) {
          MatchAtIsBacktrack(s, i + |t|, pat[1..]);
        }
      case Digits(lo, hi) =>
        var n := DigitRun(s, i);
        var rest := pat[1..];
        assert lo <= hi;
        if |pat| == 1 {
          var m := if n <= hi then n else hi;
          assert rest == [];
          if lo <= m {
            assert TryRuns(s, i, lo, m, rest) == Backtrack(s, i + m, rest) == Some(i + m);
          }
        } else {
          assert rest[0] == pat[1];
          forall j | i <= j < i + n
            ensures Backtrack(s, j, rest).None?
          {
            NoMatchAtDigit(s, j, rest);
          }
          if lo <= n <= hi {
            MatchAtIsBacktrack(s, i + n, rest);
            if lo < n {
              TryRunsFail(s, i, lo, n - 1, rest);
            }
          } else if hi < n {
            TryRunsFail(s, i, lo, hi, rest);
          }
        }
    }
  }

  /** Python's `re.search`: the leftmost match at index `i` or later, as (start, end). */
  function SearchFrom(s: string, i: nat, pat: seq<Token>): (r: Option<(nat, nat)>)
    requires i <= |s|
    ensures r.Some? ==> i <= r.value.0 <= r.value.1 <= |s| && MatchAt(s, r.value.0, pat) == Some(r.value.1)
    ensures r.Some? ==> forall j :: i <= j < r.value.0 ==> MatchAt(s, j, pat).None?
    ensures r.None? ==> forall j :: i <= j <= |s| ==> MatchAt(s, j, pat).None?
    decreases |s| - i
  {
    match MatchAt(s, i, pat)
    case Some(e) => Some((i, e))
    case None => if i == |s| then None else SearchFrom(s, i + 1, pat)
  }

  function Search(s: string, pat: seq<Token>): (r: Option<(nat, nat)>)
    ensures r.Some? ==> r.value.0 <= r.value.1 <= |s| && MatchAt(s, r.value.0, pat) == Some(r.value.1)
    ensures r.Some? ==> forall j :: 0 <= j < r.value.0 ==> MatchAt(s, j, pat).None?
    ensures r.None? ==> forall j :: 0 <= j <= |s| ==> MatchAt(s, j, pat).None?
  {
    SearchFrom(s, 0, pat)
  }

  /** The text of the leftmost match, as `findall(...)[0]` returns it. */
  function FirstMatch(s: string, pat: seq<Token>): (r: Option<string>)
    ensures r.Some? <==> Search(s, pat).Some?
    ensures r.Some? ==>
      exists b :: (0 <= b <= |s| && b + |r.value| <= |s|
        && MatchAt(s, b, pat) == Some(b + |r.value|) && r.value == s[b..b + |r.value|]
        && forall j :: 0 <= j < b ==> MatchAt(s, j, pat).None?)
  {
    match Search(s, pat)
    case Some((b, e)) =>
      assert e == b + |s[b..e]|;
      Some(s[b..e])
    case None => None
  }

  /** For such a pattern `Search` is `re.search`: the leftmost start at which
      the back-tracking match succeeds, with that match's end, or None when
      it succeeds nowhere. */
  lemma SearchIsRegexSearch(s: string, pat: seq<Token>)
    requires Deterministic(pat)
    ensures var r := Search(s, pat);
      (r.Some? ==>
        Backtrack(s, r.value.0, pat) == Some(r.value.1)
        && forall j :: 0 <= j < r.value.0 ==> Backtrack(s, j, pat).None?)
      && (r.None? ==> forall j :: 0 <= j <= |s| ==> Backtrack(s, j, pat).None?)
  {
    forall j | 0 <= j <= |s|
      ensures MatchAt(s, j, pat) == Backtrack(s, j, pat)
    {
      MatchAtIsBacktrack(s, j, pat);
    }
  }

  /** A match of the LLDP port pattern is the 32-character command prefix
      followed by one or two digits, and the digits are all the digits there
      when there are at most two; so `[32:]` of it is one or two digits. */
  lemma PortEchoMatchShape(s: string, b: nat)
    requires b <= |s| && MatchAt(s, b, PortEchoPattern).Some?
    ensures var e := MatchAt(s, b, PortEchoPattern).value;
      b + 33 <= e <= b + 34 && OccursAt(s, b, PortEchoPrefix)
      && (forall k :: b + 32 <= k < e ==> IsDigit(s[k]))
      && (e == b + 33 ==> e == |s| || !IsDigit(s[e]))
  {
    var n := DigitRun(s, b + 32);
    assert PortEchoPattern[1..] == [Digits(1, 2)];
    assert MatchAt(s, b + 32, [Digits(1, 2)]) == Some(b + 32 + (if n <= 2 then n else 2));
  }

  /** Anchored matching of a pattern that starts at a given literal: a
      line beginning with `prefix` followed by exactly `d` digits and then a
      non-digit (or the end) matches `prefix` + `\d{1,2}` with end exactly
      after the digits. */
  lemma EchoMatchAtStart(prefix: string, d: string, rest: string)
    requires 1 <= |d| <= 2
    requires forall k :: 0 <= k < |d| ==> IsDigit(d[k])
    requires rest == [] || !IsDigit(rest[0])
    ensures var s := prefix + d + rest;
      MatchAt(s, 0, [Lit(prefix), Digits(1, 2)]) == Some(|prefix| + |d|)
  {
    var s := prefix + d + rest;
    assert s[0..|prefix|] == prefix;
    assert OccursAt(s, 0, prefix);
    DigitRunOf(prefix, d, rest);
    assert [Lit(prefix), Digits(1, 2)][1..] == [Digits(1, 2)];
  }

  /** The digit run at the start of `d` in `prefix + d + rest` is exactly `d`
      when `d` is all digits and `rest` does not start with one. */
  lemma {:induction false} DigitRunOf(prefix: string, d: string, rest: string)
    requires forall k :: 0 <= k < |d| ==> IsDigit(d[k])
    requires rest == [] || !IsDigit(rest[0])
    ensures DigitRun(prefix + d + rest, |prefix|) == |d|
    decreases |d|
  {
    var s := prefix + d + rest;
    if |d| == 0 {
      assert s == prefix + rest;
      if rest != [] { assert s[|prefix|] == rest[0]; }
    } else {
      assert s[|prefix|] == d[0];
      DigitRunOf(prefix + [d[0]], d[1..], rest);
      assert prefix + [d[0]] + d[1..] + rest == s;
    }
  }

  /** A group match opens with `(*, `, closes with `)`, and has text between. */
  lemma GroupMatchBounds(s: string, b: nat)
    requires b <= |s| && MatchAt(s, b, McastGroupPattern).Some?
    ensures var e := MatchAt(s, b, McastGroupPattern).value;
      b + 5 <= e && OccursAt(s, b, "(*, ") && s[e - 1] == ')'
  {
    MatchBetweenLits(s, b, "(*, ", GroupAddress, ")");
    var e := MatchAt(s, b, McastGroupPattern).value;
    assert s[e - 1] == s[e - 1..e][0];
  }

  /** A match of a pattern that opens and closes with literals begins with
      the first and ends with the last. */
  lemma MatchBetweenLits(s: string, i: nat, u: string, mid: seq<Token>, t: string)
    requires i <= |s| && MatchAt(s, i, [Lit(u)] + mid + [Lit(t)]).Some?
    ensures var e := MatchAt(s, i, [Lit(u)] + mid + [Lit(t)]).value;
      OccursAt(s, i, u) && i + |u| + |t| <= e && OccursAt(s, e - |t|, t)
  {
    var pat := [Lit(u)] + mid + [Lit(t)];
    assert pat[0] == Lit(u);
    assert pat[1..] == mid + [Lit(t)];
    MatchEndsWithLit(s, i + |u|, mid, t);
  }

  /** A match of a pattern that closes with a literal ends with that literal. */
  lemma {:induction false} MatchEndsWithLit(s: string, i: nat, pat: seq<Token>, t: string)
    requires i <= |s|
    requires MatchAt(s, i, pat + [Lit(t)]).Some?
    ensures var e := MatchAt(s, i, pat + [Lit(t)]).value;
      i + |t| <= e && OccursAt(s, e - |t|, t)
    decreases |pat|
  {
    if pat == [] {
      assert [] + [Lit(t)] == [Lit(t)];
    } else {
      var j := MatchFirstToken(s, i, pat, t);
      MatchEndsWithLit(s, j, pat[1..], t);
    }
  }

  /** Matching the first token of a non-empty pattern moves to some later
      index, from which the rest of the pattern gives the same match. */
  lemma MatchFirstToken(s: string, i: nat, pat: seq<Token>, t: string) returns (j: nat)
    requires i <= |s| && pat != []
    requires MatchAt(s, i, pat + [Lit(t)]).Some?
    ensures i <= j <= |s|
    ensures MatchAt(s, i, pat + [Lit(t)]) == MatchAt(s, j, pat[1..] + [Lit(t)])
  {
    var whole := pat + [Lit(t)];
    assert whole[0] == pat[0] && whole[1..] == pat[1..] + [Lit(t)];
    match pat[0]
    case Lit(u) =>
      j := i + |u|;
    case Digits(lo, hi) =>
      j := i + DigitRun(s, i);
  }
}
