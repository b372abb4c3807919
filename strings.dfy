/** Text helpers shared by the line assembler and the three parsers: the
    Python string operations the session code relies on (`in`, `find`,
    `split(',')[0]`, slicing past the end, `strip()`), stated over `string`. */
module Strings {

  datatype Option<T> = None | Some(value: T)

  /** The value of an option as a sequence of at most one element. */
  function OptionList<T>(o: Option<T>): (r: seq<T>)
    ensures |r| <= 1
    ensures o.Some? ==> r == [o.value]
    ensures o.None? ==> r == []
  {
    if o.Some? then [o.value] else []
  }

  lemma AppendAssoc<T>(a: seq<T>, b: seq<T>, c: seq<T>)
    ensures (a + b) + c == a + (b + c)
  {
  }

  const CR: char := '\r'
  const LF: char := '\n'
  const ESC: char := '\U{1B}'
  const CRLF: string := "\r\n"

  /** `sub` occurs in `s` starting at index `i`. */
  predicate OccursAt(s: string, i: int, sub: string)
  {
    0 <= i && i + |sub| <= |s| && s[i..i + |sub|] == sub
  }

  /** Python's `sub in s` for strings. */
  predicate Contains(s: string, sub: string)
  {
    exists i :: 0 <= i <= |s| && OccursAt(s, i, sub)
  }

  /** Python's `s.find(sub)`: the leftmost index at which `sub` occurs, or -1. */
  function Find(s: string, sub: string): (r: int)
    ensures -1 <= r <= |s|
    ensures r >= 0 ==> OccursAt(s, r, sub) && forall j :: 0 <= j < r ==> !OccursAt(s, j, sub)
    ensures r == -1 ==> forall j :: 0 <= j <= |s| ==> !OccursAt(s, j, sub)
    ensures r == -1 <==> !Contains(s, sub)
    decreases |s|
  {
    if OccursAt(s, 0, sub) then 0
    else if |s| == 0 then -1
    else
      var k := Find(s[1..], sub);
      ShiftOccurs(s, sub);
      if k < 0 then -1 else k + 1
  }

  /** An occurrence in `s[1..]` is an occurrence in `s` one place further on. */
  lemma ShiftOccurs(s: string, sub: string)
    requires |s| > 0
    ensures forall j :: 1 <= j ==> (OccursAt(s, j, sub) <==> OccursAt(s[1..], j - 1, sub))
  {
    forall j | 1 <= j
      ensures OccursAt(s, j, sub) <==> OccursAt(s[1..], j - 1, sub)
    {
      if j + |sub| <= |s| {
        assert s[1..][j - 1..j - 1 + |sub|] == s[j..j + |sub|];
      }
    }
  }

  /** Python's `s[n:]` for a non-negative `n`: empty once `n` passes the end. */
  function Drop(s: string, n: nat): (r: string)
    ensures |r| == if |s| <= n then 0 else |s| - n
    ensures forall k :: 0 <= k < |r| ==> r[k] == s[n + k]
  {
    if |s| <= n then "" else s[n..]
  }

  /** Python's `s.split(',')[0]`: the text before the first comma, or all of `s`. */
  function BeforeComma(s: string): (r: string)
    ensures |r| <= |s| && r == s[..|r|]
    ensures ',' !in r
    ensures |r| < |s| ==> s[|r|] == ','
  {
    var k := Find(s, ",");
    if k < 0 then
      CommaOccurs(s);
      s
    else
      CommaOccurs(s);
      s[..k]
  }

  /** A one-character occurrence is just that character at that index. */
  lemma CommaOccurs(s: string)
    ensures forall j :: 0 <= j < |s| ==> (OccursAt(s, j, ",") <==> s[j] == ',')
  {
    forall j | 0 <= j < |s|
      ensures OccursAt(s, j, ",") <==> s[j] == ','
    {
      assert s[j..j + 1] == [s[j]];
    }
  }

  /** The ASCII characters for which Python's `str.isspace()` holds:
      tab, line feed, vertical tab, form feed, carriage return, the four
      information separators 0x1C-0x1F, and space. */
  predicate IsSpace(c: char)
  {
    c == ' ' || ('\t' <= c <= '\r') || ('\U{1C}' <= c <= '\U{1F}')
  }

  predicate IsDigit(c: char)
  {
    '0' <= c <= '9'
  }

  /** Drops leading white space. */
  function TrimStart(s: string): (r: string)
    ensures |r| <= |s| && r == s[|s| - |r|..]
    ensures forall k :: 0 <= k < |s| - |r| ==> IsSpace(s[k])
    ensures r == [] || !IsSpace(r[0])
    decreases |s|
  {
    if |s| > 0 && IsSpace(s[0]) then TrimStart(s[1..]) else s
  }

  /** Drops trailing white space. */
  function TrimEnd(s: string): (r: string)
    ensures |r| <= |s| && r == s[..|r|]
    ensures forall k :: |r| <= k < |s| ==> IsSpace(s[k])
    ensures r == [] || !IsSpace(r[|r| - 1])
    decreases |s|
  {
    if |s| > 0 && IsSpace(s[|s| - 1]) then TrimEnd(s[..|s| - 1]) else s
  }

  /** Python's `s.strip()` restricted to ASCII white space. */
  function Strip(s: string): string
  {
    TrimEnd(TrimStart(s))
  }

  /** Stripping twice is stripping once. */
  lemma StripIdempotent(s: string)
    ensures Strip(Strip(s)) == Strip(s)
  {
    var t := TrimStart(s);
    var r := TrimEnd(t);
    assert r == [] || (!IsSpace(r[0]) && !IsSpace(r[|r| - 1])) by {
      if r != [] {
        assert r[0] == t[0];
      }
    }
    StrippedStays(r);
  }

  lemma StrippedStays(r: string)
    requires r == [] || (!IsSpace(r[0]) && !IsSpace(r[|r| - 1]))
    ensures Strip(r) == r
  {
    if r != [] {
      TrimStartKeeps(r);
      TrimEndKeeps(r);
      assert TrimEnd(TrimStart(r)) == r;
    } else {
      assert TrimStart(r) == r;
      assert TrimEnd(r) == r;
    }
  }

  /** Text that does not begin with white space keeps its start. */
  lemma TrimStartKeeps(t: string)
    requires t != [] && !IsSpace(t[0])
    ensures TrimStart(t) == t
  {
  }

  /** Leading spaces go, and the text after them stays. */
  lemma {:induction false} TrimStartSpaces(pad: string, t: string)
    requires forall k :: 0 <= k < |pad| ==> pad[k] == ' '
    requires t != [] && !IsSpace(t[0])
    ensures TrimStart(pad + t) == t
    decreases |pad|
  {
    if pad != [] {
      var s := pad + t;
      assert s[0] == ' ';
      assert s[1..] == pad[1..] + t;
      TrimStartSpaces(pad[1..], t);
    } else {
      assert pad + t == t;
    }
  }

  /** Text that does not end in white space keeps its end. */
  lemma TrimEndKeeps(t: string)
    requires t != [] && !IsSpace(t[|t| - 1])
    ensures TrimEnd(t) == t
  {
  }

  /** Decimal digits of a natural number, most significant first, no leading zeros. */
  function Decimal(n: nat): (r: string)
    ensures |r| >= 1
    ensures forall k :: 0 <= k < |r| ==> IsDigit(r[k])
    ensures n < 10 <==> |r| == 1
    ensures 10 <= n < 100 <==> |r| == 2
    decreases n
  {
    if n < 10 then [DigitChar(n)] else Decimal(n / 10) + [DigitChar(n % 10)]
  }

  /** The number a string of decimal digits denotes, most significant first. */
  function DigitsValue(r: string): int
  {
    if r == [] then 0 else DigitsValue(r[..|r| - 1]) * 10 + (r[|r| - 1] as int - '0' as int)
  }

  /** `Decimal(n)` is `str(n)`: its digits denote `n`, and it has no leading zero. */
  lemma {:induction false} DecimalValue(n: nat)
    ensures DigitsValue(Decimal(n)) == n
    ensures n == 0 || Decimal(n)[0] != '0'
    decreases n
  {
    if n >= 10 {
      DecimalValue(n / 10);
      var d := Decimal(n);
      assert d[..|d| - 1] == Decimal(n / 10);
      assert d[0] == Decimal(n / 10)[0];
    }
  }

  function DigitChar(d: nat): (c: char)
    requires d < 10
    ensures IsDigit(c)
  {
    (48 + d) as char
  }
}
