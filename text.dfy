/**
 * The .NET string and number primitives the interpreter relies on, restricted to ASCII:
 * Trim/TrimEnd, ToLower, case-insensitive equality, int.ToString, int.TryParse,
 * Split on '\n' with empty entries removed, and string.Join.
 */
module Text {
  import opened Common

  /** Char.IsWhiteSpace on ASCII: space, tab, line feed, vertical tab, form feed, carriage return. */
  predicate IsWhite(c: char) {
    c == ' ' || ('\t' <= c <= '\r')
  }

  predicate NoWhiteEdges(s: string) {
    s == [] || (!IsWhite(s[0]) && !IsWhite(s[|s| - 1]))
  }

  /** String.TrimStart(): the longest suffix that does not start with white space. */
  function TrimStart(s: string): (r: string)
    ensures |r| <= |s| && r == s[|s| - |r|..]
    ensures r == [] || !IsWhite(r[0])
    ensures forall i :: 0 <= i < |s| - |r| ==> IsWhite(s[i])
  {
    if s != [] && IsWhite(s[0]) then TrimStart(s[1..]) else s
  }

  /** String.TrimEnd(): the longest prefix that does not end with white space. */
  function TrimEnd(s: string): (r: string)
    ensures |r| <= |s| && r == s[..|r|]
    ensures r == [] || !IsWhite(r[|r| - 1])
    ensures forall i :: |r| <= i < |s| ==> IsWhite(s[i])
  {
    if s != [] && IsWhite(s[|s| - 1]) then TrimEnd(s[..|s| - 1]) else s
  }

  /** s is r with k white-space characters before it and only white space after it. */
  predicate PaddedAt(s: string, k: nat, r: string) {
    k + |r| <= |s| && r == s[k..k + |r|] &&
    (forall i :: 0 <= i < k ==> IsWhite(s[i])) && (forall i :: k + |r| <= i < |s| ==> IsWhite(s[i]))
  }

  /** String.Trim(): white space removed from both ends. */
  function Trim(s: string): (r: string)
    ensures |r| <= |s| && NoWhiteEdges(r)
  {
    TrimEnd(TrimStart(s))
  }

  /** Trim only removes characters: one absent from s is absent from Trim(s). */
  lemma TrimKeepsAbsent(s: string, c: char)
    requires c !in s
    ensures c !in Trim(s)
  {
    var t := TrimStart(s);
    assert t == s[|s| - |t|..];
    assert c !in t;
    var u := TrimEnd(t);
    assert u == t[..|u|];
  }

  /** Trim removes the white space at both ends and nothing else. */
  lemma TrimStrips(s: string)
    ensures NoWhiteEdges(Trim(s)) && exists k: nat :: PaddedAt(s, k, Trim(s))
  {
    var k := |s| - |TrimStart(s)|;
    assert PaddedAt(s, k, Trim(s));
  }

  lemma TrimStartOfNoWhite(s: string)
    requires NoWhiteEdges(s)
    ensures TrimStart(s) == s
  {
  }

  lemma TrimEndOfNoWhite(s: string)
    requires NoWhiteEdges(s)
    ensures TrimEnd(s) == s
  {
  }

  /** A string without white space at its ends is left alone by Trim; in particular Trim is idempotent. */
  lemma TrimOfNoWhite(s: string)
    requires NoWhiteEdges(s)
    ensures Trim(s) == s
  {
    TrimStartOfNoWhite(s);
    TrimEndOfNoWhite(s);
  }

  lemma TrimIdempotent(s: string)
    ensures Trim(Trim(s)) == Trim(s)
  {
    TrimOfNoWhite(Trim(s));
  }

  /** Char.ToLower on ASCII letters; every other character is unchanged. */
  function LowerChar(c: char): (r: char)
    ensures IsWhite(r) <==> IsWhite(c)
    ensures 'A' <= c <= 'Z' ==> r as int == c as int + 32
    ensures !('A' <= c <= 'Z') ==> r == c
  {
    if 'A' <= c <= 'Z' then (c as int + 32) as char else c
  }

  predicate IsLowerCase(s: string) {
    forall i :: 0 <= i < |s| ==> !('A' <= s[i] <= 'Z')
  }

  /** String.ToLower(): same length, characterwise lowering, no upper-case letter left. */
  function Lower(s: string): (r: string)
    ensures |r| == |s| && IsLowerCase(r)
    ensures forall i :: 0 <= i < |s| ==> r[i] == LowerChar(s[i])
  {
    seq(|s|, i requires 0 <= i < |s| => LowerChar(s[i]))
  }

  lemma LowerOfLowerCase(s: string)
    requires IsLowerCase(s)
    ensures Lower(s) == s
  {
  }

  lemma LowerIdempotent(s: string)
    ensures Lower(Lower(s)) == Lower(s)
  {
    LowerOfLowerCase(Lower(s));
  }

  lemma LowerKeepsNoWhiteEdges(s: string)
    requires NoWhiteEdges(s)
    ensures NoWhiteEdges(Lower(s))
  {
  }

  /** String.Equals(a, b, StringComparison.CurrentCultureIgnoreCase), on ASCII. */
  predicate EqualsIgnoreCase(a: string, b: string) {
    Lower(a) == Lower(b)
  }

  // ---------------------------------------------------------------- 32-bit integers

  const MinInt32: int := -0x8000_0000
  const MaxInt32: int := 0x7FFF_FFFF

  predicate IsInt32(x: int) {
    MinInt32 <= x <= MaxInt32
  }

  /** Unchecked C# int arithmetic: the mathematical result reduced modulo 2^32 into the int range. */
  function Wrap(x: int): (r: int)
    ensures IsInt32(r)
    ensures (r - x) % 0x1_0000_0000 == 0
    ensures IsInt32(x) ==> r == x
  {
    (x - MinInt32) % 0x1_0000_0000 + MinInt32
  }

  // ---------------------------------------------------------------- decimal digits

  predicate IsDigit(c: char) {
    '0' <= c <= '9'
  }

  predicate AllDigits(s: string) {
    forall i :: 0 <= i < |s| ==> IsDigit(s[i])
  }

  function DigitChar(d: nat): (c: char)
    requires d < 10
    ensures IsDigit(c) && c as int - '0' as int == d
  {
    ('0' as int + d) as char
  }

  /** The value of a string of decimal digits, most significant first. */
  function DigitsValue(s: string): nat
    requires AllDigits(s)
  {
    if s == [] then 0 else DigitsValue(s[..|s| - 1]) * 10 + (s[|s| - 1] as int - '0' as int)
  }

  /** The shortest decimal spelling of a natural number. */
  function NatToDigits(n: nat): (r: string)
    ensures |r| > 0 && AllDigits(r)
    decreases n
  {
    if n < 10 then [DigitChar(n)] else NatToDigits(n / 10) + [DigitChar(n % 10)]
  }

  lemma {:induction false} DigitsRoundTrip(n: nat)
    ensures DigitsValue(NatToDigits(n)) == n
  {
    if n >= 10 {
      var s := NatToDigits(n);
      assert s[..|s| - 1] == NatToDigits(n / 10);
      DigitsRoundTrip(n / 10);
    }
  }

  /** Int32.ToString() with the invariant culture: an optional '-' and the digits. */
  function Decimal(i: int): (r: string)
    ensures |r| > 0 && NoWhiteEdges(r)
    ensures i >= 0 <==> AllDigits(r)
  {
    if i < 0 then "-" + NatToDigits(-i) else NatToDigits(i)
  }

  /**
   * Int32.TryParse(s) with NumberStyles.Integer: optional white space around an optional
   * '+' or '-' sign and at least one decimal digit; None when the value does not fit in 32 bits.
   */
  function TryParseInt(s: string): (r: Option<int>)
    ensures r.Some? ==> IsInt32(r.value)
  {
    ParseSigned(Trim(s))
  }

  /** The part of TryParse after white space is trimmed: an optional sign, then digits. */
  function ParseSigned(t: string): (r: Option<int>)
    ensures r.Some? ==> IsInt32(r.value)
  {
    var negative := |t| > 0 && t[0] == '-';
    var digits := if |t| > 0 && (t[0] == '-' || t[0] == '+') then t[1..] else t;
    if digits == [] || !AllDigits(digits) then None
    else
      var magnitude: int := DigitsValue(digits);
      var v := if negative then -magnitude else magnitude;
      if IsInt32(v) then Some(v) else None
  }

  lemma ParseSignedDecimal(i: int)
    requires IsInt32(i)
    ensures ParseSigned(Decimal(i)) == Some(i)
  {
    var d := Decimal(i);
    if i < 0 {
      var n: nat := -i;
      assert d == "-" + NatToDigits(n);
      assert d[1..] == NatToDigits(n);
      DigitsRoundTrip(n);
    } else {
      DigitsRoundTrip(i);
    }
  }

  /** Every 32-bit integer survives printing and parsing back (resolved jump targets rely on this). */
  lemma DecimalRoundTrip(i: int)
    requires IsInt32(i)
    ensures TryParseInt(Decimal(i)) == Some(i)
  {
    TrimOfNoWhite(Decimal(i));
    ParseSignedDecimal(i);
  }

  /** A token that starts with a letter is not a number. */
  lemma LetterFirstNoNumber(s: string)
    requires |s| > 0 && ('a' <= s[0] <= 'z' || 'A' <= s[0] <= 'Z')
    ensures TryParseInt(s) == None
  {
    assert TrimStart(s) == s;
    var t := TrimEnd(s);
    assert Trim(s) == t;
    assert |t| > 0 && t[0] == s[0];
    assert !IsDigit(t[0]);
  }

  // ---------------------------------------------------------------- splitting and joining

  /** The first index of c in s, or |s| when c does not occur. */
  function IndexOf(s: string, c: char): (k: nat)
    ensures k <= |s| && c !in s[..k]
    ensures k < |s| ==> s[k] == c
  {
    if s == [] then 0 else if s[0] == c then 0 else 1 + IndexOf(s[1..], c)
  }

  /** The characters of s with every occurrence of c deleted. */
  function Without(s: string, c: char): (r: string)
    ensures c !in r
  {
    if s == [] then [] else (if s[0] == c then [] else [s[0]]) + Without(s[1..], c)
  }

  lemma {:induction false} WithoutAppend(a: string, b: string, c: char)
    ensures Without(a + b, c) == Without(a, c) + Without(b, c)
  {
    if a == [] {
      assert a + b == b;
    } else {
      assert (a + b)[0] == a[0];
      assert (a + b)[1..] == a[1..] + b;
      WithoutAppend(a[1..], b, c);
    }
  }

  lemma {:induction false} WithoutAbsent(a: string, c: char)
    requires c !in a
    ensures Without(a, c) == a
  {
    if a != [] {
      WithoutAbsent(a[1..], c);
    }
  }

  function Concat(ls: seq<string>): string {
    if ls == [] then [] else ls[0] + Concat(ls[1..])
  }

  /**
   * String.Split('\n', StringSplitOptions.RemoveEmptyEntries): the maximal non-empty runs of
   * characters other than '\n', in order; together they hold every other character of s.
   */
  function SplitLines(s: string): (r: seq<string>)
    ensures forall i :: 0 <= i < |r| ==> |r[i]| > 0 && '\n' !in r[i]
    decreases |s|
  {
    var k := IndexOf(s, '\n');
    var head := s[..k];
    var rest := if k < |s| then SplitLines(s[k + 1..]) else [];
    if head == [] then rest else [head] + rest
  }

  /** Splitting loses nothing but the separators. */
  lemma {:induction false} SplitLinesKeepsText(s: string)
    ensures Concat(SplitLines(s)) == Without(s, '\n')
    decreases |s|
  {
    var k := IndexOf(s, '\n');
    var head := s[..k];
    WithoutAbsent(head, '\n');
    if k < |s| {
      var tail := s[k + 1..];
      SplitLinesKeepsText(tail);
      WithoutAtSeparator(s, k);
      if head != [] {
        ConcatCons(head, SplitLines(tail));
      } else {
        assert Without(s, '\n') == Without(tail, '\n');
      }
    } else {
      assert s == head;
      if head != [] {
        ConcatCons(head, []);
        assert SplitLines(s) == [head] + [];
      }
    }
  }

  /** Deleting separators around the first one at k: what precedes it, then the rest. */
  lemma WithoutAtSeparator(s: string, k: nat)
    requires k < |s| && s[k] == '\n' && '\n' !in s[..k]
    ensures Without(s, '\n') == s[..k] + Without(s[k + 1..], '\n')
  {
    var head, rest := s[..k], s[k..];
    assert s == head + rest;
    WithoutAppend(head, rest, '\n');
    WithoutAbsent(head, '\n');
    WithoutFirst(rest, '\n');
    assert rest[1..] == s[k + 1..];
  }

  lemma WithoutFirst(s: string, c: char)
    requires |s| > 0 && s[0] == c
    ensures Without(s, c) == Without(s[1..], c)
  {
    assert Without(s, c) == [] + Without(s[1..], c);
    assert [] + Without(s[1..], c) == Without(s[1..], c);
  }

  lemma ConcatCons(head: string, rest: seq<string>)
    ensures Concat([head] + rest) == head + Concat(rest)
  {
    assert ([head] + rest)[1..] == rest;
  }

  /** String.Join(sep, ls). */
  function Join(sep: string, ls: seq<string>): string {
    if ls == [] then [] else if |ls| == 1 then ls[0] else ls[0] + sep + Join(sep, ls[1..])
  }

  lemma {:induction false} IndexOfAppend(l: string, rest: string, c: char)
    requires c !in l
    ensures IndexOf(l + rest, c) == |l| + IndexOf(rest, c)
  {
    if l == [] {
      assert l + rest == rest;
    } else {
      assert (l + rest)[0] == l[0];
      assert (l + rest)[1..] == l[1..] + rest;
      IndexOfAppend(l[1..], rest, c);
    }
  }

  /** Splitting the '\n'-joined lines gives the lines back when none is empty or holds '\n'. */
  lemma {:induction false} SplitJoinLines(ls: seq<string>)
    requires forall i :: 0 <= i < |ls| ==> |ls[i]| > 0 && '\n' !in ls[i]
    ensures SplitLines(Join("\n", ls)) == ls
  {
    if |ls| == 1 {
      SplitLinesOfLine(ls[0]);
    } else if |ls| > 1 {
      var rest := Join("\n", ls[1..]);
      assert Join("\n", ls) == ls[0] + "\n" + rest;
      SplitJoinLines(ls[1..]);
      SplitLinesCons(ls[0], rest);
      assert ls == [ls[0]] + ls[1..];
    }
  }

  lemma SplitLinesOfLine(l: string)
    requires |l| > 0 && '\n' !in l
    ensures SplitLines(l) == [l]
  {
    IndexOfAppend(l, [], '\n');
    assert l + [] == l;
    assert l[..|l|] == l;
  }

  /** A non-empty line followed by '\n' is the first piece. */
  lemma SplitLinesCons(l: string, rest: string)
    requires |l| > 0 && '\n' !in l
    ensures SplitLines(l + "\n" + rest) == [l] + SplitLines(rest)
  {
    var s := l + ("\n" + rest);
    assert l + "\n" + rest == s;
    IndexOfAppend(l, "\n" + rest, '\n');
    assert s[..|l|] == l;
    assert s[|l| + 1..] == rest;
  }
}
