/** The parts of Go's strings and strconv packages that the vault's string
    handling depends on, over strings as sequences of characters. */
module Text {
  import opened Errors

  /** The white space that strings.TrimSpace removes (unicode.IsSpace): tab, line
      feed, vertical tab, form feed, carriage return and space, U+0085, U+00A0,
      U+1680, U+2000 to U+200A, the line and paragraph separators, U+202F, U+205F
      and U+3000. */
  predicate IsSpace(c: char)
  {
    || '\t' <= c <= '\r' || c == ' ' || c == 0x85 as char || c == 0xA0 as char || c == 0x1680 as char
    || 0x2000 as char <= c <= 0x200A as char
    || c == 0x2028 as char || c == 0x2029 as char || c == 0x202F as char || c == 0x205F as char
    || c == 0x3000 as char
  }

  const Space: set<char> := set c: char | IsSpace(c)

  /** strings.TrimLeft with a cut set: drops the longest prefix made of cut characters. */
  function TrimLeft(s: string, cut: set<char>): (r: string)
    ensures |r| <= |s| && r == s[|s| - |r|..]
    ensures r == [] || r[0] !in cut
  {
    if |s| > 0 && s[0] in cut then TrimLeft(s[1..], cut) else s
  }

  /** strings.TrimRight with a cut set: drops the longest suffix made of cut characters. */
  function TrimRight(s: string, cut: set<char>): (r: string)
    ensures |r| <= |s| && r == s[..|r|]
    ensures r == [] || r[|r| - 1] !in cut
  {
    if |s| > 0 && s[|s| - 1] in cut then TrimRight(s[..|s| - 1], cut) else s
  }

  /** What TrimLeft drops is made of cut characters. */
  lemma {:induction false} TrimLeftDrops(s: string, cut: set<char>)
    ensures forall i :: 0 <= i < |s| - |TrimLeft(s, cut)| ==> s[i] in cut
  {
    if |s| > 0 && s[0] in cut {
      TrimLeftDrops(s[1..], cut);
    }
  }

  /** What TrimRight drops is made of cut characters. */
  lemma {:induction false} TrimRightDrops(s: string, cut: set<char>)
    ensures forall i :: |TrimRight(s, cut)| <= i < |s| ==> s[i] in cut
  {
    if |s| > 0 && s[|s| - 1] in cut {
      TrimRightDrops(s[..|s| - 1], cut);
    }
  }

  /** strings.Trim: both ends. */
  function Trim(s: string, cut: set<char>): (r: string)
    ensures r == [] || (r[0] !in cut && r[|r| - 1] !in cut)
  {
    TrimRight(TrimLeft(s, cut), cut)
  }

  /** What Trim keeps is one contiguous part of its input. */
  lemma TrimSlice(s: string, cut: set<char>)
    ensures exists i, j :: 0 <= i <= j <= |s| && Trim(s, cut) == s[i..j]
  {
    var l := TrimLeft(s, cut);
    var r := TrimRight(l, cut);
    assert r == s[|s| - |l|..][..|r|] == s[|s| - |l|..|s| - |l| + |r|];
  }

  /** Trimming adds no character: one absent from s is absent from TrimSpace(s). */
  lemma TrimSpaceAbsent(s: string, c: char)
    requires c !in s
    ensures c !in TrimSpace(s)
  {
    TrimSlice(s, Space);
  }

  /** strings.TrimSpace. */
  function TrimSpace(s: string): (r: string)
    ensures r == [] || (r[0] !in Space && r[|r| - 1] !in Space)
  {
    Trim(s, Space)
  }

  function UpperChar(c: char): char
  {
    if 'a' <= c <= 'z' then (c as int - 'a' as int + 'A' as int) as char else c
  }

  /** strings.ToUpper, for ASCII letters. */
  function ToUpper(s: string): (r: string)
    ensures |r| == |s|
    ensures forall i :: 0 <= i < |s| ==> r[i] == UpperChar(s[i])
  {
    if |s| == 0 then [] else [UpperChar(s[0])] + ToUpper(s[1..])
  }

  predicate HasSuffix(s: string, suffix: string)
  {
    |suffix| <= |s| && s[|s| - |suffix|..] == suffix
  }

  /** strings.Cut on a single character: the text before and after its first occurrence. */
  function Cut(s: string, sep: char): (r: Option<(string, string)>)
    ensures r.None? <==> sep !in s
    ensures r.Some? ==> s == r.value.0 + [sep] + r.value.1 && sep !in r.value.0
  {
    if |s| == 0 then None
    else if s[0] == sep then Some(([], s[1..]))
    else match Cut(s[1..], sep)
      case None => None
      case Some((before, after)) =>
        assert s == [s[0]] + s[1..];
        Some(([s[0]] + before, after))
  }

  /** strings.Split on a single character. */
  function Split(s: string, sep: char): (parts: seq<string>)
    ensures |parts| >= 1
    ensures forall i :: 0 <= i < |parts| ==> sep !in parts[i]
    decreases |s|
  {
    match Cut(s, sep)
    case None => [s]
    case Some((before, after)) => [before] + Split(after, sep)
  }

  predicate IsDigit(c: char)
  {
    '0' <= c <= '9'
  }

  /** The value of a string of decimal digits. */
  function DecimalValue(s: string): nat
    requires forall i :: 0 <= i < |s| ==> IsDigit(s[i])
  {
    if |s| == 0 then 0
    else DecimalValue(s[..|s| - 1]) * 10 + DigitValue(s[|s| - 1])
  }

  function DigitValue(c: char): nat
    requires IsDigit(c)
  {
    c as int - '0' as int
  }

  const Uint32Limit: nat := 0x1_0000_0000

  /** The length of the run of decimal digits s starts with. */
  function LeadingDigits(s: string): (n: nat)
    ensures n <= |s| && (forall i :: 0 <= i < n ==> IsDigit(s[i]))
    ensures n < |s| ==> !IsDigit(s[n])
  {
    if |s| == 0 || !IsDigit(s[0]) then 0 else 1 + LeadingDigits(s[1..])
  }

  /** strconv.ParseUint(s, 10, 32): decimal digits only, no sign or underscore,
      and a value that fits in 32 bits. The digits are read left to right, so an
      overflow within the leading digits is a range error even when a character
      that is not a digit follows. */
  function ParseUint32(s: string): (r: Result<nat>)
    ensures r.Ok? <==> |s| > 0 && (forall i :: 0 <= i < |s| ==> IsDigit(s[i])) && DecimalValue(s) < Uint32Limit
    ensures r.Ok? ==> r.value == DecimalValue(s) && r.value < Uint32Limit
    ensures r == Err(ErrRange) <==> DecimalValue(s[..LeadingDigits(s)]) >= Uint32Limit
    ensures r.Err? ==> r.error == ErrSyntax || r.error == ErrRange
  {
    if |s| == 0 then Err(ErrSyntax)
    else
      assert s[..0] == [];
      ScanDigits(s, 0, 0)
  }

  /** The loop of strconv.ParseUint from position i on, n being the value of the
      digits before i: a character that is not a digit is a syntax error, and a
      value past 2^32 - 1 is a range error as soon as it is reached. */
  function ScanDigits(s: string, i: nat, n: nat): (r: Result<nat>)
    requires i <= LeadingDigits(s) && n == DecimalValue(s[..i]) && n < Uint32Limit
    ensures r.Ok? <==> LeadingDigits(s) == |s| && DecimalValue(s) < Uint32Limit
    ensures r.Ok? ==> r.value == DecimalValue(s)
    ensures r == Err(ErrRange) <==> DecimalValue(s[..LeadingDigits(s)]) >= Uint32Limit
    ensures r.Err? ==> r.error == ErrSyntax || r.error == ErrRange
    decreases |s| - i
  {
    if i == |s| then
      assert s[..i] == s;
      Ok(n)
    else if !IsDigit(s[i]) then
      Err(ErrSyntax)
    else
      var next := n * 10 + DigitValue(s[i]);
      assert s[..i + 1][..i] == s[..i];
      if next >= Uint32Limit then
        DecimalValueGrows(s, i + 1, LeadingDigits(s));
        assert s[..|s|] == s;
        Err(ErrRange)
      else
        ScanDigits(s, i + 1, next)
  }

  /** A range error wins over a later syntax error: digits whose value passes
      2^32 - 1 are out of range whatever follows them. */
  lemma RangeBeforeSyntax(digits: string, rest: string)
    requires forall i :: 0 <= i < |digits| ==> IsDigit(digits[i])
    requires DecimalValue(digits) >= Uint32Limit
    ensures ParseUint32(digits + rest) == Err(ErrRange)
  {
    var s := digits + rest;
    assert forall i :: 0 <= i < |digits| ==> IsDigit(s[i]);
    LeadingDigitsAtLeast(s, |digits|);
    DecimalValueGrows(s, |digits|, LeadingDigits(s));
    assert s[..|digits|] == digits;
  }

  lemma {:induction false} LeadingDigitsAtLeast(s: string, k: nat)
    requires k <= |s| && forall i :: 0 <= i < k ==> IsDigit(s[i])
    ensures k <= LeadingDigits(s)
    decreases k
  {
    if k > 0 {
      LeadingDigitsAtLeast(s[1..], k - 1);
    }
  }

  /** More leading digits never give a smaller value. */
  lemma {:induction false} DecimalValueGrows(s: string, j: nat, k: nat)
    requires j <= k <= LeadingDigits(s)
    ensures DecimalValue(s[..j]) <= DecimalValue(s[..k])
    decreases k
  {
    if j < k {
      DecimalValueGrows(s, j, k - 1);
      assert s[..k][..k - 1] == s[..k - 1];
    }
  }

  /** Trimming text whose first and last characters are not in the cut set removes nothing. */
  lemma TrimNothing(s: string, cut: set<char>)
    requires |s| > 0 && s[0] !in cut && s[|s| - 1] !in cut
    ensures Trim(s, cut) == s
  {
  }

  /** The same for strings.TrimSpace. */
  lemma TrimSpaceNothing(s: string)
    requires |s| > 0 && s[0] !in Space && s[|s| - 1] !in Space
    ensures TrimSpace(s) == s
  {
    TrimNothing(s, Space);
  }

  /** Trimmed text is left as it is by a second trim. */
  lemma TrimSpaceIdempotent(s: string)
    ensures TrimSpace(TrimSpace(s)) == TrimSpace(s)
  {
    if TrimSpace(s) != [] {
      TrimNothing(TrimSpace(s), Space);
    }
  }

  /** Cut splits at the first occurrence of the separator. */
  lemma {:induction false} CutAt(before: string, sep: char, after: string)
    requires sep !in before
    ensures Cut(before + [sep] + after, sep) == Some((before, after))
    decreases |before|
  {
    var s := before + [sep] + after;
    if before != [] {
      assert s[1..] == before[1..] + [sep] + after;
      CutAt(before[1..], sep, after);
      assert [s[0]] + before[1..] == before;
    }
  }

  /** Upper-casing neither creates nor removes white space. */
  lemma UpperSpace(c: char)
    ensures UpperChar(c) in Space <==> c in Space
  {
  }

  /** Upper-casing twice is upper-casing once. */
  lemma ToUpperIdempotent(s: string)
    ensures ToUpper(ToUpper(s)) == ToUpper(s)
  {
  }

  lemma ToUpperSlice(s: string, i: nat, j: nat)
    requires i <= j <= |s|
    ensures ToUpper(s)[i..j] == ToUpper(s[i..j])
  {
  }

  lemma {:induction false} TrimLeftUpper(s: string)
    ensures TrimLeft(ToUpper(s), Space) == ToUpper(TrimLeft(s, Space))
    decreases |s|
  {
    if |s| > 0 {
      UpperSpace(s[0]);
      if s[0] in Space {
        ToUpperSlice(s, 1, |s|);
        TrimLeftUpper(s[1..]);
      }
    }
  }

  lemma {:induction false} TrimRightUpper(s: string)
    ensures TrimRight(ToUpper(s), Space) == ToUpper(TrimRight(s, Space))
    decreases |s|
  {
    if |s| > 0 {
      var u := ToUpper(s);
      var last := |s| - 1;
      assert u[last] == UpperChar(s[last]);
      UpperSpace(s[last]);
      if s[last] in Space {
        assert TrimRight(u, Space) == TrimRight(u[..last], Space);
        assert TrimRight(s, Space) == TrimRight(s[..last], Space);
        ToUpperSlice(s, 0, last);
        TrimRightUpper(s[..last]);
      } else {
        assert TrimRight(u, Space) == u;
      }
    }
  }

  /** Trimming and upper-casing can be done in either order. */
  lemma TrimSpaceUpper(s: string)
    ensures TrimSpace(ToUpper(s)) == ToUpper(TrimSpace(s))
  {
    TrimLeftUpper(s);
    TrimRightUpper(TrimLeft(s, Space));
  }
}
