/** The string operations the counter and the reporter rely on, as Python
    defines them: whitespace splitting (str.split() with no argument),
    stripping (str.strip()), splitting on commas (str.split(',')), decimal
    rendering of integers (str(int)) and left justification (str.ljust). */
module Text {

  /** Python's str.isspace: the characters str.split() and str.strip() treat
      as whitespace when called without arguments. */
  predicate IsSpace(c: char)
  {
    var n := c as int;
    || 9 <= n <= 13
    || 28 <= n <= 32
    || n == 0x85
    || n == 0xA0
    || n == 0x1680
    || 0x2000 <= n <= 0x200A
    || n == 0x2028
    || n == 0x2029
    || n == 0x202F
    || n == 0x205F
    || n == 0x3000
  }

  predicate NoSpace(s: string)
  {
    forall i :: 0 <= i < |s| ==> !IsSpace(s[i])
  }

  predicate AllSpace(s: string)
  {
    forall i :: 0 <= i < |s| ==> IsSpace(s[i])
  }

  // ---------------------------------------------------------------------
  // str.split() and str.strip()
  // ---------------------------------------------------------------------

  /** The length of the run of non-space characters that starts `s`. */
  function WordLength(s: string): (n: nat)
    ensures n <= |s| && NoSpace(s[..n])
    ensures n < |s| ==> IsSpace(s[n])
  {
    if s == [] || IsSpace(s[0]) then 0
    else
      1 + WordLength(s[1..])
  }

  /** `s.split()`: the maximal runs of non-space characters, left to right;
      runs of whitespace separate them and leading or trailing whitespace
      produces no empty token. */
  function Tokens(s: string): (words: seq<string>)
    ensures forall i :: 0 <= i < |words| ==> words[i] != [] && NoSpace(words[i])
    decreases |s|
  {
    if s == [] then []
    else if IsSpace(s[0]) then Tokens(s[1..])
    else
      var n := WordLength(s);
      [s[..n]] + Tokens(s[n..])
  }

  /** `s.lstrip()`: `s` without its leading whitespace. */
  function LStrip(s: string): (r: string)
    ensures |r| <= |s| && r == s[|s| - |r|..]
    ensures AllSpace(s[..|s| - |r|])
    ensures r == [] || !IsSpace(r[0])
  {
    if s != [] && IsSpace(s[0]) then
      LStrip(s[1..])
    else s
  }

  /** `s.rstrip()`: `s` without its trailing whitespace. */
  function RStrip(s: string): (r: string)
    ensures |r| <= |s| && r == s[..|r|]
    ensures AllSpace(s[|r|..])
    ensures r == [] || !IsSpace(r[|r| - 1])
  {
    if s != [] && IsSpace(s[|s| - 1]) then
      var r := RStrip(s[..|s| - 1]);
      assert forall i :: |r| <= i < |s| - 1 ==> s[i] == s[..|s| - 1][i];
      r
    else s
  }

  /** `s.strip()`. */
  function Strip(s: string): string
  {
    RStrip(LStrip(s))
  }

  lemma {:induction false} WordLengthAppend(a: string, b: string)
    requires WordLength(a) < |a| || b == [] || IsSpace(b[0])
    ensures WordLength(a + b) == WordLength(a)
    decreases |a|
  {
    if a == [] {
      assert a + b == b;
    } else if IsSpace(a[0]) {
      assert (a + b)[0] == a[0];
    } else {
      assert (a + b)[0] == a[0];
      assert (a + b)[1..] == a[1..] + b;
      WordLengthAppend(a[1..], b);
    }
  }

  /** Splitting two strings that meet at whitespace (or where one of them is
      empty) splits each of them separately. */
  lemma {:induction false} TokensAppend(a: string, b: string)
    requires a == [] || IsSpace(a[|a| - 1]) || b == [] || IsSpace(b[0])
    ensures Tokens(a + b) == Tokens(a) + Tokens(b)
    decreases |a|, 1
  {
    if a == [] {
      assert a + b == b;
    } else if IsSpace(a[0]) {
      assert (a + b)[0] == a[0];
      assert (a + b)[1..] == a[1..] + b;
      TokensAppend(a[1..], b);
    } else {
      TokensAppendWord(a, b);
    }
  }

  /** The case of `TokensAppend` where `a` starts with a word. */
  lemma {:induction false} TokensAppendWord(a: string, b: string)
    requires a != [] && !IsSpace(a[0])
    requires IsSpace(a[|a| - 1]) || b == [] || IsSpace(b[0])
    ensures Tokens(a + b) == Tokens(a) + Tokens(b)
    decreases |a|, 0
  {
    var n := WordLength(a);
    WordEnd(a, b);
    WordLengthAppend(a, b);
    var ab := a + b;
    assert ab[0] == a[0];
    assert ab[..n] == a[..n];
    assert ab[n..] == a[n..] + b;
    assert Tokens(ab) == [a[..n]] + Tokens(a[n..] + b);
    TokensAppend(a[n..], b);
  }

  /** A word that runs to the end of `a` runs on into `b` unless `b` starts
      with whitespace. */
  lemma WordEnd(a: string, b: string)
    requires a != []
    requires IsSpace(a[|a| - 1]) || b == [] || IsSpace(b[0])
    ensures WordLength(a) < |a| || b == [] || IsSpace(b[0])
  {
    var n := WordLength(a);
    if n == |a| {
      assert a[..n][|a| - 1] == a[|a| - 1];
    }
  }

  /** A line splits into no tokens exactly when it is empty or all
      whitespace. */
  lemma {:induction false} TokensEmptyIffAllSpace(s: string)
    ensures Tokens(s) == [] <==> AllSpace(s)
    decreases |s|
  {
    if s != [] && IsSpace(s[0]) {
      TokensEmptyIffAllSpace(s[1..]);
      assert AllSpace(s) <==> AllSpace(s[1..]) by {
        if AllSpace(s[1..]) {
          forall i | 0 <= i < |s| ensures IsSpace(s[i]) {
            if i > 0 { assert s[i] == s[1..][i - 1]; }
          }
        }
      }
    }
  }

  /** A non-empty string without whitespace is a single token. */
  lemma TokensOfWord(w: string)
    requires w != [] && NoSpace(w)
    ensures Tokens(w) == [w]
  {
    assert WordLength(w) == |w|;
    assert w[..|w|] == w;
    assert w[|w|..] == [];
  }

  /** Stripping before splitting changes nothing: str.split() already drops
      leading and trailing whitespace. */
  lemma TokensOfStrip(s: string)
    ensures Tokens(Strip(s)) == Tokens(s)
  {
    TokensOfLStrip(s);
    TokensOfRStrip(LStrip(s));
  }

  lemma TokensOfLStrip(s: string)
    ensures Tokens(LStrip(s)) == Tokens(s)
  {
    var l := LStrip(s);
    var lead := s[..|s| - |l|];
    assert s == lead + l;
    TokensAppend(lead, l);
    TokensEmptyIffAllSpace(lead);
  }

  lemma TokensOfRStrip(s: string)
    ensures Tokens(RStrip(s)) == Tokens(s)
  {
    var r := RStrip(s);
    var trail := s[|r|..];
    assert s == r + trail;
    TokensAppend(r, trail);
    TokensEmptyIffAllSpace(trail);
  }

  // ---------------------------------------------------------------------
  // str.split(',') and its inverse ','.join
  // ---------------------------------------------------------------------

  /** `s.split(',')`: the pieces between commas, empty pieces included; there
      is always one more piece than there are commas. */
  function SplitComma(s: string): (pieces: seq<string>)
    ensures |pieces| >= 1
    ensures forall i :: 0 <= i < |pieces| ==> ',' !in pieces[i]
  {
    if s == [] then [[]]
    else
      var rest := SplitComma(s[1..]);
      if s[0] == ',' then [[]] + rest
      else [[s[0]] + rest[0]] + rest[1..]
  }

  /** There is one more piece than there are commas. */
  lemma {:induction false} SplitCommaCount(s: string)
    ensures |SplitComma(s)| == multiset(s)[','] + 1
  {
    if s != [] {
      SplitCommaCount(s[1..]);
      assert s == [s[0]] + s[1..];
    }
  }

  /** `','.join(pieces)`. */
  function JoinComma(pieces: seq<string>): string
    requires |pieces| >= 1
  {
    if |pieces| == 1 then pieces[0]
    else pieces[0] + [','] + JoinComma(pieces[1..])
  }

  lemma {:induction false} JoinSplitComma(s: string)
    ensures JoinComma(SplitComma(s)) == s
  {
    if s != [] {
      JoinSplitComma(s[1..]);
      var rest := SplitComma(s[1..]);
      if s[0] != ',' && |rest| > 1 {
        assert ([[s[0]] + rest[0]] + rest[1..])[1..] == rest[1..];
      }
    }
  }

  lemma {:induction false} SplitCommaPrefix(w: string, rest: string)
    requires ',' !in w
    ensures SplitComma(w + rest) == [w + SplitComma(rest)[0]] + SplitComma(rest)[1..]
  {
    var pieces := SplitComma(rest);
    if w == [] {
      assert w + rest == rest;
      assert w + pieces[0] == pieces[0];
      assert [pieces[0]] + pieces[1..] == pieces;
    } else {
      assert (w + rest)[1..] == w[1..] + rest;
      SplitCommaPrefix(w[1..], rest);
      assert [w[0]] + (w[1..] + SplitComma(rest)[0]) == w + SplitComma(rest)[0];
    }
  }

  /** Splitting comma-free pieces joined by commas gives the pieces back. */
  lemma {:induction false} SplitJoinComma(pieces: seq<string>)
    requires |pieces| >= 1
    requires forall i :: 0 <= i < |pieces| ==> ',' !in pieces[i]
    ensures SplitComma(JoinComma(pieces)) == pieces
  {
    if |pieces| == 1 {
      SplitCommaPrefix(pieces[0], []);
      assert pieces[0] + [] == pieces[0];
    } else {
      var tail := JoinComma(pieces[1..]);
      SplitJoinComma(pieces[1..]);
      assert ([','] + tail)[0] == ',';
      assert ([','] + tail)[1..] == tail;
      assert SplitComma([','] + tail) == [[]] + pieces[1..];
      assert pieces[0] + [','] + tail == pieces[0] + ([','] + tail);
      SplitCommaPrefix(pieces[0], [','] + tail);
      assert pieces[0] + [] == pieces[0];
    }
  }

  // ---------------------------------------------------------------------
  // str(int)
  // ---------------------------------------------------------------------

  predicate IsDigit(c: char)
  {
    '0' <= c <= '9'
  }

  predicate AllDigits(s: string)
  {
    forall i :: 0 <= i < |s| ==> IsDigit(s[i])
  }

  function DigitChar(d: nat): (c: char)
    requires d < 10
    ensures IsDigit(c) && c as int - '0' as int == d
  {
    ('0' as int + d) as char
  }

  /** `str(n)` for a natural number: its decimal digits, without leading
      zeros. */
  function NatToString(n: nat): (s: string)
    ensures |s| >= 1 && AllDigits(s)
    ensures s[0] == '0' <==> n == 0
  {
    if n < 10 then [DigitChar(n)]
    else NatToString(n / 10) + [DigitChar(n % 10)]
  }

  /** `str(i)` for any integer: a minus sign before the digits of a negative
      number. */
  function IntToString(i: int): (s: string)
    ensures s != [] && NoSpace(s)
  {
    if i < 0 then "-" + NatToString(-i) else NatToString(i)
  }

  /** The number a string of decimal digits denotes (`int(s)`). */
  function DecimalValue(s: string): nat
    requires AllDigits(s)
  {
    if s == [] then 0
    else 10 * DecimalValue(s[..|s| - 1]) + (s[|s| - 1] as int - '0' as int)
  }

  /** Reading back the digits `str` prints gives the number. */
  lemma {:induction false} DecimalOfNatToString(n: nat)
    ensures DecimalValue(NatToString(n)) == n
  {
    if n >= 10 {
      DecimalOfNatToString(n / 10);
      var s := NatToString(n);
      assert s[..|s| - 1] == NatToString(n / 10);
    }
  }

  lemma {:induction false} DecimalValuePositive(s: string)
    requires s != [] && AllDigits(s) && s[0] != '0'
    ensures DecimalValue(s) >= 1
  {
    if |s| > 1 {
      DecimalValuePositive(s[..|s| - 1]);
    }
  }

  /** Conversely, every canonical digit string is what `str` prints for its
      value. */
  lemma {:induction false} NatToStringOfDecimal(s: string)
    requires s != [] && AllDigits(s)
    requires s[0] == '0' ==> |s| == 1
    ensures NatToString(DecimalValue(s)) == s
  {
    if |s| > 1 {
      var init := s[..|s| - 1];
      NatToStringOfDecimal(init);
      DecimalValuePositive(init);
      var v := DecimalValue(s);
      var d := s[|s| - 1] as int - '0' as int;
      assert v / 10 == DecimalValue(init) && v % 10 == d;
      assert DigitChar(d) == s[|s| - 1];
      assert s == init + [s[|s| - 1]];
    }
  }

  function Pow10(k: nat): (p: nat)
    ensures p >= 1
  {
    if k == 0 then 1 else 10 * Pow10(k - 1)
  }

  /** `str(n)` has at most k digits exactly when n < 10^k. */
  lemma {:induction false} NatToStringWidth(n: nat, k: nat)
    requires k >= 1
    ensures |NatToString(n)| <= k <==> n < Pow10(k)
  {
    if n >= 10 {
      if k == 1 {
        assert |NatToString(n)| >= 2;
      } else {
        NatToStringWidth(n / 10, k - 1);
        assert n / 10 < Pow10(k - 1) <==> n < Pow10(k);
      }
    } else {
      if k > 1 { assert Pow10(k) == 10 * Pow10(k - 1); }
    }
  }

  // ---------------------------------------------------------------------
  // str.ljust
  // ---------------------------------------------------------------------

  function Spaces(n: nat): (r: string)
    ensures |r| == n && forall i :: 0 <= i < n ==> r[i] == ' '
  {
    seq(n, _ => ' ')
  }

  /** `s.ljust(width)`: `s` padded on the right with spaces up to `width`
      characters; a string already that wide is returned whole, never
      truncated. */
  function LJust(s: string, width: int): (r: string)
    ensures |r| == if |s| >= width then |s| else width
    ensures r[..|s|] == s
    ensures forall i :: |s| <= i < |r| ==> r[i] == ' '
  {
    if |s| >= width then s else s + Spaces(width - |s|)
  }
}
