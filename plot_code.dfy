/** The plot-code grammar of the discovery loop (get_blrindus_data.py):
    a well-formed code is 14 characters, a 12-character base followed by a
    two-digit, zero-padded suffix. */
module PlotCode {
  import opened Common

  const CodeLength: nat := 14
  const BaseLength: nat := 12

  /** The base used when spatial discovery saw no well-formed code. */
  const DefaultBase: string := "Z06572016300"

  function DigitChar(d: nat): (c: char)
    requires d < 10
    ensures IsDigit(c)
  {
    ('0' as int + d) as char
  }

  function DigitValue(c: char): (d: nat)
    requires IsDigit(c)
    ensures d < 10
  {
    (c as int - '0' as int)
  }

  /** Python's `f"{i:02d}"` for 0 <= i < 100. */
  function Format2(i: nat): (s: string)
    requires i < 100
    ensures |s| == 2 && AllDigits(s)
  {
    [DigitChar(i / 10), DigitChar(i % 10)]
  }

  /** Python's `int(s)` for a two-digit string. */
  function Parse2(s: string): (i: nat)
    requires |s| == 2 && AllDigits(s)
    ensures i < 100
  {
    10 * DigitValue(s[0]) + DigitValue(s[1])
  }

  /** A probe or feature code built from a base and a suffix. */
  function Compose(base: string, suffix: nat): (code: string)
    requires suffix < 100
    ensures |code| == |base| + 2
  {
    base + Format2(suffix)
  }

  datatype Split = Split(base: string, suffix: nat)

  /** Whether a code has the canonical shape: 14 characters, the last two digits. */
  predicate WellFormed(code: string) {
    |code| == CodeLength && AllDigits(code[BaseLength..])
  }

  /** The test `len(plotcode) == 14 and plotcode[12:].isdigit()` and the
      decomposition into `plotcode[:12]` and `int(plotcode[12:])`. */
  function Decompose(code: string): (r: Option<Split>)
    ensures r.Some? <==> WellFormed(code)
    ensures r.Some? ==> |r.value.base| == BaseLength && r.value.suffix < 100
  {
    if WellFormed(code) then
      Some(Split(code[..BaseLength], Parse2(code[BaseLength..])))
    else
      None
  }

  lemma ParseFormat(i: nat)
    requires i < 100
    ensures Parse2(Format2(i)) == i
  {
  }

  lemma FormatParse(s: string)
    requires |s| == 2 && AllDigits(s)
    ensures Format2(Parse2(s)) == s
  {
    var d0, d1 := DigitValue(s[0]), DigitValue(s[1]);
    assert (10 * d0 + d1) / 10 == d0 && (10 * d0 + d1) % 10 == d1;
  }

  /** Every decomposed code is rebuilt exactly from its base and suffix. */
  lemma DecomposeCompose(code: string)
    requires Decompose(code).Some?
    ensures Compose(Decompose(code).value.base, Decompose(code).value.suffix) == code
  {
    FormatParse(code[BaseLength..]);
    assert code == code[..BaseLength] + code[BaseLength..];
  }

  /** Every code composed from a 12-character base decomposes back into it. */
  lemma ComposeDecompose(base: string, suffix: nat)
    requires |base| == BaseLength && suffix < 100
    ensures Decompose(Compose(base, suffix)) == Some(Split(base, suffix))
  {
    var code := Compose(base, suffix);
    assert code[..BaseLength] == base;
    assert code[BaseLength..] == Format2(suffix);
    ParseFormat(suffix);
  }

  /** A code of the canonical length whose suffix region holds a non-digit is
      rejected, so it never reaches the base index. */
  lemma NonDigitSuffixRejected(code: string, k: nat)
    requires |code| == CodeLength && BaseLength <= k < CodeLength && !IsDigit(code[k])
    ensures Decompose(code).None?
  {
    assert !IsDigit(code[BaseLength..][k - BaseLength]);
  }

  /** Different (base, suffix) pairs never give the same code. */
  lemma ComposeInjective(b1: string, s1: nat, b2: string, s2: nat)
    requires s1 < 100 && s2 < 100
    requires Compose(b1, s1) == Compose(b2, s2)
    ensures b1 == b2 && s1 == s2
  {
    var c := Compose(b1, s1);
    assert |b1| == |b2|;
    assert b1 == c[..|b1|] == b2;
    assert Format2(s1) == c[|b1|..] == Format2(s2);
    ParseFormat(s1);
    ParseFormat(s2);
  }
}
