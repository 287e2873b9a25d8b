/** The timestamp shape `isoPattern` of the end-to-end tests:
    `^\d{4}-\d{2}-\d{2}T\d{2}:\d{2}:\d{2}\.\d{3}Z$`, with JavaScript's `\d`
    (the ASCII digits only) and anchors at both ends of the whole string.

    The regex is written as a sequence of character classes, one per position,
    and `Matches` is the per-position test. `Format` and `Parse` are an
    independent description of the same language: the strings the pattern
    accepts are exactly the renderings of seven zero-padded numbers. */
module IsoPattern {

  /** One position of the pattern: `\d` or a literal character. */
  datatype CharClass = Digit | Literal(c: char)

  predicate IsDigit(c: char) {
    '0' <= c <= '9'
  }

  predicate Admits(k: CharClass, c: char) {
    match k
    case Digit => IsDigit(c)
    case Literal(l) => c == l
  }

  /** `\d{w}` */
  function DigitRun(w: nat): (r: seq<CharClass>)
    ensures |r| == w && forall i :: 0 <= i < w ==> r[i] == Digit
  {
    seq(w, _ => Digit)
  }

  /** The pattern, segment by segment as the regex spells it. */
  const Pattern: seq<CharClass> :=
    DigitRun(4) + [Literal('-')] + DigitRun(2) + [Literal('-')] + DigitRun(2) + [Literal('T')] +
    DigitRun(2) + [Literal(':')] + DigitRun(2) + [Literal(':')] + DigitRun(2) + [Literal('.')] +
    DigitRun(3) + [Literal('Z')]

  /** `s` matches the classes `p` position by position, and has their length. */
  predicate MatchesClasses(s: string, p: seq<CharClass>) {
    |s| == |p| && forall i :: 0 <= i < |s| ==> Admits(p[i], s[i])
  }

  /** `isoPattern.test(s)` */
  predicate Matches(s: string) {
    MatchesClasses(s, Pattern)
  }

  // ---------------------------------------------------------------------------
  // Reference description: seven numbers rendered with fixed widths

  datatype Timestamp = Timestamp(year: nat, month: nat, day: nat, hour: nat, minute: nat, second: nat, millis: nat)

  function Pow10(w: nat): (r: nat)
    ensures r >= 1
  {
    if w == 0 then 1 else 10 * Pow10(w - 1)
  }

  /** Every field fits its width in the rendering (the pattern checks digits, not ranges). */
  predicate FitsWidths(t: Timestamp) {
    t.year < Pow10(4) && t.month < Pow10(2) && t.day < Pow10(2) && t.hour < Pow10(2) &&
    t.minute < Pow10(2) && t.second < Pow10(2) && t.millis < Pow10(3)
  }

  predicate AllDigits(s: string) {
    forall i :: 0 <= i < |s| ==> IsDigit(s[i])
  }

  function DigitChar(d: nat): char
    requires d < 10
  {
    ('0' as int + d) as char
  }

  /** `n` rendered in decimal with exactly `w` digits (zero-padded, high digits dropped). */
  function Pad(n: nat, w: nat): (r: string)
    ensures |r| == w && AllDigits(r)
  {
    if w == 0 then [] else Pad(n / 10, w - 1) + [DigitChar(n % 10)]
  }

  /** The number a run of decimal digits denotes. */
  function DigitsValue(s: string): (n: nat)
    requires AllDigits(s)
    ensures n < Pow10(|s|)
  {
    if s == [] then 0 else DigitsValue(s[..|s| - 1]) * 10 + (s[|s| - 1] as int - '0' as int)
  }

  function Format(t: Timestamp): string {
    Pad(t.year, 4) + "-" + Pad(t.month, 2) + "-" + Pad(t.day, 2) + "T" +
    Pad(t.hour, 2) + ":" + Pad(t.minute, 2) + ":" + Pad(t.second, 2) + "." +
    Pad(t.millis, 3) + "Z"
  }

  function Parse(s: string): Timestamp
    requires Matches(s)
  {
    DigitSlices(s);
    Timestamp(DigitsValue(s[0..4]), DigitsValue(s[5..7]), DigitsValue(s[8..10]),
              DigitsValue(s[11..13]), DigitsValue(s[14..16]), DigitsValue(s[17..19]),
              DigitsValue(s[20..23]))
  }

  // ---------------------------------------------------------------------------
  // Lemmas

  /** Where the pattern has its digits and its literals. */
  lemma PatternLayout()
    ensures |Pattern| == 24
    ensures forall i :: 0 <= i < 24 && i !in {4, 7, 10, 13, 16, 19, 23} ==> Pattern[i] == Digit
    ensures Pattern[4] == Literal('-') && Pattern[7] == Literal('-') && Pattern[10] == Literal('T')
    ensures Pattern[13] == Literal(':') && Pattern[16] == Literal(':') && Pattern[19] == Literal('.')
    ensures Pattern[23] == Literal('Z')
  {
  }

  lemma DigitSlices(s: string)
    requires Matches(s)
    ensures AllDigits(s[0..4]) && AllDigits(s[5..7]) && AllDigits(s[8..10]) && AllDigits(s[11..13])
    ensures AllDigits(s[14..16]) && AllDigits(s[17..19]) && AllDigits(s[20..23])
  {
    PatternLayout();
  }

  lemma {:induction false} ValueOfPad(n: nat, w: nat)
    requires n < Pow10(w)
    ensures DigitsValue(Pad(n, w)) == n
  {
    if w > 0 {
      var p := Pad(n, w);
      assert p[..w - 1] == Pad(n / 10, w - 1);
      ValueOfPad(n / 10, w - 1);
    }
  }

  lemma {:induction false} PadOfValue(s: string)
    requires AllDigits(s)
    ensures Pad(DigitsValue(s), |s|) == s
  {
    if s != [] {
      var init := s[..|s| - 1];
      var d := s[|s| - 1] as int - '0' as int;
      assert DigitsValue(s) / 10 == DigitsValue(init) && DigitsValue(s) % 10 == d;
      PadOfValue(init);
      assert s == init + [s[|s| - 1]];
    }
  }

  /** Every rendering is accepted by the pattern. */
  lemma FormatMatches(t: Timestamp)
    ensures Matches(Format(t))
  {
    PatternLayout();
  }

  /** Rendering loses nothing when every field fits its width. */
  lemma ParseFormat(t: Timestamp)
    requires FitsWidths(t)
    ensures Matches(Format(t)) && Parse(Format(t)) == t
  {
    FormatMatches(t);
    var s := Format(t);
    assert s[0..4] == Pad(t.year, 4);
    assert s[5..7] == Pad(t.month, 2);
    assert s[8..10] == Pad(t.day, 2);
    assert s[11..13] == Pad(t.hour, 2);
    assert s[14..16] == Pad(t.minute, 2);
    assert s[17..19] == Pad(t.second, 2);
    assert s[20..23] == Pad(t.millis, 3);
    ValueOfPad(t.year, 4);
    ValueOfPad(t.month, 2);
    ValueOfPad(t.day, 2);
    ValueOfPad(t.hour, 2);
    ValueOfPad(t.minute, 2);
    ValueOfPad(t.second, 2);
    ValueOfPad(t.millis, 3);
  }

  lemma PrefixSplit(s: string, a: nat, b: nat)
    requires a <= b <= |s|
    ensures s[..b] == s[..a] + s[a..b]
  {
  }

  lemma LiteralPositions(s: string)
    requires Matches(s)
    ensures s[4] == '-' && s[7] == '-' && s[10] == 'T' && s[13] == ':' && s[16] == ':' && s[19] == '.' && s[23] == 'Z'
  {
    PatternLayout();
    assert Admits(Pattern[4], s[4]) && Admits(Pattern[7], s[7]) && Admits(Pattern[10], s[10]);
    assert Admits(Pattern[13], s[13]) && Admits(Pattern[16], s[16]) && Admits(Pattern[19], s[19]);
    assert Admits(Pattern[23], s[23]);
  }

  /** Cutting `s` at the field boundaries of the pattern and joining the pieces gives `s` back. */
  lemma Reassemble(s: string)
    requires |s| == 24
    ensures s == s[0..4] + [s[4]] + s[5..7] + [s[7]] + s[8..10] + [s[10]] + s[11..13] + [s[13]] +
                 s[14..16] + [s[16]] + s[17..19] + [s[19]] + s[20..23] + [s[23]]
  {
    PrefixSplit(s, 0, 4);
    PrefixSplit(s, 4, 5);
    PrefixSplit(s, 5, 7);
    PrefixSplit(s, 7, 8);
    PrefixSplit(s, 8, 10);
    PrefixSplit(s, 10, 11);
    PrefixSplit(s, 11, 13);
    PrefixSplit(s, 13, 14);
    PrefixSplit(s, 14, 16);
    PrefixSplit(s, 16, 17);
    PrefixSplit(s, 17, 19);
    PrefixSplit(s, 19, 20);
    PrefixSplit(s, 20, 23);
    PrefixSplit(s, 23, 24);
    assert s[..24] == s;
  }

  /** Every accepted string is the rendering of the numbers it spells. */
  lemma FormatParse(s: string)
    requires Matches(s)
    ensures FitsWidths(Parse(s)) && Format(Parse(s)) == s
  {
    DigitSlices(s);
    LiteralPositions(s);
    var t := Parse(s);
    PadOfValue(s[0..4]);
    PadOfValue(s[5..7]);
    PadOfValue(s[8..10]);
    PadOfValue(s[11..13]);
    PadOfValue(s[14..16]);
    PadOfValue(s[17..19]);
    PadOfValue(s[20..23]);
    assert Format(t) == s[0..4] + [s[4]] + s[5..7] + [s[7]] + s[8..10] + [s[10]] + s[11..13] + [s[13]] +
                        s[14..16] + [s[16]] + s[17..19] + [s[19]] + s[20..23] + [s[23]];
    Reassemble(s);
  }

  /** The pattern accepts exactly the renderings of in-range timestamps. */
  lemma MatchesIffFormatted(s: string)
    ensures Matches(s) <==> exists t :: FitsWidths(t) && Format(t) == s
  {
    if Matches(s) {
      FormatParse(s);
    }
    forall t | FitsWidths(t) && Format(t) == s
      ensures Matches(s)
    {
      FormatMatches(t);
    }
  }

  /** The test body's `publicationDate: 'test'` is rejected. */
  lemma RejectsTest()
    ensures !Matches("test")
  {
  }

  /** A typical `toISOString()` output is accepted. */
  lemma AcceptsIsoInstant()
    ensures Matches("2024-05-17T09:41:07.250Z")
  {
    PatternLayout();
  }
}
