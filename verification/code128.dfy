/** The Code 128 symbol characters used by Codablock-F: the special values
    the encoder writes into its grid, the module-width table (Annex A,
    Table A.1 of the Codablock F specification) and the Code 128 check sum. */
module Code128 {

  const Shift: int := 98
  const CodeC: int := 99
  /** Code B in subsets A and C; FNC4 in subset B. */
  const CodeB: int := 100
  /** Code A in subsets B and C; FNC4 in subset A. */
  const CodeA: int := 101
  const Fnc1Char: int := 102
  const StartA: int := 103
  const Stop: int := 106

  /** A value that has an entry in the module-width table. */
  predicate IsSymbolValue(v: int) {
    0 <= v <= 106
  }

  /** Bar/space module widths of symbol character `v`: six digits for the
      values 0..105, seven for the stop character 106. */
  function Pattern(v: int): string
    requires IsSymbolValue(v)
  {
    match v
    case 0 => "212222"
    case 1 => "222122"
    case 2 => "222221"
    case 3 => "121223"
    case 4 => "121322"
    case 5 => "131222"
    case 6 => "122213"
    case 7 => "122312"
    case 8 => "132212"
    case 9 => "221213"
    case 10 => "221312"
    case 11 => "231212"
    case 12 => "112232"
    case 13 => "122132"
    case 14 => "122231"
    case 15 => "113222"
    case 16 => "123122"
    case 17 => "123221"
    case 18 => "223211"
    case 19 => "221132"
    case 20 => "221231"
    case 21 => "213212"
    case 22 => "223112"
    case 23 => "312131"
    case 24 => "311222"
    case 25 => "321122"
    case 26 => "321221"
    case 27 => "312212"
    case 28 => "322112"
    case 29 => "322211"
    case 30 => "212123"
    case 31 => "212321"
    case 32 => "232121"
    case 33 => "111323"
    case 34 => "131123"
    case 35 => "131321"
    case 36 => "112313"
    case 37 => "132113"
    case 38 => "132311"
    case 39 => "211313"
    case 40 => "231113"
    case 41 => "231311"
    case 42 => "112133"
    case 43 => "112331"
    case 44 => "132131"
    case 45 => "113123"
    case 46 => "113321"
    case 47 => "133121"
    case 48 => "313121"
    case 49 => "211331"
    case 50 => "231131"
    case 51 => "213113"
    case 52 => "213311"
    case 53 => "213131"
    case 54 => "311123"
    case 55 => "311321"
    case 56 => "331121"
    case 57 => "312113"
    case 58 => "312311"
    case 59 => "332111"
    case 60 => "314111"
    case 61 => "221411"
    case 62 => "431111"
    case 63 => "111224"
    case 64 => "111422"
    case 65 => "121124"
    case 66 => "121421"
    case 67 => "141122"
    case 68 => "141221"
    case 69 => "112214"
    case 70 => "112412"
    case 71 => "122114"
    case 72 => "122411"
    case 73 => "142112"
    case 74 => "142211"
    case 75 => "241211"
    case 76 => "221114"
    case 77 => "413111"
    case 78 => "241112"
    case 79 => "134111"
    case 80 => "111242"
    case 81 => "121142"
    case 82 => "121241"
    case 83 => "114212"
    case 84 => "124112"
    case 85 => "124211"
    case 86 => "411212"
    case 87 => "421112"
    case 88 => "421211"
    case 89 => "212141"
    case 90 => "214121"
    case 91 => "412121"
    case 92 => "111143"
    case 93 => "111341"
    case 94 => "131141"
    case 95 => "114113"
    case 96 => "114311"
    case 97 => "411113"
    case 98 => "411311"
    case 99 => "113141"
    case 100 => "114131"
    case 101 => "311141"
    case 102 => "411131"
    case 103 => "211412"
    case 104 => "211214"
    case 105 => "211232"
    case _ => "2331112"
  }

  function DigitValue(ch: char): int {
    ch as int - '0' as int
  }

  /** Total number of modules covered by a six-element pattern. */
  function Width(p: string): int
    requires |p| == 6
  {
    DigitValue(p[0]) + DigitValue(p[1]) + DigitValue(p[2])
      + DigitValue(p[3]) + DigitValue(p[4]) + DigitValue(p[5])
  }

  lemma WidthsFrom0()
    ensures forall v :: 0 <= v < 18 ==> |Pattern(v)| == 6 && Width(Pattern(v)) == 11
  {
  }

  lemma WidthsFrom18()
    ensures forall v :: 18 <= v < 36 ==> |Pattern(v)| == 6 && Width(Pattern(v)) == 11
  {
  }

  lemma WidthsFrom36()
    ensures forall v :: 36 <= v < 54 ==> |Pattern(v)| == 6 && Width(Pattern(v)) == 11
  {
  }

  lemma WidthsFrom54()
    ensures forall v :: 54 <= v < 72 ==> |Pattern(v)| == 6 && Width(Pattern(v)) == 11
  {
  }

  lemma WidthsFrom72()
    ensures forall v :: 72 <= v < 90 ==> |Pattern(v)| == 6 && Width(Pattern(v)) == 11
  {
  }

  lemma WidthsFrom90()
    ensures forall v :: 90 <= v < 106 ==> |Pattern(v)| == 6 && Width(Pattern(v)) == 11
  {
  }

  /** Every non-stop symbol character is six elements covering 11 modules;
      the stop character is seven elements covering 13. */
  lemma PatternShape(v: int)
    requires IsSymbolValue(v)
    ensures v < Stop ==> |Pattern(v)| == 6 && Width(Pattern(v)) == 11
    ensures v == Stop ==> |Pattern(v)| == 7
  {
    WidthsFrom0();
    WidthsFrom18();
    WidthsFrom36();
    WidthsFrom54();
    WidthsFrom72();
    WidthsFrom90();
  }

  /** Number of modules a pattern covers: the sum of its element widths. */
  function Modules(p: string): int {
    if |p| == 0 then 0 else DigitValue(p[0]) + Modules(p[1..])
  }

  lemma {:induction false} ModulesConcat(p: string, q: string)
    ensures Modules(p + q) == Modules(p) + Modules(q)
  {
    if |p| > 0 {
      assert (p + q)[0] == p[0];
      assert (p + q)[1..] == p[1..] + q;
      ModulesConcat(p[1..], q);
    } else {
      assert p + q == q;
    }
  }

  lemma ModulesOfSix(p: string)
    requires |p| == 6
    ensures Modules(p) == Width(p)
  {
    assert Modules(p[5..]) == DigitValue(p[5]) + Modules(p[6..]);
    assert Modules(p[4..]) == DigitValue(p[4]) + Modules(p[5..]);
    assert Modules(p[3..]) == DigitValue(p[3]) + Modules(p[4..]);
    assert Modules(p[2..]) == DigitValue(p[2]) + Modules(p[3..]);
    assert Modules(p[1..]) == DigitValue(p[1]) + Modules(p[2..]);
    assert Modules(p) == DigitValue(p[0]) + Modules(p[1..]);
  }

  /** `PatternShape` in modules: 11 for a non-stop character, 13 for stop. */
  lemma PatternModules(v: int)
    requires IsSymbolValue(v)
    ensures v < Stop ==> |Pattern(v)| == 6 && Modules(Pattern(v)) == 11
    ensures v == Stop ==> |Pattern(v)| == 7 && Modules(Pattern(v)) == 13
  {
    PatternShape(v);
    if v < Stop {
      ModulesOfSix(Pattern(v));
    } else {
      var p := Pattern(v);
      assert p == "2331112";
      assert Modules(p[6..]) == 2 + Modules(p[7..]);
      assert Modules(p[5..]) == 1 + Modules(p[6..]);
      assert Modules(p[4..]) == 1 + Modules(p[5..]);
      assert Modules(p[3..]) == 1 + Modules(p[4..]);
      assert Modules(p[2..]) == 3 + Modules(p[3..]);
      assert Modules(p[1..]) == 3 + Modules(p[2..]);
      assert Modules(p) == 2 + Modules(p[1..]);
    }
  }

  /** The Code 128 weighted sum of a symbol-character sequence: the start
      character has weight 1 and the character at position k >= 1 weight k. */
  function WeightedSum(s: seq<int>): int
  {
    if |s| == 0 then 0 else WeightedSum(s[..|s| - 1]) + Weight(|s| - 1) * s[|s| - 1]
  }

  function Weight(k: nat): nat {
    if k == 0 then 1 else k
  }
}
