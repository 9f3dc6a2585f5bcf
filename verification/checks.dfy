/** Check characters of a Codablock-F symbol: the two symbol check
    characters K1 and K2 over the data (Annex F of the symbology), the row
    indicator of each row (Tables D2 and D3), and the modulo-103 check
    character of each row (Annex E). */
module Checks {
  import opened Subsets
  import opened Code128
  import opened Sizing

  /** What a unit contributes to K1 and K2: its own code, or 29 (the group
      separator) for FNC1. */
  function KValue(u: int): int {
    if u == FNC1 then 29 else u
  }

  /** The K1 sum: unit `i` weighted by `i + 1`. */
  function K1Sum(data: seq<int>): int {
    if |data| == 0 then 0 else K1Sum(data[..|data| - 1]) + |data| * KValue(data[|data| - 1])
  }

  /** The K2 sum: unit `i` weighted by `i`. */
  function K2Sum(data: seq<int>): int {
    if |data| == 0 then 0 else K2Sum(data[..|data| - 1]) + (|data| - 1) * KValue(data[|data| - 1])
  }

  /** The unweighted sum of the units' contributions. */
  function ValueSum(data: seq<int>): int {
    if |data| == 0 then 0 else ValueSum(data[..|data| - 1]) + KValue(data[|data| - 1])
  }

  /** The two sums in one pass over the data (source lines 137-147). */
  method CheckSums(data: seq<int>) returns (k1: int, k2: int)
    ensures k1 == K1Sum(data) && k2 == K2Sum(data)
  {
    k1, k2 := 0, 0;
    var i := 0;
    while i < |data|
      invariant 0 <= i <= |data|
      invariant k1 == K1Sum(data[..i]) && k2 == K2Sum(data[..i])
    {
      assert data[..i + 1][..i] == data[..i];
      if data[i] == FNC1 {
        k1 := k1 + (i + 1) * 29;
        k2 := k2 + i * 29;
      } else {
        k1 := k1 + (i + 1) * data[i];
        k2 := k2 + i * data[i];
      }
      i := i + 1;
    }
    assert data[..i] == data;
  }

  /** The two weightings differ by exactly one copy of every unit. */
  lemma {:induction false} K1IsK2PlusValues(data: seq<int>)
    ensures K1Sum(data) == K2Sum(data) + ValueSum(data)
  {
    if |data| > 0 {
      K1IsK2PlusValues(data[..|data| - 1]);
    }
  }

  /** A unit's contribution is at most 64 times its share of the estimate:
      a digit is worth at most 57 and costs at least one half-unit, any other
      unit below 128 is worth at most 127 and costs at least two, and an
      extended byte is worth at most 255 and costs at least four. */
  lemma ValueWithinCost(prev: EncodingClass, u: int)
    requires IsUnit(u)
    ensures 0 <= KValue(u) <= 64 * UnitCost(prev, u)
  {
  }

  lemma {:induction false} ValueSumWithinEstimate(data: seq<int>)
    requires forall i :: 0 <= i < |data| ==> IsUnit(data[i])
    ensures 0 <= ValueSum(data) <= 64 * HalfUnits(data)
  {
    if |data| > 0 {
      var n := |data| - 1;
      ValueSumWithinEstimate(data[..n]);
      ValueWithinCost(PrevClass(data, n), data[n]);
    }
  }

  /** Multiplying by a non-negative factor keeps an order. */
  lemma MulMonotone(a: int, b: int, c: int)
    requires a <= b && 0 <= c
    ensures a * c <= b * c
  {
  }

  lemma {:induction false} K2WithinK1(data: seq<int>)
    requires forall i :: 0 <= i < |data| ==> IsUnit(data[i])
    ensures 0 <= K2Sum(data) <= K1Sum(data) <= |data| * ValueSum(data)
  {
    if |data| > 0 {
      var n := |data| - 1;
      var d := data[..n];
      var v := KValue(data[n]);
      K2WithinK1(d);
      ValueSumWithinEstimate(d);
      ValueWithinCost(AorB, data[n]);
      assert K1Sum(data) == K1Sum(d) + (n + 1) * v;
      assert K2Sum(data) == K2Sum(d) + n * v;
      assert ValueSum(data) == ValueSum(d) + v;
      SumsStep(K1Sum(d), K2Sum(d), ValueSum(d), n, v);
    }
  }

  /** One more unit of value `v` at position `n` keeps the order of the sums. */
  lemma SumsStep(k1: int, k2: int, sum: int, n: int, v: int)
    requires 0 <= n && 0 <= v && 0 <= sum && 0 <= k2 <= k1 <= n * sum
    ensures 0 <= k2 + n * v <= k1 + (n + 1) * v <= (n + 1) * (sum + v)
  {
    MulMonotone(0, n, v);
    MulMonotone(n, n + 1, v);
    MulMonotone(n, n + 1, sum);
    assert (n + 1) * sum + (n + 1) * v == (n + 1) * (sum + v);
  }

  /** The size rules accept at most 5539 half-units: more would need more
      than 62 columns even at 44 rows. */
  lemma AcceptedEstimate(h: nat)
    requires Columns(h, Rows(h)) <= MaxColumns
    ensures h <= 5539
  {
    var rows := Rows(h);
    var cols := Columns(h, rows);
    MulMonotone(rows, MaxRows, cols + 1);
    MulMonotone(cols + 1, MaxColumns + 1, MaxRows);
    assert (h + 4) / 2 < (cols + 1) * rows;
  }

  /** For every input the size rules accept, both sums fit in the source's
      32-bit signed integers, so computing them over unbounded integers
      loses nothing. */
  lemma CheckSumsFitInInt(data: seq<int>)
    requires ValidContent(data)
    requires Columns(HalfUnits(data), Rows(HalfUnits(data))) <= MaxColumns
    ensures 0 <= K2Sum(data) <= K1Sum(data) < 0x8000_0000
  {
    var h := HalfUnits(data);
    AcceptedEstimate(h);
    HalfUnitsBounds(data);
    ValueSumWithinEstimate(data);
    K2WithinK1(data);
    ProductBound(|data|, ValueSum(data), h, K1Sum(data));
  }

  lemma ProductBound(n: int, v: int, h: int, k: int)
    requires 0 <= n <= h <= 5539 && 0 <= v <= 64 * h && k <= n * v
    ensures k < 0x8000_0000
  {
    MulMonotone(n, h, v);
    MulMonotone(v, 64 * h, h);
    MulMonotone(h, 5539, h);
    MulMonotone(h, 5539, 5539);
  }

  /** A symbol check character from its sum (source lines 148-155). In
      subset C it is the sum modulo 86; in subsets A and B it is the subset A
      value of the character whose code is the sum modulo 86. */
  function SymbolCheck(sum: int, m: Subset): (k: int)
    requires sum >= 0
    ensures 0 <= k <= 95
    ensures m == C ==> k == sum % 86
    ensures m != C ==> CharA(k) == sum % 86
  {
    var x := sum % 86;
    if m == C then x
    else if x + 64 > 95 then x + 64 - 96
    else x + 64
  }

  /** Subset A values are distinct characters, so the check character is
      the only value in range that stands for the sum's residue. */
  lemma SymbolCheckUnique(sum: int, m: Subset, k: int)
    requires sum >= 0 && m != C && 0 <= k <= 95
    requires CharA(k) == sum % 86
    ensures k == SymbolCheck(sum, m)
  {
  }

  /** The symbol character announcing a row's subset: Shift for A, Code B
      for B, Code C for C. */
  function SelectorValue(m: Subset): int {
    match m
    case A => Shift
    case B => CodeB
    case C => CodeC
  }

  /** Row indicator of the first row, which carries the row count (Table
      D2; source lines 163-174). */
  function FirstRowIndicator(rows: int, sel: Subset): (ind: int)
    requires 2 <= rows <= 44
    ensures 0 <= ind <= 95
    ensures RowsOfIndicator(ind, sel) == rows
  {
    if sel == C then rows - 2
    else if rows + 62 > 95 then rows + 62 - 95
    else rows + 62
  }

  /** Row indicator of row `i` from the second row on, which carries the
      row number (Table D3; source lines 176-189). */
  function RowIndicator(i: int, sel: Subset): (ind: int)
    requires 1 <= i <= 43
    ensures 0 <= ind <= 95
    ensures RowOfIndicator(ind, sel) == i
  {
    if sel == C then i + 42
    else if i < 6 then i + 10
    else i + 20
  }

  /** Reading Table D2 backwards: the row count a first-row indicator
      announces. */
  function RowsOfIndicator(ind: int, sel: Subset): int {
    if sel == C then ind + 2
    else if ind >= 64 then ind - 62
    else ind + 33
  }

  /** Reading Table D3 backwards: the row number an indicator announces. */
  function RowOfIndicator(ind: int, sel: Subset): int {
    if sel == C then ind - 42
    else if ind <= 15 then ind - 10
    else ind - 20
  }

  /** The indicator of row `i` of a symbol of `rows` rows. */
  function Indicator(i: int, rows: int, sel: Subset): (ind: int)
    requires 0 <= i < rows <= 44 && 2 <= rows
    ensures 0 <= ind <= 95
    ensures i == 0 ==> RowsOfIndicator(ind, sel) == rows
    ensures i > 0 ==> RowOfIndicator(ind, sel) == i
  {
    if i == 0 then FirstRowIndicator(rows, sel) else RowIndicator(i, sel)
  }

  /** Java's `%`: the remainder truncated toward zero, which takes the sign
      of the dividend, where Dafny's `%` is never negative. */
  function JavaRem(a: int, d: int): (r: int)
    requires d > 0
    ensures -d < r < d
    ensures a >= 0 ==> r == a % d
    ensures a < 0 ==> r <= 0
  {
    if a >= 0 then a % d else -((-a) % d)
  }

  /** The symbol characters that open a row: Start A, the subset selector
      and the row indicator. */
  function RowHead(sel: Subset, ind: int): seq<int> {
    [StartA, SelectorValue(sel), ind]
  }

  /** The row check character (source lines 191-207): the sum of the row's
      symbol characters, weighted as in a Code 128 symbol check, taken with
      Java's remainder. */
  method RowCheck(sel: Subset, ind: int, cells: seq<int>) returns (k: int)
    ensures k == JavaRem(WeightedSum(RowHead(sel, ind) + cells), 103)
  {
    var sum := StartA + SelectorValue(sel) + 2 * ind;
    assert sum == WeightedSum(RowHead(sel, ind)) by {
      WeightedSumSnoc([], StartA);
      assert [] + [StartA] == [StartA];
      WeightedSumSnoc([StartA], SelectorValue(sel));
      assert [StartA] + [SelectorValue(sel)] == [StartA, SelectorValue(sel)];
      WeightedSumSnoc([StartA, SelectorValue(sel)], ind);
      assert [StartA, SelectorValue(sel)] + [ind] == RowHead(sel, ind);
    }
    var j := 0;
    assert RowHead(sel, ind) + cells[..0] == RowHead(sel, ind);
    while j < |cells|
      invariant 0 <= j <= |cells|
      invariant sum == WeightedSum(RowHead(sel, ind) + cells[..j])
    {
      assert RowHead(sel, ind) + cells[..j + 1] == (RowHead(sel, ind) + cells[..j]) + [cells[j]];
      WeightedSumSnoc(RowHead(sel, ind) + cells[..j], cells[j]);
      sum := sum + (j + 3) * cells[j];
      j := j + 1;
    }
    assert cells[..j] == cells;
    k := JavaRem(sum, 103);
  }

  lemma WeightedSumSnoc(s: seq<int>, x: int)
    ensures WeightedSum(s + [x]) == WeightedSum(s) + Weight(|s|) * x
  {
    assert (s + [x])[..|s|] == s;
  }

  /** On a row of non-negative symbol values the Java remainder is the
      ordinary one, so the row check is a symbol value, the Code 128 check
      character of the row's symbol characters. */
  lemma RowCheckIsCode128Check(sel: Subset, ind: int, cells: seq<int>)
    requires ind >= 0 && forall j :: 0 <= j < |cells| ==> cells[j] >= 0
    ensures JavaRem(WeightedSum(RowHead(sel, ind) + cells), 103) == WeightedSum(RowHead(sel, ind) + cells) % 103
    ensures 0 <= JavaRem(WeightedSum(RowHead(sel, ind) + cells), 103) < 103
  {
    WeightedSumNonNegative(RowHead(sel, ind) + cells);
  }

  lemma {:induction false} WeightedSumNonNegative(s: seq<int>)
    requires forall j :: 0 <= j < |s| ==> s[j] >= 0
    ensures WeightedSum(s) >= 0
  {
    if |s| > 0 {
      WeightedSumNonNegative(s[..|s| - 1]);
    }
  }
}
