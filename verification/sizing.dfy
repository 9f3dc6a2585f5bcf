/** Input validation and the choice of symbol size (rows x columns) from an
    estimate of the code length. The estimate moves in steps of one half, so
    it is kept here as a count of half-units. */
module Sizing {
  import opened Subsets

  const MaxInputLength: int := 5450
  const MinRows: int := 2
  const MaxRows: int := 44
  const MinColumns: int := 4
  const MaxColumns: int := 62

  /** Content the encoder accepts: non-empty, every unit a Latin-1 byte or FNC1. */
  predicate ValidContent(data: seq<int>) {
    |data| > 0 && forall i :: 0 <= i < |data| ==> IsUnit(data[i])
  }

  /** Half-units the estimate charges for unit `u` after a unit of class
      `prev`: 2 for a change of class, 1 for a digit or 2 otherwise, and 2
      more for an extended (>= 128) byte. */
  function UnitCost(prev: EncodingClass, u: int): nat {
    (if FindSubset(u) != prev then 2 else 0)
    + (if FindSubset(u) != AorBorC then 2 else 1)
    + (if u > 127 then 2 else 0)
  }

  /** Class the estimate compares unit `i` against: the previous unit's class,
      or A-or-B before the first unit. */
  function PrevClass(data: seq<int>, i: int): EncodingClass
    requires 0 <= i <= |data|
  {
    if i == 0 then AorB else FindSubset(data[i - 1])
  }

  /** The code-length estimate, in half-units: the sum of every unit's cost
      against its predecessor. */
  function HalfUnits(data: seq<int>): nat
  {
    if |data| == 0 then 0
    else HalfUnits(data[..|data| - 1]) + UnitCost(PrevClass(data, |data| - 1), data[|data| - 1])
  }

  /** Every unit costs between one half and three whole units. */
  lemma {:induction false} HalfUnitsBounds(data: seq<int>)
    ensures |data| <= HalfUnits(data) <= 6 * |data|
  {
    if |data| > 0 {
      HalfUnitsBounds(data[..|data| - 1]);
    }
  }

  /** The estimate loop: one pass keeping the previous unit's class. */
  method Estimate(data: seq<int>) returns (h: nat)
    ensures h == HalfUnits(data)
  {
    h := 0;
    var last := AorB;
    var i := 0;
    while i < |data|
      invariant 0 <= i <= |data|
      invariant h == HalfUnits(data[..i])
      invariant last == PrevClass(data, i)
    {
      var m := FindSubset(data[i]);
      if m != last {
        h := h + 2;
      }
      if m != AorBorC {
        h := h + 2;
      } else {
        h := h + 1;
      }
      if data[i] > 127 {
        h := h + 2;
      }
      last := m;
      assert data[..i + 1][..i] == data[..i];
      i := i + 1;
    }
    assert data[..i] == data;
  }

  /** `r` rows fit an estimate of `h` half-units: r <= 0.5 + sqrt((h/2 + 2) / 1.45),
      cleared of square root and fractions. */
  predicate Fits(r: int, h: int) {
    29 * (2 * r - 1) * (2 * r - 1) <= 40 * (h + 4)
  }

  lemma FitsMonotone(r: int, h: int)
    requires 1 <= r
    ensures Fits(r + 1, h) ==> Fits(r, h)
  {
    assert (2 * r - 1) * (2 * r - 1) <= (2 * r + 1) * (2 * r + 1);
  }

  function RowsFrom(h: nat, r: int): (rows: int)
    requires MinRows <= r <= MaxRows
    requires r > MinRows ==> Fits(r, h)
    ensures r <= rows <= MaxRows
    ensures rows > MinRows ==> Fits(rows, h)
    ensures rows < MaxRows ==> !Fits(rows + 1, h)
    decreases MaxRows - r
  {
    if r < MaxRows && Fits(r + 1, h) then RowsFrom(h, r + 1) else r
  }

  /** Row count for an estimate of `h` half-units: the largest row count that
      fits, clamped to 2..44. */
  function Rows(h: nat): (rows: int)
    ensures MinRows <= rows <= MaxRows
    ensures rows > MinRows ==> Fits(rows, h)
    ensures rows < MaxRows ==> !Fits(rows + 1, h)
  {
    RowsFrom(h, MinRows)
  }

  /** `Rows` is the clamp of the largest fitting row count: every count from
      1 up to it fits (when it is above the floor), and no count above it does. */
  lemma RowsIsLargestFit(h: nat, r: int)
    requires 1 <= r <= MaxRows
    ensures Rows(h) > MinRows && r <= Rows(h) ==> Fits(r, h)
    ensures Rows(h) < r ==> !Fits(r, h)
  {
    if Rows(h) > MinRows && r <= Rows(h) {
      FitsBelow(h, Rows(h), r);
    }
    if Rows(h) < r {
      NoFitAbove(h, r);
    }
  }

  lemma {:induction false} FitsBelow(h: nat, top: int, r: int)
    requires 1 <= r <= top
    requires Fits(top, h)
    ensures Fits(r, h)
    decreases top - r
  {
    if r < top {
      FitsBelow(h, top, r + 1);
      FitsMonotone(r, h);
    }
  }

  lemma {:induction false} NoFitAbove(h: nat, r: int)
    requires Rows(h) < r <= MaxRows
    ensures !Fits(r, h)
    decreases r
  {
    if r > Rows(h) + 1 {
      NoFitAbove(h, r - 1);
      FitsMonotone(r - 1, h);
    }
  }

  /** Column count for an estimate of `h` half-units over `rows` rows:
      floor(estimate + 2) divided by the rows, at least 4. */
  function Columns(h: nat, rows: int): (cols: int)
    requires MinRows <= rows
    ensures cols >= MinColumns
    ensures cols > MinColumns ==> cols * rows <= (h + 4) / 2 < (cols + 1) * rows
    ensures cols == MinColumns ==> (h + 4) / 2 < (MinColumns + 1) * rows
  {
    var q := ((h + 4) / 2) / rows;
    if q < MinColumns then MinColumns else q
  }

  /** "AIM" costs 3.0 units and gets 2 rows of 4 columns. */
  lemma AimExample()
    ensures HalfUnits(['A' as int, 'I' as int, 'M' as int]) == 6
    ensures Rows(6) == 2 && Columns(6, 2) == 4
  {
    var d := ['A' as int, 'I' as int, 'M' as int];
    assert d[..2][..1] == d[..1] && d[..1][..0] == [];
    assert HalfUnits(d[..1]) == 2;
    assert HalfUnits(d[..2]) == 4;
  }

  /** Eighteen digits cost 10.0 units and get 3 rows of 4 columns. */
  lemma EighteenDigitsExample()
    ensures HalfUnits(seq(18, i => '0' as int + (i + 1) % 10)) == 20
    ensures Rows(20) == 3 && Columns(20, 3) == 4
  {
    var d := seq(18, i => '0' as int + (i + 1) % 10);
    DigitsCost(d);
  }

  /** A run of digits after the initial A-or-B class costs one switch plus
      one half-unit per digit. */
  lemma {:induction false} DigitsCost(d: seq<int>)
    requires |d| > 0
    requires forall i :: 0 <= i < |d| ==> IsDigit(d[i])
    ensures HalfUnits(d) == 2 + |d|
  {
    if |d| > 1 {
      DigitsCost(d[..|d| - 1]);
    }
  }
}
