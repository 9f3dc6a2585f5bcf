/** Classification of single input units: the encoding class used by the
    size estimate and the rule chain, the subset a row starts in, and the
    conversion of a byte to its Code 128 data value. */
module Subsets {

  /** The application-separator marker. It lies below every byte, so every
      byte comparison in the encoder (`>= 128`, `0..31`) is false for it. */
  const FNC1: int := -1

  /** An input unit: a Latin-1 byte or the FNC1 marker. */
  predicate IsUnit(u: int) {
    0 <= u <= 255 || u == FNC1
  }

  predicate IsByte(u: int) {
    0 <= u <= 255
  }

  predicate IsDigit(u: int) {
    '0' as int <= u <= '9' as int
  }

  /** Encoding class of a unit (the source's `Mode`). Only these four of its
      ten values are ever produced. */
  datatype EncodingClass = ShiftA | ShiftB | AorB | AorBorC

  /** Code 128 character subset (the source's `CfMode`). */
  datatype Subset = A | B | C

  /** A byte that Code 128 subset A can carry, possibly after FNC4: the low
      seven bits are a control character, a digit, upper case or punctuation. */
  predicate InA(b: int) {
    IsByte(b) && b % 128 < 96
  }

  /** A byte that Code 128 subset B can carry, possibly after FNC4: the low
      seven bits are printable. */
  predicate InB(b: int) {
    IsByte(b) && b % 128 >= 32
  }

  /** The byte a data value stands for in subset A (without FNC4). */
  function CharA(v: int): int {
    if v < 64 then v + 32 else v - 64
  }

  /** The byte a data value stands for in subset B (without FNC4). */
  function CharB(v: int): int {
    v + 32
  }

  /** The extended-range offset FNC4 adds to the next data character. */
  function Extension(b: int): int {
    if b >= 128 then 128 else 0
  }

  /** Encoding class of a unit. A digit may go in any subset, a control
      character only in A, a lower-case character only in B; everything else
      in A or B. FNC1 counts as A-or-B. */
  function FindSubset(u: int): (m: EncodingClass)
    ensures u == FNC1 ==> m == AorB
    ensures IsByte(u) ==> (m == AorBorC <==> IsDigit(u))
    ensures IsByte(u) ==> (m == ShiftA <==> InA(u) && !InB(u))
    ensures IsByte(u) ==> (m == ShiftB <==> InB(u) && !InA(u))
    ensures IsByte(u) ==> (m == AorB <==> InA(u) && InB(u) && !IsDigit(u))
  {
    if u == FNC1 then AorB
    else if u <= 31 then ShiftA
    else if 48 <= u <= 57 then AorBorC
    else if u <= 95 then AorB
    else if u <= 127 then ShiftB
    else if u <= 159 then ShiftA
    else if u <= 223 then AorB
    else ShiftB
  }

  /** The subset a row starts in, chosen from its first unit (section 4.5.2
      of the Codablock F specification). The chosen subset can always carry
      that unit. */
  function RowStartSubset(u: int): (m: Subset)
    ensures m == C <==> IsDigit(u)
    ensures m == A <==> (0 <= u <= 31 || 128 <= u <= 160)
    ensures IsByte(u) && m == A ==> InA(u)
    ensures IsByte(u) && m == B ==> InB(u)
  {
    if IsDigit(u) then C
    else if 128 <= u <= 160 then A
    else if 0 <= u <= 31 then A
    else B
  }

  /** The Code 128 data value of a byte in subsets A and B (Annex A section 3).
      It drops the high bit; decoding the value in a subset that can carry the
      byte, plus the FNC4 offset, gives the byte back. */
  function A3Convert(b: int): (v: int)
    ensures IsUnit(b) ==> 0 <= v <= 95
    ensures InA(b) ==> CharA(v) + Extension(b) == b
    ensures InB(b) ==> CharB(v) + Extension(b) == b
  {
    if b < 32 then b + 64
    else if b <= 127 then b - 32
    else if b <= 159 then b - 128 + 64
    else b - 128 - 32
  }

  /** Two characters packed into one subset C value. For two digits the value
      is in 0..99 and its decimal digits give the two characters back. */
  function PackPair(u0: int, u1: int): (v: int)
    ensures u0 <= '9' as int && u1 <= '9' as int ==> v <= 99
    ensures IsDigit(u0) && IsDigit(u1) ==> 0 <= v <= 99
    ensures IsDigit(u0) && IsDigit(u1) ==> v / 10 + '0' as int == u0 && v % 10 + '0' as int == u1
  {
    (u0 - '0' as int) * 10 + (u1 - '0' as int)
  }

  /** A byte and the same byte with its high bit set share one data value;
      only the FNC4 prefix tells them apart. */
  lemma A3ConvertIgnoresHighBit(b: int)
    requires 0 <= b <= 127
    ensures A3Convert(b + 128) == A3Convert(b)
  {
  }
}
