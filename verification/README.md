# Codablock-F encoder model

A Dafny model of the encoding engine of Okapi Barcode's Codablock-F
symbology (`CodablockF.java`). It covers the following:

- Input checks. The content must be non-empty Latin-1 bytes plus FNC1 marks, and at most 5450 units long.
- The code-length estimate and the choice of rows (2..44) and columns (4..62).
- The row encoder, which lays the data into a 44×62 grid of Code 128 symbol values using subsets A, B and C.
  - It applies the Annex B rule chain and the Table B1/B2/B3 low-capacity guards.
  - It fills the end of the data and extends a one-row result to two rows.
- The two symbol check characters K1 and K2 (Annex F).
- The row indicators (Tables D2 and D3).
- The modulo-103 row check characters (Annex E).
- The rendering of every row into bar/space width digits through the 107-entry Code 128 table.

Modules follow the structure of the source:

| module | file | what it holds |
|---|---|---|
| `Results` | results.dfy | error kinds and the `Result` type; each Java exception becomes an `Err` value |
| `Code128` | code128.dfy | the Code 128 width table, module counts, the Code 128 weighted sum |
| `Subsets` | subsets.dfy | `findSubset`, `character_subset_select`, `a3_convert`, digit packing |
| `Sizing` | sizing.dfy | validation predicate, the estimate, row and column choice |
| `RowEncoder` | encoder.dfy | one pass of `data_encode_blockf` as a step function on an explicit state |
| `DataEncoding` | driver.dfy | the loop of `data_encode_blockf` and the first-row extension |
| `Checks` | checks.dfy | K1/K2, row indicators, row check characters |
| `CodablockF` | symbol.dfy | `encode`: the whole pipeline from content to row patterns |

Modelling choices:

- **Input units.** An input unit is an `int`. A byte is 0..255. The FNC1 mark is `-1`, a value below every byte, so every byte test in the source is false for it.
- **End of data.** The source appends one `0x00` sentinel to the input. `RowEncoder.At` reads 0 at and past the end of the data.
- **Sizing.** The estimate only moves in steps of one half, so it is kept as a count of half-units `h`.
  - The row count `(int)(0.5 + sqrt((E + 2) / 1.45))` becomes the largest `r` with `29·(2r−1)² ≤ 40·(h+4)`, clamped to 2..44.
  - The column count is `((h + 4) div 2) div rows`, at least 4.
- **Grid writes and faults.** Grid cells are written through `RowEncoder.Emit`. Writing at column 62 or beyond sets a fault flag. The driver reports a fault as `IndexOutOfRange`, which stands for Java's `ArrayIndexOutOfBoundsException`.
- **Integer widths.** K1 and K2 are summed over unbounded integers. `Checks.CheckSumsFitInInt` proves that, for every input the size rules accept, both sums stay below 2³¹. So the source's 32-bit `int` sums never wrap.
- **Remainder.** The row check uses Java's truncating `%`, written out as `Checks.JavaRem`.
- **Frames.** `RowEncoder.Wrote(s, t, cells)` says that `t` holds `cells` from the cursor of `s` on, with the cursor just past them, and that every other cell of the grid is as in `s`. `RowEncoder.Kept(s, t)` says that the cells before the cursor and every other row are as in `s`. Every operation that writes cells states one of the two, so its contract gives the whole grid after it.

Behaviour modelled as the code is written, including where it departs from the symbology's description:

- **Rule 5 digit runs.** The count `i` is the run's weight minus one (line 522). An FNC1 in the run weighs two.
  - The switch to subset C happens only when `i ≥ 4` and `i` is odd, that is for runs of even weight 6 or more.
  - Annex B rule 5, restated in the comment at lines 507-511, switches for any run of four or more digits. The code does not: a run of exactly four digits is written one digit at a time (`RowEncoder.FourDigitRunStaysInSubset`).
  - The pair written after Code C is the digit and the unit after it, even when that unit is an FNC1. In "A1", FNC1, "234" the pair value is `('1'−48)·10 + (−1−48) = −39` (`RowEncoder.DigitThenFnc1PacksNegative`). No symbol character has that value, so the rendering lookup fails on it (`CodablockF.RowRendersIff`).
- **Rule 7 lookahead.** The lookahead reads `input_position + 2` (line 606). It runs past the sentinel when the current lower-case character is the last unit and is met in subset A.
  - It is reached only when the unit after it reads as a control character, which holds for the sentinel 0.
  - The source then throws; the model reports `IndexOutOfRange` (`RowEncoder.ControlThenLowerCaseFaults`).
- **FNC4 values in rules 6 and 7.** Rule 6 writes 100 (FNC4 in subset B) before an extended control character, though the Shift or Code A before it makes the byte read in subset A, where 100 is Code B. Rule 7 writes 101 (FNC4 in subset A) though the byte reads in subset B, where 101 is Code A. So byte 0x81 followed by "A", met in subset B, is written as Code A, Code B, 65: a switch to B and then "a" (`RowEncoder.ExtendedControlInB`).
- **Guard quirks (Tables B1, B2, B3).**
  - The tests at lines 341 and 379 do not check `done`: a digit with two columns free is followed by Code B (or Code A) in the same pass when a lower-case (or control) character comes next (`RowEncoder.DigitThenLowerCaseInA`, `RowEncoder.DigitThenControlInB`).
  - The subset C guard (428-438) never sets `done`: with two columns free an extended byte gets Code A and Code B and then still goes through rule 8.
  - Guard-inserted Code A/B characters leave `current_mode` unchanged.
- **Negative capacity.** Three guard paths write more cells than are free.
  - An extended lower-case byte under the subset A guard at two free columns leaves the free count at −1 (`RowEncoder.ExtendedLowerCaseOverruns`).
  - An extended lower-case byte such as 233 under the subset C guard at two free columns gets Code A, Code B, then Code B, FNC4 and 73 from rule 8: the free count drops to −3 and the pass faults when the row is 60 or more columns wide (`RowEncoder.ExtendedByteInCOverruns`).
  - An extended byte under the subset C guard at one free column gets Code A from the last-column test (lines 410-416) and a second Code A from the extended test (lines 428-431), which does not look at `done`. The second cell lands one column past the row and the free count ends at −1 with the byte unread. The pass faults when the row is 62 columns wide; otherwise the next row opens and meets the byte again (`RowEncoder.ExtendedByteInCLastColumn`).
- **First-row fill.** The fill of a lone first row writes up to column `columns` inclusive (line 746). It faults when there are 62 columns.
- **Unchecked row increment.** The end-of-data row increment (line 707) is not checked against 44 rows. Opening a 45th row there is `IndexOutOfRange`.

## Model

Source paths are relative to the repository root; all cite `CodablockF.java`.

| member | source | states |
|---|---|---|
| Code128.PatternShape | src/main/java/uk/org/okapibarcode/backend/CodablockF.java:40-53 | every data, start and shift entry of the table is 6 width digits covering 11 modules; Stop is 7 digits |
| Code128.PatternModules | src/main/java/uk/org/okapibarcode/backend/CodablockF.java:40-53 | every table entry below Stop covers 11 modules and Stop covers 13, counted digit by digit |
| Subsets.FindSubset | src/main/java/uk/org/okapibarcode/backend/CodablockF.java:263-285 | a byte is AorBorC iff it is a digit, ShiftA iff only subset A carries it, ShiftB iff only subset B carries it, AorB iff both carry it and it is not a digit; FNC1 is AorB |
| Subsets.RowStartSubset | src/main/java/uk/org/okapibarcode/backend/CodablockF.java:773-794 | a row starts in C iff its first unit is a digit, in A iff it is 0-31 or 128-160, otherwise in B; the chosen subset can carry the unit |
| Subsets.A3Convert | src/main/java/uk/org/okapibarcode/backend/CodablockF.java:796-803 | every unit maps into 0..95, and decoding the value in a subset that carries the byte, plus the FNC4 offset, gives the byte back |
| Subsets.A3ConvertIgnoresHighBit | src/main/java/uk/org/okapibarcode/backend/CodablockF.java:796-803 | a byte b in 0..127 and b+128 get the same data value |
| Subsets.PackPair | src/main/java/uk/org/okapibarcode/backend/CodablockF.java:486-500 | two digits pack into 0..99, and the value's tens and units digits are the two digits again |
| Sizing.HalfUnitsBounds | src/main/java/uk/org/okapibarcode/backend/CodablockF.java:98-115 | each unit costs between one half and three units of the estimate |
| Sizing.Estimate | src/main/java/uk/org/okapibarcode/backend/CodablockF.java:98-115 | the one-pass loop with a running previous class computes the sum of every unit's cost against its predecessor |
| Sizing.Rows | src/main/java/uk/org/okapibarcode/backend/CodablockF.java:117-123 | the row count is in 2..44, fits the estimate when above 2, and one more row would not fit when below 44 |
| Sizing.RowsIsLargestFit | src/main/java/uk/org/okapibarcode/backend/CodablockF.java:117-123 | every row count up to the chosen one fits and none above it does, so the choice is the clamped largest fit |
| Sizing.Columns | src/main/java/uk/org/okapibarcode/backend/CodablockF.java:124-127 | the column count is at least 4 and, above 4, is the largest count whose grid holds the estimate plus 2 |
| Sizing.AimExample | src/main/java/uk/org/okapibarcode/backend/CodablockF.java:98-127 | "AIM" costs 3.0 and gets 2 rows of 4 columns |
| Sizing.EighteenDigitsExample | src/main/java/uk/org/okapibarcode/backend/CodablockF.java:98-127 | 18 digits cost 10.0 and get 3 rows of 4 columns |
| RowEncoder.Emit | src/main/java/uk/org/okapibarcode/backend/CodablockF.java:319-325 | a cell write stores the value at the cursor, leaves every other cell alone, advances the cursor, spends one free column, and faults exactly when the cursor is past the grid |
| RowEncoder.WroteThen | src/main/java/uk/org/okapibarcode/backend/CodablockF.java:319-325 | writing one run of cells and then another in the same row writes their concatenation |
| RowEncoder.OpenRow | src/main/java/uk/org/okapibarcode/backend/CodablockF.java:306-317 | a new row's selector and mode come from the unit at the cursor; in GS1 mode the first row starts with FNC1, and that is the only cell of the grid the opening changes |
| RowEncoder.Fnc1Rule | src/main/java/uk/org/okapibarcode/backend/CodablockF.java:319-325 | an FNC1 unit, and only that, is written as character 102 and consumed, with no other cell of the grid changed; any other unit leaves the state as it was |
| RowEncoder.GuardA | src/main/java/uk/org/okapibarcode/backend/CodablockF.java:332-369 | Table B1 as the code applies it: a digit is written and consumed, plus Code B when two columns were free and a lower-case character follows (line 341 ignores `done`); a lower-case or extended character in the last column gets Code B; a byte from 244 with two columns free gets Code B and Code A; otherwise nothing is written; no cell outside the written ones changes and the subset stays A |
| RowEncoder.GuardB | src/main/java/uk/org/okapibarcode/backend/CodablockF.java:370-408 | Table B2 as the code applies it, the mirror of B1: Code A after a digit before a control character (line 379 ignores `done`), Code A for a control or 160+ byte in the last column, Code A and Code B for 128-159 with two columns free; no cell outside the written ones changes and the subset stays B |
| RowEncoder.GuardC | src/main/java/uk/org/okapibarcode/backend/CodablockF.java:409-439 | Table B3 as the code applies it: in the last column a non-digit gets Code A (twice when extended, faulting past the grid) and a digit without a partner gets Code A; with two columns free an extended byte gets Code A and Code B without the unit counting as handled (line 428); nothing is consumed and no cell outside the written ones changes |
| RowEncoder.Guard | src/main/java/uk/org/okapibarcode/backend/CodablockF.java:328-441 | the guard of the current subset follows its table, cells and frame included; one that does not handle the unit has consumed nothing and not faulted |
| RowEncoder.TableKept | src/main/java/uk/org/okapibarcode/backend/CodablockF.java:328-441 | whatever the guard tables write, the cells before the cursor and every other row are unchanged |
| RowEncoder.WriteByte | src/main/java/uk/org/okapibarcode/backend/CodablockF.java:444-463 | a byte takes one cell, or two when extended with the given FNC4 value first; the last cell is its data value and every other cell of the grid is unchanged |
| RowEncoder.WriteSwitched | src/main/java/uk/org/okapibarcode/backend/CodablockF.java:555-640 | a switch character followed by a byte writes exactly the switch, the FNC4 if extended, and the data value, and changes no other cell of the grid |
| RowEncoder.RuleInA | src/main/java/uk/org/okapibarcode/backend/CodablockF.java:444-463 | rule 2: a unit subset A can carry is written as FNC4 101 (if extended) and its value, which decodes back to the unit, and is consumed; no other cell changes |
| RowEncoder.RuleInB | src/main/java/uk/org/okapibarcode/backend/CodablockF.java:465-484 | rule 3: a unit subset B can carry is written as FNC4 100 (if extended) and its value, which decodes back to the unit, and is consumed; no other cell changes |
| RowEncoder.PairRule | src/main/java/uk/org/okapibarcode/backend/CodablockF.java:486-500 | rule 4: two digits in subset C become one cell holding their packed value, whose decimal digits are the two digits, two units are consumed, and no other cell changes |
| RowEncoder.DigitRule | src/main/java/uk/org/okapibarcode/backend/CodablockF.java:502-553 | rule 5: Code C and the packed pair of this unit and the next are written exactly when the source count is at least 4 and odd (run weight even and at least 6); otherwise the digit alone is written in the current subset; no other cell changes |
| RowEncoder.FourDigitRunStaysInSubset | src/main/java/uk/org/okapibarcode/backend/CodablockF.java:512-525 | a run of exactly four digits does not switch to subset C |
| RowEncoder.DigitThenFnc1PacksNegative | src/main/java/uk/org/okapibarcode/backend/CodablockF.java:486-553 | "A1", FNC1, "234" met at the "1" in subset B writes Code C and the pair value -39, consuming the FNC1 |
| RowEncoder.ControlInB | src/main/java/uk/org/okapibarcode/backend/CodablockF.java:555-596 | rule 6: a control character in B is shifted (Shift, mode stays B) exactly when a lower-case character follows, otherwise Code A and the mode becomes A; the byte's FNC4 is 100 in both cases, its value decodes in subset A, and no other cell changes |
| RowEncoder.ExtendedControlInB | src/main/java/uk/org/okapibarcode/backend/CodablockF.java:555-596 | byte 0x81 then "A" in subset B is written Code A, Code B, 65, which reads in subset A as a switch to B and then "a" |
| RowEncoder.LowerInA | src/main/java/uk/org/okapibarcode/backend/CodablockF.java:598-640 | rule 7: the pass faults exactly when the character is the last unit or the row overruns, and the last unit leaves the grid as it was; otherwise it is shifted (Shift, mode A) exactly when a control and a lower-case character follow, else Code B and mode B; its FNC4 is 101 and no other cell changes |
| RowEncoder.LowerSwitched | src/main/java/uk/org/okapibarcode/backend/CodablockF.java:598-640 | rule 7 with a unit after the character: Shift (mode A) when a control and a lower-case character follow, else Code B (mode B), then the byte with FNC4 101; no other cell changes |
| RowEncoder.ControlThenLowerCaseFaults | src/main/java/uk/org/okapibarcode/backend/CodablockF.java:598-640 | the input "\x01a" in 4 columns encodes one pass and then faults in rule 7's lookahead |
| RowEncoder.ExtendedLowerCaseOverruns | src/main/java/uk/org/okapibarcode/backend/CodablockF.java:332-369 | an extended lower-case byte at two free columns in subset A passes Table B1, and rule 7 leaves the free count at -1 one column past the row; it faults when the row is 62 wide |
| RowEncoder.LeaveC | src/main/java/uk/org/okapibarcode/backend/CodablockF.java:642-687 | rule 8: a non-digit or lone digit in subset C writes Code A for a control character and Code B otherwise, then the byte with the new subset's own FNC4; the value decodes back in the new subset and no other cell changes |
| RowEncoder.ExtendedByteInCOverruns | src/main/java/uk/org/okapibarcode/backend/CodablockF.java:409-439 | byte 233 at two free columns in subset C gets Code A, Code B from Table B3 and Code B, FNC4, 73 from rule 8: free ends at -3 and the pass faults exactly when the row is 60 or more wide |
| RowEncoder.ExtendedByteGuardC | src/main/java/uk/org/okapibarcode/backend/CodablockF.java:428-438 | Table B3 at two free columns writes Code A and Code B before byte 233 and does not mark it handled |
| RowEncoder.ExtendedByteInCLastColumn | src/main/java/uk/org/okapibarcode/backend/CodablockF.java:409-431 | an extended byte at one free column in subset C gets Code A twice, ends one column past the row at free -1 without being consumed, faults exactly when the row is 62 wide, and otherwise the pass moves to the next row, or fails with too many rows after the 44th |
| RowEncoder.ExtendedByteLeavesC | src/main/java/uk/org/okapibarcode/backend/CodablockF.java:642-687 | rule 8 writes byte 233 as Code B, FNC4 100, 73 and moves to subset B |
| RowEncoder.Rules | src/main/java/uk/org/okapibarcode/backend/CodablockF.java:444-687 | the rule chain dispatches on subset and unit class exactly as rules 2-8 do, with each rule's cells and frame, consumption, subset after and fault condition; unless it faults it writes and consumes |
| RowEncoder.RulesInA | src/main/java/uk/org/okapibarcode/backend/CodablockF.java:444-640 | the subset A part of the chain: rules 2, 5 and 7 with their effects |
| RowEncoder.RulesInB | src/main/java/uk/org/okapibarcode/backend/CodablockF.java:444-596 | the subset B part of the chain: rules 3, 5 and 6 with their effects |
| RowEncoder.RulesInC | src/main/java/uk/org/okapibarcode/backend/CodablockF.java:486-687 | the subset C part of the chain: rule 4 for a digit pair, rule 8 otherwise, with their effects |
| RowEncoder.EffectKept | src/main/java/uk/org/okapibarcode/backend/CodablockF.java:444-687 | whatever rule fires, the cells before the cursor and every other row are unchanged |
| RowEncoder.Encode1 | src/main/java/uk/org/okapibarcode/backend/CodablockF.java:319-687 | one pass inside a row: an FNC1 is written as 102; otherwise with more than two columns free the rule chain's effect applies, and with at most two the guard's, followed by the rule chain's effect when the guard did not handle the unit; the cells before the cursor and every other row are kept |
| RowEncoder.GuardedRules | src/main/java/uk/org/okapibarcode/backend/CodablockF.java:326-687 | a unit other than FNC1 takes the guard at two or fewer free columns and then the rule chain unless the guard handled it, keeping the cells before the cursor and every other row |
| RowEncoder.DigitThenLowerCaseInA | src/main/java/uk/org/okapibarcode/backend/CodablockF.java:332-369 | a digit followed by a lower-case character at two free columns in subset A is written with Code B after it in one pass, filling the row, and the subset stays A |
| RowEncoder.DigitThenControlInB | src/main/java/uk/org/okapibarcode/backend/CodablockF.java:370-408 | a digit followed by a control character at two free columns in subset B is written with Code A after it in one pass, filling the row, and the subset stays B |
| RowEncoder.Filler | src/main/java/uk/org/okapibarcode/backend/CodablockF.java:712-725 | a filler is Code B from A and Code A otherwise, switches the mode, and changes no other row |
| RowEncoder.FillRow | src/main/java/uk/org/okapibarcode/backend/CodablockF.java:712-725 | filling leaves exactly two free columns, writes alternating Code B / Code A from the current mode, and keeps every other cell of the grid |
| RowEncoder.FinishData | src/main/java/uk/org/okapibarcode/backend/CodablockF.java:689-730 | at end of data a lone free column takes one filler; a full row opens a new row in A filled with alternating fillers up to its check columns; more free columns are filled; so exactly two cells remain unless the row overran; the 44th row cannot open another; the cells before the cursor, after the filler and from the new row's check columns on, and every other row, are kept |
| RowEncoder.CloseRow | src/main/java/uk/org/okapibarcode/backend/CodablockF.java:689-710 | at end of data with at most one free column: the free column takes a filler, the 44th row faults, and otherwise a new row opens at column 0 in subset A; only the filler cell changes |
| RowEncoder.EndOfPass | src/main/java/uk/org/okapibarcode/backend/CodablockF.java:689-740 | a full row with data left opens the next row, "too many rows" is raised exactly after the 44th, the end of data is `FinishData`, and its new row past the 44th is an index error |
| RowEncoder.Pass | src/main/java/uk/org/okapibarcode/backend/CodablockF.java:302-687 | a pass opens a row at column 0 with its selector, stays in the row, consumes a unit when it opened the row, and keeps the cells before its cursor and every other row |
| RowEncoder.Step | src/main/java/uk/org/okapibarcode/backend/CodablockF.java:302-742 | a pass either continues with a later cursor, finishes with a well-formed end state, or fails with an index or row-count error; the input position never decreases |
| RowEncoder.StepOutcome | src/main/java/uk/org/okapibarcode/backend/CodablockF.java:689-742 | a step fails with too many rows, or with an index error, exactly in the source's conditions on the pass's result, and otherwise moves to the next row or finishes the data |
| DataEncoding.AlternateFill | src/main/java/uk/org/okapibarcode/backend/CodablockF.java:744-768 | the filled span alternates Code B / Code A from the given mode and no other cell changes |
| DataEncoding.ExtendToTwoRows | src/main/java/uk/org/okapibarcode/backend/CodablockF.java:744-770 | a one-row result becomes two rows, the second in subset A, filled with alternating fillers; it faults exactly when the first-row fill reaches column 62; every cell outside the two fills keeps its value |
| DataEncoding.OpenedAtExtend | src/main/java/uk/org/okapibarcode/backend/CodablockF.java:302-317 | a row opened at a position past every earlier row's start keeps the selectors and starts in order |
| DataEncoding.OpenedAtEnd | src/main/java/uk/org/okapibarcode/backend/CodablockF.java:703-710 | a row opened at end of data is in subset A, as if opened on the sentinel |
| DataEncoding.Start | src/main/java/uk/org/okapibarcode/backend/CodablockF.java:287-300 | the loop starts on an empty grid at row 0, column 0, position 0, with no selectors |
| DataEncoding.Run | src/main/java/uk/org/okapibarcode/backend/CodablockF.java:287-771 | the main loop as a function: it fails only with an index or row-count error and otherwise yields 2..44 rows with one selector each |
| DataEncoding.EncodeData | src/main/java/uk/org/okapibarcode/backend/CodablockF.java:287-771 | the encoder computes `Run` from the start; on success every row's selector comes from the unit where it was opened, rows open at increasing positions, and the first row's from the first unit |
| DataEncoding.EncodeFrom | src/main/java/uk/org/okapibarcode/backend/CodablockF.java:302-742 | the passes from any reachable state compute `Run` from it, and the rows they open keep the selector-to-start record |
| DataEncoding.StartsAfterStep | src/main/java/uk/org/okapibarcode/backend/CodablockF.java:302-317 | after a pass the rows opened so far, including the one it opened, keep the selector-to-start record, at positions before the new cursor |
| DataEncoding.Conclude | src/main/java/uk/org/okapibarcode/backend/CodablockF.java:744-771 | ending the loop computes `ExtendToTwoRows`, and rows opened at end of data are recorded at the sentinel |
| DataEncoding.AimPass1 | src/main/java/uk/org/okapibarcode/backend/CodablockF.java:302-487 | the first pass of "AIM" opens row 0 in subset B and writes 33 |
| DataEncoding.AimPass2 | src/main/java/uk/org/okapibarcode/backend/CodablockF.java:444-487 | the second pass writes 41 |
| DataEncoding.AimWriteM | src/main/java/uk/org/okapibarcode/backend/CodablockF.java:370-487 | the third pass passes Table B2 and writes 45 |
| DataEncoding.AimFill | src/main/java/uk/org/okapibarcode/backend/CodablockF.java:712-725 | row 1 of "AIM" is filled with Code B, Code A |
| DataEncoding.AimFinish | src/main/java/uk/org/okapibarcode/backend/CodablockF.java:689-730 | the end of "AIM" takes a filler and opens row 1 in subset A |
| DataEncoding.AimPass3 | src/main/java/uk/org/okapibarcode/backend/CodablockF.java:370-730 | the third pass writes 45 and finishes the data |
| DataEncoding.AimRun | src/main/java/uk/org/okapibarcode/backend/CodablockF.java:287-771 | "AIM" in 4 columns encodes as rows 33, 41, 45, Code A (subset B) and Code B, Code A (subset A), ending in subset A |
| DataEncoding.AimCells | src/main/java/uk/org/okapibarcode/backend/CodablockF.java:287-771 | the cells of the two "AIM" rows before their check columns |
| Checks.CheckSums | src/main/java/uk/org/okapibarcode/backend/CodablockF.java:137-147 | the loop computes the sums of the units weighted by i+1 and i, with FNC1 counted as 29 |
| Checks.K1IsK2PlusValues | src/main/java/uk/org/okapibarcode/backend/CodablockF.java:137-147 | the K1 sum is the K2 sum plus one copy of every unit |
| Checks.CheckSumsFitInInt | src/main/java/uk/org/okapibarcode/backend/CodablockF.java:137-147 | for every accepted input, 0 <= K2 sum <= K1 sum < 2^31 |
| Checks.SymbolCheck | src/main/java/uk/org/okapibarcode/backend/CodablockF.java:148-155 | a check character is in 0..95; in C it is the sum mod 86, in A/B it is the subset A value of the character with that code |
| Checks.SymbolCheckUnique | src/main/java/uk/org/okapibarcode/backend/CodablockF.java:148-155 | in A/B no other value in 0..95 stands for the same residue |
| Checks.FirstRowIndicator | src/main/java/uk/org/okapibarcode/backend/CodablockF.java:163-174 | the first-row indicator is in 0..95 and reading Table D2 backwards gives the row count |
| Checks.RowIndicator | src/main/java/uk/org/okapibarcode/backend/CodablockF.java:176-189 | a later row's indicator is in 0..95 and reading Table D3 backwards gives the row number |
| Checks.Indicator | src/main/java/uk/org/okapibarcode/backend/CodablockF.java:163-189 | row 0's indicator announces the row count, every other row's its number |
| Checks.JavaRem | src/main/java/uk/org/okapibarcode/backend/CodablockF.java:206 | Java's remainder lies strictly between -d and d, agrees with the mathematical one on non-negative dividends and is never positive on negative ones |
| Checks.RowCheck | src/main/java/uk/org/okapibarcode/backend/CodablockF.java:191-207 | the loop computes the Code 128 weighted sum of Start A, selector, indicator and cells, taken with Java's remainder by 103 |
| Checks.RowCheckIsCode128Check | src/main/java/uk/org/okapibarcode/backend/CodablockF.java:191-207 | on non-negative rows the row check is the Code 128 check character, a value in 0..102 |
| CodablockF.Render | src/main/java/uk/org/okapibarcode/backend/CodablockF.java:220-257 | a row renders exactly when every character is an entry of the table |
| CodablockF.RenderShape | src/main/java/uk/org/okapibarcode/backend/CodablockF.java:220-257 | n characters below Stop render to 6n width digits covering 11n modules |
| CodablockF.RowShape | src/main/java/uk/org/okapibarcode/backend/CodablockF.java:220-257 | a rendered row has 6·columns+31 width digits and covers 11·columns+57 modules |
| CodablockF.RenderedRowCheck | src/main/java/uk/org/okapibarcode/backend/CodablockF.java:191-257 | a row that renders has non-negative characters, so its Java row check is the Code 128 check |
| CodablockF.RowRendersIff | src/main/java/uk/org/okapibarcode/backend/CodablockF.java:191-257 | a row whose check was taken with Java's remainder renders exactly when none of its data characters is negative |
| CodablockF.NegativeCellFails | src/main/java/uk/org/okapibarcode/backend/CodablockF.java:220-257 | a row with a negative data character does not render |
| CodablockF.RowOfSymbolValues | src/main/java/uk/org/okapibarcode/backend/CodablockF.java:220-257 | a row of symbol values, indicator up to 95 and check up to 102 renders |
| CodablockF.GridRowRendersIff | src/main/java/uk/org/okapibarcode/backend/CodablockF.java:191-257 | a grid row renders exactly when its first `columns` cells are non-negative |
| CodablockF.RowsRenderIff | src/main/java/uk/org/okapibarcode/backend/CodablockF.java:137-257 | with the symbol checks set, some row fails to render exactly when a data cell of the encoded rows is negative |
| CodablockF.RowChecks | src/main/java/uk/org/okapibarcode/backend/CodablockF.java:191-207 | one row check per row, each the Java remainder of that row's weighted sum |
| CodablockF.RowPatterns | src/main/java/uk/org/okapibarcode/backend/CodablockF.java:220-257 | every row renders, or the result is an index error exactly when some row does not |
| CodablockF.SymbolChecks | src/main/java/uk/org/okapibarcode/backend/CodablockF.java:137-157 | K1 and K2 go into the last two columns of the last row, nothing else changes, and each is the symbol check of its sum in the final subset |
| CodablockF.RowCharacters | src/main/java/uk/org/okapibarcode/backend/CodablockF.java:137-218 | the symbol checks are set, each row gets its indicator and Java row check, and its characters run Start A, selector, indicator, cells, check, Stop |
| CodablockF.Assemble | src/main/java/uk/org/okapibarcode/backend/CodablockF.java:137-257 | it fails, with an index error, exactly when an encoded data cell is negative; otherwise the symbol has both symbol checks, every indicator and row check right, every row rendered with its expected length, and the encoded cells unchanged |
| CodablockF.RenderedSymbolHolds | src/main/java/uk/org/okapibarcode/backend/CodablockF.java:137-257 | characters set as the source sets them whose rows all rendered make a well-formed symbol |
| CodablockF.RowsHoldWhenRendered | src/main/java/uk/org/okapibarcode/backend/CodablockF.java:191-257 | rows checked with Java's remainder that all rendered meet the row properties |
| CodablockF.EncodeSized | src/main/java/uk/org/okapibarcode/backend/CodablockF.java:130-257 | content that passed the checks is encoded as `Run` gives it, fails as `Run` fails or exactly when its cells are not all symbol values, and otherwise yields a well-formed symbol of `Run`'s rows |
| CodablockF.EncodeAdmitted | src/main/java/uk/org/okapibarcode/backend/CodablockF.java:130-257 | admitted content is encoded as `Run` gives it, and on success every row's selector is read from the data unit, or the sentinel, at which the row opened, at increasing positions |
| CodablockF.Admit | src/main/java/uk/org/okapibarcode/backend/CodablockF.java:86-135 | content outside the bytes is refused, as is content longer than 5450 units or wider than 62 columns, exactly; otherwise the width is the estimate's |
| CodablockF.Encode | src/main/java/uk/org/okapibarcode/backend/CodablockF.java:71-257 | invalid content and oversize input are rejected exactly; a success has 2..44 rows, the sized column count, correct checks and indicators, rendered rows, and every row's selector taken from the unit it opened at, at increasing positions; accepted content fails as `Run` does or exactly when a cell is negative |
| CodablockF.OpenedAtInData | src/main/java/uk/org/okapibarcode/backend/CodablockF.java:302-317 | the selector-to-start record, read on the data and its sentinel: the first row opens at 0 and every row's selector is the row-start subset of its unit |

## Left out

- Rendering geometry (`plotSymbol`, lines 806-856), the `info` diagnostic strings, the unused `min_module_height` (160-161) and the row and symbol heights: they are layout and reporting, not encoding.
- The floating-point estimate and `Math.sqrt`: replaced by the exact half-unit characterisation; double rounding could differ only at exact boundaries.
- The `Symbol` base class (`toBytes`, the FNC1 constant, the content regex, `DataType`) is not part of this model: GS1 mode is a boolean, FNC1 is `-1`, and validation is the predicate `Sizing.ValidContent`.
- Java `int` wrap-around of the K1/K2 sums: not modelled, because `Checks.CheckSumsFitInInt` proves it cannot happen on accepted input.
- The source's main `do ... while` loop is written as the recursive `DataEncoding.EncodeFrom`, one call per pass; the passes and their order are the same.
- DataEncoding.Run: states the result's shape and error kinds, not the cell contents. Each pass's effect on the whole grid is stated by `RowEncoder.Encode1`, `RowEncoder.Pass` and `RowEncoder.StepOutcome`, the end of the data by `RowEncoder.FinishData` and `DataEncoding.ExtendToTwoRows`; the cells of a whole input are obtained only by unfolding `Run` pass by pass, as `DataEncoding.AimRun` does.
- DataEncoding.EncodeData: the start position of each row is a ghost output, stated only through `OpenedAt`, not through `Run`.
- CodablockF.Encode: for an accepted input, the grid is stated to be `Run`'s grid only by `CodablockF.EncodeSized`, not restated here.
