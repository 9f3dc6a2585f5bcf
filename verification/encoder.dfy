/** The row encoder: one pass of the source's main encoding loop as a step
    function over an explicit state. A pass opens a row when the cursor is at
    column 0, then applies the first matching rule of Annex B section 1 of the
    Codablock F specification (with the low-capacity guards of Tables B1-B3),
    then handles the end of the data or a full row. */
module RowEncoder {
  import opened Results
  import opened Subsets
  import opened Code128

  const GridRows: int := 44
  const GridColumns: int := 62

  /** FNC4 in subset A (101) and in subset B (100). Each value is also the
      switch character in the other subset: 101 is Code A in subset B, and
      100 is Code B in subset A. */
  const Fnc4A: int := 101
  const Fnc4B: int := 100

  /** FNC4 in subset `m` (A or B). */
  function Fnc4In(m: Subset): int {
    if m == A then Fnc4A else Fnc4B
  }

  /** The characters written for byte `b` with `fnc4` as its FNC4 value:
      the FNC4 value when the byte is extended, then the byte's data value. */
  function ByteCells(b: int, fnc4: int): seq<int> {
    (if b >= 128 then [fnc4] else []) + [A3Convert(b)]
  }

  /** What the encoder reads: the units, the fixed column count, GS1 mode. */
  datatype Config = Config(data: seq<int>, columns: int, gs1: bool)

  predicate ValidConfig(cfg: Config) {
    && |cfg.data| > 0
    && (forall i :: 0 <= i < |cfg.data| ==> IsUnit(cfg.data[i]))
    && 4 <= cfg.columns <= GridColumns
  }

  /** The unit at `i`; the input carries one trailing 0x00 sentinel, and the
      model reads 0 at and beyond the end. */
  function At(cfg: Config, i: int): (u: int)
    ensures (forall k :: 0 <= k < |cfg.data| ==> IsUnit(cfg.data[k])) ==> IsUnit(u)
  {
    if 0 <= i < |cfg.data| then cfg.data[i] else 0
  }

  type Grid = seq<seq<int>>

  predicate IsGrid(g: Grid) {
    && |g| == GridRows
    && (forall r :: 0 <= r < GridRows ==> |g[r]| == GridColumns)
    && (forall r, j :: 0 <= r < GridRows && 0 <= j < GridColumns ==> g[r][j] < Stop)
  }

  function EmptyGrid(): (g: Grid)
    ensures IsGrid(g)
    ensures forall r, j :: 0 <= r < GridRows && 0 <= j < GridColumns ==> g[r][j] == 0
  {
    seq(GridRows, _ => seq(GridColumns, _ => 0))
  }

  /** The encoder's variables: the grid, the subset selector of every row
      opened so far, the cursor (row, column), the columns still free in the
      row (the source's `c`, which may go negative), the current subset and
      the input position. `fault` records an array access outside the
      source's arrays during the current pass; the pass then ends in
      `IndexOutOfRange`, as the source's pass ends in an exception. */
  datatype State = State(
    grid: Grid,
    sels: seq<Subset>,
    row: int,
    col: int,
    free: int,
    mode: Subset,
    pos: int,
    fault: bool)

  /** A state whose cursor can address the grid's row; without a fault the
      cursor is at most one past the grid's last column. */
  predicate Writable(s: State) {
    IsGrid(s.grid) && 0 <= s.row < GridRows && 0 <= s.col && (!s.fault ==> s.col <= GridColumns)
  }

  /** `t` carries on in the row of `s`: same row and selectors, the cursor
      not behind, the free count down by the columns written, the input
      position not behind and within the data or on the sentinel. */
  predicate Continues(cfg: Config, s: State, t: State) {
    && IsGrid(t.grid)
    && t.row == s.row
    && t.sels == s.sels
    && s.col <= t.col
    && t.col + t.free == s.col + s.free
    && s.pos <= t.pos <= |cfg.data|
    && (!t.fault ==> t.col <= GridColumns)
  }

  /** The state at the head of the main loop. */
  predicate Ready(cfg: Config, s: State) {
    && !s.fault
    && IsGrid(s.grid)
    && 0 <= s.row < GridRows
    && 0 <= s.pos < |cfg.data|
    && 0 <= s.col
    && (s.col == 0 ==> |s.sels| == s.row)
    && (s.col > 0 ==> |s.sels| == s.row + 1 && s.col + s.free == cfg.columns && s.free >= 1)
  }

  /** A state inside an opened row, before anything of the pass is written. */
  predicate InRow(cfg: Config, s: State) {
    && !s.fault
    && IsGrid(s.grid)
    && 0 <= s.row < GridRows
    && 0 <= s.pos < |cfg.data|
    && 0 <= s.col
    && |s.sels| == s.row + 1
    && s.col + s.free == cfg.columns
    && s.free >= 1
  }

  /** The state when the loop exits: all data consumed, and either exactly
      two columns left for the check characters or the row overrun. */
  predicate Finished(cfg: Config, s: State) {
    && !s.fault
    && IsGrid(s.grid)
    && 0 <= s.row < GridRows
    && |s.sels| == s.row + 1
    && s.pos == |cfg.data|
    && 1 <= s.col
    && s.col + s.free == cfg.columns
    && (s.free == 2 || s.free < 0)
  }

  /** `t` holds `cells` from the cursor of `s` on, as far as the grid
      reaches, with its cursor just past them; every other cell of the
      grid, in this row or another, is as in `s`. */
  predicate Wrote(s: State, t: State, cells: seq<int>)
    requires IsGrid(s.grid) && IsGrid(t.grid) && 0 <= s.row < GridRows
  {
    && t.col == s.col + |cells|
    && (forall k :: 0 <= k < |cells| && 0 <= s.col + k < GridColumns ==> t.grid[s.row][s.col + k] == cells[k])
    && (forall j :: 0 <= j < GridColumns && (j < s.col || s.col + |cells| <= j) ==>
          t.grid[s.row][j] == s.grid[s.row][j])
    && t.grid == s.grid[s.row := t.grid[s.row]]
  }

  /** Writing `a` and then `b` in one row writes `a + b`. */
  lemma WroteThen(s: State, t: State, u: State, a: seq<int>, b: seq<int>)
    requires IsGrid(s.grid) && IsGrid(t.grid) && IsGrid(u.grid) && 0 <= s.row < GridRows && t.row == s.row
    requires 0 <= s.col && Wrote(s, t, a) && Wrote(t, u, b)
    ensures Wrote(s, u, a + b)
  {
    assert u.grid == s.grid[s.row := u.grid[s.row]] by {
      forall i | 0 <= i < GridRows && i != s.row ensures u.grid[i] == s.grid[i] {
        assert u.grid[i] == t.grid[i];
      }
    }
    forall k | 0 <= k < |a + b| && 0 <= s.col + k < GridColumns
      ensures u.grid[s.row][s.col + k] == (a + b)[k]
    {
      if k < |a| {
        assert u.grid[t.row][s.col + k] == t.grid[t.row][s.col + k];
      } else {
        assert u.grid[t.row][t.col + (k - |a|)] == b[k - |a|];
      }
    }
  }

  /** `t` leaves alone what `s` had written before its cursor in its row,
      and every other row of the grid. */
  predicate Kept(s: State, t: State)
    requires IsGrid(s.grid) && IsGrid(t.grid) && 0 <= s.row < GridRows
  {
    && (forall j :: 0 <= j < s.col && j < GridColumns ==> t.grid[s.row][j] == s.grid[s.row][j])
    && t.grid == s.grid[s.row := t.grid[s.row]]
  }

  /** Keeping is transitive along a row whose cursor does not move back. */
  lemma KeptThen(s: State, t: State, u: State)
    requires IsGrid(s.grid) && IsGrid(t.grid) && IsGrid(u.grid) && 0 <= s.row < GridRows
    requires t.row == s.row && s.col <= t.col && Kept(s, t) && Kept(t, u)
    ensures Kept(s, u)
  {
    assert u.grid == s.grid[s.row := u.grid[s.row]] by {
      forall i | 0 <= i < GridRows && i != s.row ensures u.grid[i] == s.grid[i] {
        assert u.grid[i] == t.grid[i];
      }
    }
  }

  /** Stores `v` at the cursor and moves the cursor one column on. A store
      past the grid's last column is the source's out-of-bounds fault. */
  function Emit(s: State, v: int): (t: State)
    requires Writable(s) && v < Stop
    ensures IsGrid(t.grid)
    ensures Wrote(s, t, [v])
    ensures t.fault <==> s.fault || s.col >= GridColumns
    ensures s.col < GridColumns ==> t.grid[s.row][s.col] == v
    ensures forall i, j :: 0 <= i < GridRows && 0 <= j < GridColumns && (i != s.row || j != s.col) ==>
              t.grid[i][j] == s.grid[i][j]
    ensures t == s.(grid := t.grid, col := s.col + 1, free := s.free - 1, fault := t.fault)
  {
    if s.col < GridColumns then
      s.(grid := s.grid[s.row := s.grid[s.row][s.col := v]], col := s.col + 1, free := s.free - 1)
    else
      s.(col := s.col + 1, free := s.free - 1, fault := true)
  }

  /** Opening a row (source lines 306-317): the free count is reset, the row's
      subset is chosen from the unit at the cursor and recorded, and in GS1
      mode the first row begins with FNC1. */
  function OpenRow(cfg: Config, s: State): (t: State)
    requires ValidConfig(cfg) && Ready(cfg, s) && s.col == 0
    ensures InRow(cfg, t)
    ensures t.row == s.row && t.pos == s.pos
    ensures t.sels == s.sels + [RowStartSubset(At(cfg, s.pos))]
    ensures t.mode == RowStartSubset(At(cfg, s.pos))
    ensures t.col == (if s.row == 0 && cfg.gs1 then 1 else 0)
    ensures s.row == 0 && cfg.gs1 ==> t.grid[0][0] == Fnc1Char
    ensures Wrote(s, t, if s.row == 0 && cfg.gs1 then [Fnc1Char] else [])
  {
    var m := RowStartSubset(At(cfg, s.pos));
    var t := s.(free := cfg.columns, mode := m, sels := s.sels + [m]);
    if s.row == 0 && cfg.gs1 then Emit(t, Fnc1Char) else t
  }

  /** The state of a pass after a rule, and whether a rule has handled the unit. */
  datatype Progress = Progress(s: State, done: bool)

  /** An FNC1 in the data becomes symbol character 102 (source lines 319-325). */
  function Fnc1Rule(cfg: Config, s: State): (p: Progress)
    requires ValidConfig(cfg) && InRow(cfg, s)
    ensures Continues(cfg, s, p.s) && p.s.mode == s.mode
    ensures p.done <==> At(cfg, s.pos) == FNC1
    ensures p.done ==> p.s.grid[s.row][s.col] == Fnc1Char && p.s.col == s.col + 1 && p.s.pos == s.pos + 1
    ensures p.done ==> Wrote(s, p.s, [Fnc1Char])
    ensures !p.done ==> p.s == s
  {
    if At(cfg, s.pos) == FNC1 then Progress(Emit(s, Fnc1Char).(pos := s.pos + 1), true)
    else Progress(s, false)
  }

  /** Table B1 in subset A with `s.free` (1 or 2) columns left, as the
      source applies it. A digit is written at once, followed by Code B when
      two columns were free and a lower-case character comes next: the test
      at line 341 does not look at whether the digit test fired. Otherwise a
      lower-case or extended character in the last column gets Code B, an
      extended character from 244 on with two columns left gets Code B and
      Code A, and anything else is left to the rule chain. The subset stays
      A throughout, even after the Code B. */
  predicate TableB1(cfg: Config, s: State, p: Progress)
    requires InRow(cfg, s) && IsGrid(p.s.grid)
  {
    var b := At(cfg, s.pos);
    && !p.s.fault
    && if IsDigit(b) then
         var next := if s.free == 2 && FindSubset(At(cfg, s.pos + 1)) == ShiftB then [CodeB] else [];
         p.done && p.s.pos == s.pos + 1 && Wrote(s, p.s, [A3Convert(b)] + next)
       else if s.free == 1 && (FindSubset(b) == ShiftB || b >= 128) then
         p.done && p.s.pos == s.pos && Wrote(s, p.s, [CodeB])
       else if s.free == 2 && b >= 244 then
         p.done && p.s.pos == s.pos && Wrote(s, p.s, [CodeB, CodeA])
       else
         !p.done && p.s == s
  }

  /** Table B2 in subset B, as the source applies it: the mirror of Table B1
      with Code A for Code B, control characters for lower-case ones, and
      the extended ranges 128-159 and 160 on. The test at line 379 does not
      look at whether the digit test fired, and the subset stays B. */
  predicate TableB2(cfg: Config, s: State, p: Progress)
    requires InRow(cfg, s) && IsGrid(p.s.grid)
  {
    var b := At(cfg, s.pos);
    && !p.s.fault
    && if IsDigit(b) then
         var next := if s.free == 2 && FindSubset(At(cfg, s.pos + 1)) == ShiftA then [CodeA] else [];
         p.done && p.s.pos == s.pos + 1 && Wrote(s, p.s, [A3Convert(b)] + next)
       else if s.free == 1 && (FindSubset(b) == ShiftA || b >= 160) then
         p.done && p.s.pos == s.pos && Wrote(s, p.s, [CodeA])
       else if s.free == 2 && 128 <= b <= 159 then
         p.done && p.s.pos == s.pos && Wrote(s, p.s, [CodeA, CodeB])
       else
         !p.done && p.s == s
  }

  /** Table B3 in subset C, as the source applies it. In the last column a
      non-digit gets Code A (twice when it is extended, the second one past
      the row), and a digit not followed by another gets Code A. With two
      columns left an extended byte gets Code A and Code B without the unit
      being handled, so the rule chain still runs (line 428). No input is
      consumed and the subset stays C. */
  predicate TableB3(cfg: Config, s: State, p: Progress)
    requires InRow(cfg, s) && IsGrid(p.s.grid)
  {
    var b := At(cfg, s.pos);
    && p.s.pos == s.pos
    && (p.s.fault <==> p.s.col > GridColumns)
    && if s.free == 1 && !IsDigit(b) then
         p.done && Wrote(s, p.s, [CodeA] + (if b >= 128 then [CodeA] else []))
       else if s.free == 1 && !IsDigit(At(cfg, s.pos + 1)) then
         p.done && Wrote(s, p.s, [CodeA])
       else if s.free == 2 && b >= 128 then
         !p.done && Wrote(s, p.s, [CodeA, CodeB])
       else
         !p.done && p.s == s
  }

  /** Whatever the table writes, the cells before the cursor and the other
      rows are kept. */
  lemma TableKept(cfg: Config, s: State, p: Progress)
    requires InRow(cfg, s) && IsGrid(p.s.grid) && TableB(cfg, s, p)
    ensures Kept(s, p.s)
  {
  }

  /** The table of the current subset. */
  predicate TableB(cfg: Config, s: State, p: Progress)
    requires InRow(cfg, s) && IsGrid(p.s.grid)
  {
    match s.mode
    case A => TableB1(cfg, s, p)
    case B => TableB2(cfg, s, p)
    case C => TableB3(cfg, s, p)
  }

  /** The capacity guard in subset A (source lines 332-369). The source runs
      four tests in turn; the last two are skipped once a unit is handled,
      and the second is the one that ignores this, so the chain is the nested
      choice below. */
  function GuardA(cfg: Config, s: State): (p: Progress)
    requires ValidConfig(cfg) && InRow(cfg, s) && s.free <= 2
    ensures Continues(cfg, s, p.s) && p.s.mode == s.mode
    ensures TableB1(cfg, s, p)
  {
    var b := At(cfg, s.pos);
    assert FindSubset(b) == AorBorC <==> IsDigit(b);
    assert b >= 244 ==> FindSubset(b) == ShiftB;
    if FindSubset(b) == AorBorC then
      var t := Emit(s, A3Convert(b)).(pos := s.pos + 1);
      if FindSubset(At(cfg, t.pos)) == ShiftB && t.free == 1 then
        var u := Emit(t, CodeB);
        WroteThen(s, t, u, [A3Convert(b)], [CodeB]);
        Progress(u, true)
      else Progress(t, true)
    else if FindSubset(b) == ShiftB && s.free == 1 then Progress(Emit(s, CodeB), true)
    else if b >= 244 then
      var t := Emit(s, CodeB);
      if t.free == 1 then
        var u := Emit(t, CodeA);
        WroteThen(s, t, u, [CodeB], [CodeA]);
        Progress(u, true)
      else Progress(t, true)
    else if b >= 128 && s.free == 1 then Progress(Emit(s, CodeB), true)
    else Progress(s, false)
  }

  /** The capacity guard in subset B (source lines 370-408), the same chain
      as in subset A. */
  function GuardB(cfg: Config, s: State): (p: Progress)
    requires ValidConfig(cfg) && InRow(cfg, s) && s.free <= 2
    ensures Continues(cfg, s, p.s) && p.s.mode == s.mode
    ensures TableB2(cfg, s, p)
  {
    var b := At(cfg, s.pos);
    assert FindSubset(b) == AorBorC <==> IsDigit(b);
    assert 128 <= b <= 159 ==> FindSubset(b) == ShiftA;
    if FindSubset(b) == AorBorC then
      var t := Emit(s, A3Convert(b)).(pos := s.pos + 1);
      if FindSubset(At(cfg, t.pos)) == ShiftA && t.free == 1 then
        var u := Emit(t, CodeA);
        WroteThen(s, t, u, [A3Convert(b)], [CodeA]);
        Progress(u, true)
      else Progress(t, true)
    else if FindSubset(b) == ShiftA && s.free == 1 then Progress(Emit(s, CodeA), true)
    else if 128 <= b <= 159 then
      var t := Emit(s, CodeA);
      if t.free == 1 then
        var u := Emit(t, CodeB);
        WroteThen(s, t, u, [CodeA], [CodeB]);
        Progress(u, true)
      else Progress(t, true)
    else if b >= 160 && s.free == 1 then Progress(Emit(s, CodeA), true)
    else Progress(s, false)
  }

  /** The capacity guard in subset C (source lines 409-439). */
  function GuardC(cfg: Config, s: State): (p: Progress)
    requires ValidConfig(cfg) && InRow(cfg, s) && s.free <= 2
    ensures Continues(cfg, s, p.s) && p.s.mode == s.mode
    ensures TableB3(cfg, s, p)
  {
    var b := At(cfg, s.pos);
    var p1 := if FindSubset(b) != AorBorC && s.free == 1 then Progress(Emit(s, CodeA), true)
              else Progress(s, false);
    var p2 := if FindSubset(b) == AorBorC && FindSubset(At(cfg, s.pos + 1)) != AorBorC && p1.s.free == 1 then
                Progress(Emit(p1.s, CodeA), true)
              else p1;
    if b >= 128 then
      var t := Emit(p2.s, CodeA);
      Progress(if t.free == 1 then Emit(t, CodeB) else t, p2.done)
    else p2
  }

  /** The capacity guard of the current subset (source lines 328-441). */
  function Guard(cfg: Config, s: State): (p: Progress)
    requires ValidConfig(cfg) && InRow(cfg, s) && s.free <= 2
    ensures Continues(cfg, s, p.s) && p.s.mode == s.mode
    ensures TableB(cfg, s, p)
    ensures !p.done ==> p.s.pos == s.pos && !p.s.fault
  {
    match s.mode
    case A => GuardA(cfg, s)
    case B => GuardB(cfg, s)
    case C => GuardC(cfg, s)
  }

  /** Byte `b` written in the current subset: FNC4 (`fnc4`) first when it is
      extended, then its data value. */
  function WriteByte(s: State, b: int, fnc4: int): (t: State)
    requires Writable(s) && IsUnit(b) && fnc4 in {Fnc4A, Fnc4B}
    ensures IsGrid(t.grid) && t.row == s.row && t.sels == s.sels && t.mode == s.mode && t.pos == s.pos
    ensures t.col == s.col + (if b >= 128 then 2 else 1) && t.col + t.free == s.col + s.free
    ensures t.fault <==> s.fault || t.col > GridColumns
    ensures t.col <= GridColumns ==> t.grid[s.row][t.col - 1] == A3Convert(b)
    ensures t.col <= GridColumns && b >= 128 ==> t.grid[s.row][s.col] == fnc4
    ensures t.col <= GridColumns ==> forall j :: 0 <= j < s.col ==> t.grid[s.row][j] == s.grid[s.row][j]
    ensures Wrote(s, t, ByteCells(b, fnc4))
  {
    if b >= 128 then
      var t := Emit(s, fnc4);
      var u := Emit(t, A3Convert(b));
      WroteThen(s, t, u, [fnc4], [A3Convert(b)]);
      u
    else Emit(s, A3Convert(b))
  }

  /** A switch character `sw` (Shift, Code A or Code B), then byte `b` with
      `fnc4` as its FNC4 value. */
  function WriteSwitched(s: State, sw: int, b: int, fnc4: int): (t: State)
    requires Writable(s) && 0 <= sw < Stop && IsUnit(b) && fnc4 in {Fnc4A, Fnc4B}
    ensures IsGrid(t.grid) && t.row == s.row && t.sels == s.sels && t.mode == s.mode && t.pos == s.pos
    ensures t.col + t.free == s.col + s.free
    ensures t.fault <==> s.fault || t.col > GridColumns
    ensures Wrote(s, t, [sw] + ByteCells(b, fnc4))
  {
    var t := Emit(s, sw);
    var u := WriteByte(t, b, fnc4);
    WroteThen(s, t, u, [sw], ByteCells(b, fnc4));
    u
  }

  /** Annex B rule 2 (source lines 444-463): in subset A, a unit subset A can
      carry is written there; the written cells decode back to the unit. */
  function RuleInA(cfg: Config, s: State): (t: State)
    requires ValidConfig(cfg) && Writable(s) && 0 <= s.pos < |cfg.data|
    requires s.mode == A && FindSubset(At(cfg, s.pos)) in {AorB, ShiftA}
    ensures Continues(cfg, s, t) && t.mode == A && t.pos == s.pos + 1 && t.col > s.col
    ensures Wrote(s, t, ByteCells(At(cfg, s.pos), Fnc4In(A)))
    ensures var b := At(cfg, s.pos);
      !t.fault && IsByte(b) ==>
        CharA(t.grid[s.row][t.col - 1]) + Extension(b) == b
        && (b >= 128 <==> t.col == s.col + 2)
        && (b >= 128 ==> t.grid[s.row][s.col] == Fnc4A)
  {
    WriteByte(s, At(cfg, s.pos), Fnc4A).(pos := s.pos + 1)
  }

  /** Annex B rule 3 (source lines 465-484): in subset B, a unit subset B can
      carry is written there; the written cells decode back to the unit. */
  function RuleInB(cfg: Config, s: State): (t: State)
    requires ValidConfig(cfg) && Writable(s) && 0 <= s.pos < |cfg.data|
    requires s.mode == B && FindSubset(At(cfg, s.pos)) in {AorB, ShiftB}
    ensures Continues(cfg, s, t) && t.mode == B && t.pos == s.pos + 1 && t.col > s.col
    ensures Wrote(s, t, ByteCells(At(cfg, s.pos), Fnc4In(B)))
    ensures var b := At(cfg, s.pos);
      !t.fault && IsByte(b) ==>
        CharB(t.grid[s.row][t.col - 1]) + Extension(b) == b
        && (b >= 128 <==> t.col == s.col + 2)
        && (b >= 128 ==> t.grid[s.row][s.col] == Fnc4B)
  {
    WriteByte(s, At(cfg, s.pos), Fnc4B).(pos := s.pos + 1)
  }

  /** Annex B rule 4 (source lines 486-500): in subset C, two digits go into
      one value in 0..99 whose decimal digits are the two digits. */
  function PairRule(cfg: Config, s: State): (t: State)
    requires ValidConfig(cfg) && Writable(s) && 0 <= s.pos < |cfg.data|
    requires s.mode == C && IsDigit(At(cfg, s.pos)) && IsDigit(At(cfg, s.pos + 1))
    ensures Continues(cfg, s, t) && t.mode == C && t.pos == s.pos + 2 && t.col == s.col + 1
    ensures Wrote(s, t, [PackPair(At(cfg, s.pos), At(cfg, s.pos + 1))])
    ensures !t.fault ==>
      var v := t.grid[s.row][s.col];
      0 <= v <= 99 && v / 10 + '0' as int == At(cfg, s.pos) && v % 10 + '0' as int == At(cfg, s.pos + 1)
  {
    Emit(s, PackPair(At(cfg, s.pos), At(cfg, s.pos + 1))).(pos := s.pos + 2)
  }

  /** Weight of the run of digits and FNC1s starting at `p`: one per digit,
      two per FNC1. */
  function RunWeight(cfg: Config, p: int): nat
    requires 0 <= p
    decreases |cfg.data| - p
  {
    if p < |cfg.data| && (IsDigit(cfg.data[p]) || cfg.data[p] == FNC1) then
      (if cfg.data[p] == FNC1 then 2 else 1) + RunWeight(cfg, p + 1)
    else 0
  }

  /** The digit count `i` of source lines 512-522: the do-while loop adds up
      the run's weight and then takes one off. */
  function SourceRunCount(cfg: Config, p: int): int
    requires 0 <= p
  {
    RunWeight(cfg, p) - 1
  }

  /** Annex B rule 5 (source lines 502-553): a digit in subset A or B. Code C
      and a packed pair are written, and the subset becomes C, exactly when the
      source's count is at least 4 and odd, that is when the run's weight is
      even and at least 6; otherwise the digit is written on its own. The pair
      is the digit and the unit after it, even when that unit is an FNC1
      (see `DigitThenFnc1PacksNegative`). */
  function DigitRule(cfg: Config, s: State): (t: State)
    requires ValidConfig(cfg) && Writable(s) && 0 <= s.pos < |cfg.data|
    requires s.mode in {A, B} && (IsDigit(At(cfg, s.pos)) || At(cfg, s.pos) == FNC1)
    ensures Continues(cfg, s, t) && t.col > s.col
    ensures var i := SourceRunCount(cfg, s.pos);
      (t.mode == C <==> i >= 4 && i % 2 == 1)
      && (t.mode == C <==> RunWeight(cfg, s.pos) >= 6 && RunWeight(cfg, s.pos) % 2 == 0)
    ensures t.mode == C ==> t.pos == s.pos + 2 && t.col == s.col + 2
    ensures t.mode == C && !t.fault ==> t.grid[s.row][s.col] == CodeC
    ensures t.mode != C ==> t.mode == s.mode && t.pos == s.pos + 1 && t.col == s.col + 1
    ensures t.mode != C && !t.fault ==> t.grid[s.row][s.col] == A3Convert(At(cfg, s.pos)) != CodeC
    ensures t.mode == C ==> Wrote(s, t, [CodeC, PackPair(At(cfg, s.pos), At(cfg, s.pos + 1))])
    ensures t.mode != C ==> Wrote(s, t, [A3Convert(At(cfg, s.pos))])
  {
    var i := SourceRunCount(cfg, s.pos);
    if i >= 4 && i % 2 == 1 then
      var t := Emit(s, CodeC);
      assert RunWeight(cfg, s.pos + 1) > 0;
      var u := Emit(t, PackPair(At(cfg, s.pos), At(cfg, s.pos + 1)));
      WroteThen(s, t, u, [CodeC], [PackPair(At(cfg, s.pos), At(cfg, s.pos + 1))]);
      u.(pos := s.pos + 2, mode := C)
    else
      Emit(s, A3Convert(At(cfg, s.pos))).(pos := s.pos + 1)
  }

  /** A run of exactly four digits met in subset A or B does not switch to
      subset C: the source's count is 3, so the first digit is written on
      its own in the current subset. */
  lemma {:induction false} FourDigitRunStaysInSubset(cfg: Config, s: State)
    requires ValidConfig(cfg) && Writable(s) && 0 <= s.pos && s.pos + 4 <= |cfg.data|
    requires s.mode in {A, B}
    requires forall k :: s.pos <= k < s.pos + 4 ==> IsDigit(cfg.data[k])
    requires s.pos + 4 == |cfg.data| || !(IsDigit(cfg.data[s.pos + 4]) || cfg.data[s.pos + 4] == FNC1)
    ensures DigitRule(cfg, s).mode == s.mode && DigitRule(cfg, s).pos == s.pos + 1
  {
    var p := s.pos;
    assert RunWeight(cfg, p + 4) == 0;
    assert RunWeight(cfg, p + 3) == 1;
    assert RunWeight(cfg, p + 2) == 2;
    assert RunWeight(cfg, p + 1) == 3;
    assert RunWeight(cfg, p) == 4;
  }

  /** Annex B rule 6 (source lines 555-596): a control character in subset B.
      Before a lower-case character it is shifted into A for one character;
      otherwise the row changes to subset A. The FNC4 written for an extended
      byte is 100, FNC4 in subset B, in both cases, though the byte is read
      in subset A, where 100 is Code B (see `ExtendedControlInB`). */
  function ControlInB(cfg: Config, s: State): (t: State)
    requires ValidConfig(cfg) && Writable(s) && 0 <= s.pos < |cfg.data|
    requires s.mode == B && FindSubset(At(cfg, s.pos)) == ShiftA
    ensures Continues(cfg, s, t) && t.pos == s.pos + 1 && t.col > s.col + 1
    ensures var shifted := 96 <= At(cfg, s.pos + 1) <= 127;
      && t.mode == (if shifted then B else A)
      && (!t.fault ==> t.grid[s.row][s.col] == (if shifted then Shift else CodeA))
    ensures !t.fault && IsByte(At(cfg, s.pos)) ==>
      CharA(t.grid[s.row][t.col - 1]) + Extension(At(cfg, s.pos)) == At(cfg, s.pos)
    ensures var shifted := 96 <= At(cfg, s.pos + 1) <= 127;
      Wrote(s, t, [if shifted then Shift else CodeA] + ByteCells(At(cfg, s.pos), Fnc4In(B)))
  {
    var b := At(cfg, s.pos);
    if 96 <= At(cfg, s.pos + 1) <= 127 then
      WriteSwitched(s, Shift, b, Fnc4B).(pos := s.pos + 1)
    else
      WriteSwitched(s, CodeA, b, Fnc4B).(pos := s.pos + 1, mode := A)
  }

  /** Annex B rule 7 (source lines 598-640): a lower-case character in subset
      A. When a control character and then another lower-case character
      follow, it is shifted into B for one character; otherwise the row
      changes to subset B. The test of the second unit ahead reads past the
      single sentinel when the lower-case character is the last unit, since
      the sentinel counts as a control character: that read is the source's
      out-of-bounds fault. The FNC4 written for an extended byte is 101, FNC4
      in subset A, though the byte is read in subset B, where 101 is Code A. */
  function LowerInA(cfg: Config, s: State): (t: State)
    requires ValidConfig(cfg) && Writable(s) && 0 <= s.pos < |cfg.data|
    requires s.mode == A && FindSubset(At(cfg, s.pos)) == ShiftB
    ensures Continues(cfg, s, t)
    ensures t.fault <==> s.fault || s.pos + 1 == |cfg.data| || t.col > GridColumns
    ensures !t.fault ==> t.pos == s.pos + 1 && t.col > s.col + 1
    ensures s.pos + 1 == |cfg.data| ==> t == s.(fault := true)
    ensures !t.fault ==>
      var shifted := FindSubset(At(cfg, s.pos + 1)) == ShiftA && FindSubset(At(cfg, s.pos + 2)) == ShiftB;
      && t.grid[s.row][s.col] == (if shifted then Shift else CodeB)
      && (IsByte(At(cfg, s.pos)) ==>
            CharB(t.grid[s.row][t.col - 1]) + Extension(At(cfg, s.pos)) == At(cfg, s.pos))
    ensures s.pos + 1 < |cfg.data| ==>
      var shifted := FindSubset(At(cfg, s.pos + 1)) == ShiftA && FindSubset(At(cfg, s.pos + 2)) == ShiftB;
      && t.mode == (if shifted then A else B) && t.pos == s.pos + 1
      && Wrote(s, t, [if shifted then Shift else CodeB] + ByteCells(At(cfg, s.pos), Fnc4In(A)))
  {
    var nextIsControl := FindSubset(At(cfg, s.pos + 1)) == ShiftA;
    if nextIsControl && s.pos + 2 > |cfg.data| then
      s.(fault := true)
    else
      LowerSwitched(cfg, s)
  }

  /** Rule 7 when a unit follows the lower-case character: the shift or the
      switch to subset B, then the character. */
  function LowerSwitched(cfg: Config, s: State): (t: State)
    requires ValidConfig(cfg) && Writable(s) && 0 <= s.pos && s.pos + 1 < |cfg.data|
    requires s.mode == A && FindSubset(At(cfg, s.pos)) == ShiftB
    ensures Continues(cfg, s, t)
    ensures t.fault <==> s.fault || t.col > GridColumns
    ensures t.pos == s.pos + 1 && t.col > s.col + 1
    ensures var shifted := FindSubset(At(cfg, s.pos + 1)) == ShiftA && FindSubset(At(cfg, s.pos + 2)) == ShiftB;
      && t.mode == (if shifted then A else B)
      && Wrote(s, t, [if shifted then Shift else CodeB] + ByteCells(At(cfg, s.pos), Fnc4In(A)))
      && (!t.fault ==> t.grid[s.row][s.col] == (if shifted then Shift else CodeB))
    ensures !t.fault && IsByte(At(cfg, s.pos)) ==>
      CharB(t.grid[s.row][t.col - 1]) + Extension(At(cfg, s.pos)) == At(cfg, s.pos)
  {
    var shifted := FindSubset(At(cfg, s.pos + 1)) == ShiftA && FindSubset(At(cfg, s.pos + 2)) == ShiftB;
    WriteSwitched(s, if shifted then Shift else CodeB, At(cfg, s.pos), Fnc4A).(pos := s.pos + 1, mode := if shifted then A else B)
  }

  /** The input "\x01a" (a control character, then a lower-case letter) in 4
      columns: the first pass opens the row in subset A and writes the control
      character; in the second the letter is the last unit, met in subset A,
      and rule 7's lookahead faults. */
  lemma ControlThenLowerCaseFaults()
    ensures var cfg := Config([1, 'a' as int], 4, false);
      var s0 := State(EmptyGrid(), [], 0, 0, 0, A, 0, false);
      var s1 := State(EmptyGrid()[0 := EmptyGrid()[0][0 := 65]], [A], 0, 1, 3, A, 1, false);
      Step(cfg, s0) == Ok(Next(s1)) && Step(cfg, s1) == Err(IndexOutOfRange)
  {
    var cfg := Config([1, 'a' as int], 4, false);
    var s0 := State(EmptyGrid(), [], 0, 0, 0, A, 0, false);
    var s1 := State(EmptyGrid()[0 := EmptyGrid()[0][0 := 65]], [A], 0, 1, 3, A, 1, false);
    assert RowStartSubset(At(cfg, 0)) == A;
    var o := OpenRow(cfg, s0);
    assert o == s0.(free := 4, mode := A, sels := [A]);
    assert FindSubset(At(cfg, 0)) == ShiftA;
    assert A3Convert(1) == 65;
    assert Rules(cfg, o) == s1;
    assert Encode1(cfg, o) == s1;
    assert FindSubset(At(cfg, 1)) == ShiftB;
    assert Rules(cfg, s1).fault;
  }

  /** With two columns left in subset A, an extended lower-case byte
      (224-243) passes every guard of Table B1 and rule 7 then writes three
      cells: a switch, FNC4 and the value. The row overruns its width by one
      column, which is outside the grid when the row is 62 columns wide. */
  lemma ExtendedLowerCaseOverruns(cfg: Config, s: State)
    requires ValidConfig(cfg) && InRow(cfg, s) && 0 <= s.pos + 1 < |cfg.data|
    requires s.mode == A && s.free == 2 && 224 <= At(cfg, s.pos) <= 243
    ensures var t := Encode1(cfg, s);
      && t.col == cfg.columns + 1 && t.free == -1
      && (t.fault <==> cfg.columns == GridColumns)
  {
    assert FindSubset(At(cfg, s.pos)) == ShiftB;
    assert Fnc1Rule(cfg, s) == Progress(s, false);
    assert Guard(cfg, s) == Progress(s, false);
  }

  /** Annex B rule 8 (source lines 642-687): leaving subset C before a
      non-digit or a lone digit, for A when the unit is a control character
      and for B otherwise; the new subset can carry the unit, and an extended
      byte gets that subset's own FNC4. */
  function LeaveC(cfg: Config, s: State): (t: State)
    requires ValidConfig(cfg) && Writable(s) && 0 <= s.pos < |cfg.data|
    requires s.mode == C
    ensures Continues(cfg, s, t) && t.pos == s.pos + 1 && t.col > s.col + 1
    ensures t.mode == (if FindSubset(At(cfg, s.pos)) == ShiftA then A else B)
    ensures !t.fault ==> t.grid[s.row][s.col] == (if t.mode == A then CodeA else CodeB)
    ensures var b := At(cfg, s.pos);
      !t.fault && IsByte(b) ==>
        (if t.mode == A then CharA(t.grid[s.row][t.col - 1]) else CharB(t.grid[s.row][t.col - 1]))
          + Extension(b) == b
    ensures Wrote(s, t, [if t.mode == A then CodeA else CodeB] + ByteCells(At(cfg, s.pos), Fnc4In(t.mode)))
  {
    var b := At(cfg, s.pos);
    if FindSubset(b) == ShiftA then
      WriteSwitched(s, CodeA, b, Fnc4A).(pos := s.pos + 1, mode := A)
    else
      WriteSwitched(s, CodeB, b, Fnc4B).(pos := s.pos + 1, mode := B)
  }

  /** What the rule chain of Annex B does with the unit at the cursor, by
      current subset and the unit's class: the cells written, the input
      consumed, the subset after, and when the pass faults. */
  predicate RuleEffect(cfg: Config, s: State, t: State)
    requires Writable(s) && IsGrid(t.grid) && 0 <= s.pos < |cfg.data|
  {
    var b := At(cfg, s.pos);
    var k := FindSubset(b);
    var overrun := t.fault <==> s.fault || t.col > GridColumns;
    match s.mode
    case A =>
      if k == AorB || k == ShiftA then        // rule 2
        overrun && t.mode == A && t.pos == s.pos + 1 && Wrote(s, t, ByteCells(b, Fnc4In(A)))
      else if k == AorBorC then               // rule 5
        overrun && DigitEffect(cfg, s, t)
      else                                    // rule 7
        var shifted := FindSubset(At(cfg, s.pos + 1)) == ShiftA && FindSubset(At(cfg, s.pos + 2)) == ShiftB;
        && (t.fault <==> s.fault || s.pos + 1 == |cfg.data| || t.col > GridColumns)
        && (s.pos + 1 == |cfg.data| ==> t == s.(fault := true))
        && (s.pos + 1 < |cfg.data| ==>
              && t.mode == (if shifted then A else B) && t.pos == s.pos + 1
              && Wrote(s, t, [if shifted then Shift else CodeB] + ByteCells(b, Fnc4In(A))))
    case B =>
      if k == AorB || k == ShiftB then        // rule 3
        overrun && t.mode == B && t.pos == s.pos + 1 && Wrote(s, t, ByteCells(b, Fnc4In(B)))
      else if k == AorBorC then               // rule 5
        overrun && DigitEffect(cfg, s, t)
      else                                    // rule 6
        var shifted := 96 <= At(cfg, s.pos + 1) <= 127;
        && overrun && t.mode == (if shifted then B else A) && t.pos == s.pos + 1
        && Wrote(s, t, [if shifted then Shift else CodeA] + ByteCells(b, Fnc4In(B)))
    case C =>
      if k == AorBorC && IsDigit(At(cfg, s.pos + 1)) then   // rule 4
        overrun && t.mode == C && t.pos == s.pos + 2 && Wrote(s, t, [PackPair(b, At(cfg, s.pos + 1))])
      else                                    // rule 8
        var m := if k == ShiftA then A else B;
        && overrun && t.mode == m && t.pos == s.pos + 1
        && Wrote(s, t, [if m == A then CodeA else CodeB] + ByteCells(b, Fnc4In(m)))
  }

  /** Whatever rule fires, the cells before the cursor and the other rows
      are kept. */
  lemma EffectKept(cfg: Config, s: State, t: State)
    requires Writable(s) && IsGrid(t.grid) && 0 <= s.pos < |cfg.data| && RuleEffect(cfg, s, t)
    ensures Kept(s, t)
  {
  }

  /** Rule 5's effect on a digit met in subset A or B: Code C and the pair,
      or the digit alone. */
  predicate DigitEffect(cfg: Config, s: State, t: State)
    requires Writable(s) && IsGrid(t.grid) && 0 <= s.pos
  {
    var i := SourceRunCount(cfg, s.pos);
    if i >= 4 && i % 2 == 1 then
      t.mode == C && t.pos == s.pos + 2 && Wrote(s, t, [CodeC, PackPair(At(cfg, s.pos), At(cfg, s.pos + 1))])
    else
      t.mode == s.mode && t.pos == s.pos + 1 && Wrote(s, t, [A3Convert(At(cfg, s.pos))])
  }

  /** The rule chain after the guard (source lines 444-687): the first rule
      that applies to the current subset and unit. Every unit matches one, so
      every pass that reaches here writes at least one cell and, unless it
      faults, consumes at least one unit. */
  function Rules(cfg: Config, s: State): (t: State)
    requires ValidConfig(cfg) && Writable(s) && 0 <= s.pos < |cfg.data|
    ensures Continues(cfg, s, t)
    ensures RuleEffect(cfg, s, t)
    ensures !t.fault ==> t.col > s.col && t.pos > s.pos
  {
    match s.mode
    case A => RulesInA(cfg, s)
    case B => RulesInB(cfg, s)
    case C => RulesInC(cfg, s)
  }

  /** Rules 2, 5 and 7: the rule chain in subset A. */
  function RulesInA(cfg: Config, s: State): (t: State)
    requires ValidConfig(cfg) && Writable(s) && 0 <= s.pos < |cfg.data| && s.mode == A
    ensures Continues(cfg, s, t)
    ensures RuleEffect(cfg, s, t)
    ensures !t.fault ==> t.col > s.col && t.pos > s.pos
  {
    var b := At(cfg, s.pos);
    var k := FindSubset(b);
    if k == AorB || k == ShiftA then RuleInA(cfg, s)
    else if k == AorBorC || b == FNC1 then DigitRule(cfg, s)
    else LowerInA(cfg, s)
  }

  /** Rules 3, 5 and 6: the rule chain in subset B. */
  function RulesInB(cfg: Config, s: State): (t: State)
    requires ValidConfig(cfg) && Writable(s) && 0 <= s.pos < |cfg.data| && s.mode == B
    ensures Continues(cfg, s, t)
    ensures RuleEffect(cfg, s, t)
    ensures !t.fault ==> t.col > s.col && t.pos > s.pos
  {
    var b := At(cfg, s.pos);
    var k := FindSubset(b);
    if k == AorB || k == ShiftB then RuleInB(cfg, s)
    else if k == AorBorC || b == FNC1 then DigitRule(cfg, s)
    else ControlInB(cfg, s)
  }

  /** Rules 4 and 8: the rule chain in subset C. */
  function RulesInC(cfg: Config, s: State): (t: State)
    requires ValidConfig(cfg) && Writable(s) && 0 <= s.pos < |cfg.data| && s.mode == C
    ensures Continues(cfg, s, t)
    ensures RuleEffect(cfg, s, t)
    ensures !t.fault ==> t.col > s.col && t.pos > s.pos
  {
    var b := At(cfg, s.pos);
    if FindSubset(b) == AorBorC && FindSubset(At(cfg, s.pos + 1)) == AorBorC then PairRule(cfg, s)
    else LeaveC(cfg, s)
  }

  /** Flips between subsets A and B with a filler character: Code B from A,
      Code A otherwise. */
  function Filler(s: State): (t: State)
    requires Writable(s)
    ensures t.mode == (if s.mode == A then B else A)
    ensures IsGrid(t.grid) && Wrote(s, t, [FillerValue(s.mode, 0)])
    ensures t.fault <==> s.fault || t.col > GridColumns
    ensures forall i :: 0 <= i < GridRows && i != s.row ==> t.grid[i] == s.grid[i]
  {
    Emit(s, if s.mode == A then CodeB else CodeA).(mode := if s.mode == A then B else A)
  }

  /** The `k`-th filler written from subset `m`: fillers alternate between
      Code B and Code A, starting with Code B from A. */
  function FillerValue(m: Subset, k: nat): int {
    if (m == A) == (k % 2 == 0) then CodeB else CodeA
  }

  /** The subset after `k` fillers written from subset `m`. */
  function AfterFillers(m: Subset, k: nat): Subset {
    if k == 0 then m else if (m == A) == (k % 2 == 1) then B else A
  }

  /** Filling the rest of the last row (source lines 712-725): alternating
      fillers until two columns are left for the check characters. */
  function FillRow(s: State): (t: State)
    requires Writable(s)
    ensures IsGrid(t.grid) && t.row == s.row && t.sels == s.sels && t.pos == s.pos
    ensures t.col + t.free == s.col + s.free
    ensures s.free > 2 ==> t.free == 2
    ensures s.free <= 2 ==> t == s
    ensures t.mode == AfterFillers(s.mode, t.col - s.col)
    ensures t.fault <==> s.fault || t.col > GridColumns
    ensures t.col <= GridColumns ==>
      forall j :: s.col <= j < t.col ==> t.grid[s.row][j] == FillerValue(s.mode, j - s.col)
    ensures forall j :: 0 <= j < GridColumns && (j < s.col || t.col <= j) ==> t.grid[s.row][j] == s.grid[s.row][j]
    ensures t.grid == s.grid[s.row := t.grid[s.row]]
    decreases s.free
  {
    if s.free > 2 then FillRow(Filler(s)) else s
  }

  /** The state after the last unit has been consumed, before the end of
      data is handled. */
  predicate DataDone(cfg: Config, s: State) {
    && !s.fault
    && IsGrid(s.grid)
    && 0 <= s.row < GridRows
    && |s.sels| == s.row + 1
    && s.pos == |cfg.data|
    && 1 <= s.col
    && s.col + s.free == cfg.columns
  }

  /** End of data (source lines 689-730). A lone free column takes one
      filler; a full row opens a new row in subset A; more than two free
      columns are filled. So, unless the row has overrun, exactly two columns
      are left for the check characters. A new row past the 44th is the
      source's out-of-bounds store into the selector array. */
  function FinishData(cfg: Config, s: State): (t: State)
    requires ValidConfig(cfg) && DataDone(cfg, s)
    ensures IsGrid(t.grid) && (t.fault || Finished(cfg, t))
    ensures t.fault <==> s.free in {0, 1} && s.row == GridRows - 1
    ensures s.free >= 0 && !t.fault ==> t.free == 2 && t.col == cfg.columns - 2
    ensures s.free < 0 || s.free == 2 ==> t == s
    ensures s.free > 2 ==> t.row == s.row && t.sels == s.sels
    ensures s.free in {0, 1} && !t.fault ==> t.row == s.row + 1 && t.sels == s.sels + [A]
    ensures s.free == 1 ==> t.grid[s.row][s.col] == FillerValue(s.mode, 0)
    ensures s.free in {0, 1} && !t.fault ==>
      && (forall j :: 0 <= j < cfg.columns - 2 ==> t.grid[t.row][j] == FillerValue(A, j))
      && t.mode == AfterFillers(A, cfg.columns - 2)
    ensures s.free > 2 ==>
      && (forall j :: s.col <= j < cfg.columns - 2 ==> t.grid[s.row][j] == FillerValue(s.mode, j - s.col))
      && (forall j :: 0 <= j < s.col ==> t.grid[s.row][j] == s.grid[s.row][j])
      && t.mode == AfterFillers(s.mode, cfg.columns - 2 - s.col)
    ensures forall j :: 0 <= j < s.col && j < GridColumns ==> t.grid[s.row][j] == s.grid[s.row][j]
    ensures forall i :: 0 <= i < GridRows && i != s.row && i != t.row ==> t.grid[i] == s.grid[i]
    ensures s.free <= 2 ==> forall j :: s.col < j < GridColumns ==> t.grid[s.row][j] == s.grid[s.row][j]
    ensures !t.fault ==> forall j :: cfg.columns - 2 <= j < GridColumns ==> t.grid[t.row][j] == s.grid[t.row][j]
  {
    if s.free in {0, 1} then
      var u := CloseRow(cfg, s);
      if u.fault then u else FillRow(u)
    else if s.free > 2 then FillRow(s)
    else s
  }

  /** End of data with at most one column free (source lines 691-710): the
      lone free column takes a filler, and the full row is followed by a new
      one in subset A. Only that filler cell changes in the grid. */
  function CloseRow(cfg: Config, s: State): (t: State)
    requires ValidConfig(cfg) && DataDone(cfg, s) && s.free in {0, 1}
    ensures IsGrid(t.grid) && t.pos == s.pos
    ensures t.fault <==> s.row == GridRows - 1
    ensures !t.fault ==>
      t.row == s.row + 1 && t.sels == s.sels + [A] && t.col == 0 && t.free == cfg.columns && t.mode == A
    ensures s.free == 1 ==> t.grid[s.row][s.col] == FillerValue(s.mode, 0)
    ensures forall j :: 0 <= j < GridColumns && j != s.col ==> t.grid[s.row][j] == s.grid[s.row][j]
    ensures s.free == 0 ==> t.grid == s.grid
    ensures t.grid == s.grid[s.row := t.grid[s.row]]
  {
    var t := if s.free == 1 then Filler(s) else s;
    if t.row + 1 >= GridRows then t.(fault := true)
    else t.(col := 0, free := cfg.columns, row := t.row + 1, sels := t.sels + [A], mode := A)
  }

  datatype Outcome = Next(s: State) | Done(s: State)

  /** The end of a pass (source lines 689-740): the end of data, or a new row
      when the current one is full. A 45th row is refused. */
  function EndOfPass(cfg: Config, s: State): (r: Result<Outcome>)
    requires ValidConfig(cfg) && !s.fault && IsGrid(s.grid) && 0 <= s.row < GridRows
    requires 1 <= s.col && |s.sels| == s.row + 1 && s.col + s.free == cfg.columns
    requires 0 <= s.pos <= |cfg.data|
    ensures r.Err? ==> r.error in {IndexOutOfRange, TooManyRows}
    ensures r == Err(TooManyRows) <==> s.pos < |cfg.data| && s.free <= 0 && s.row == GridRows - 1
    ensures r == Err(IndexOutOfRange) <==> s.pos == |cfg.data| && s.free in {0, 1} && s.row == GridRows - 1
    ensures s.pos == |cfg.data| && r.Ok? ==> r.value == Done(FinishData(cfg, s))
    ensures r.Ok? && r.value.Next? ==> Ready(cfg, r.value.s)
    ensures r.Ok? && r.value.Next? && s.free <= 0 ==> r.value.s == s.(col := 0, row := s.row + 1)
    ensures r.Ok? && r.value.Next? && s.free > 0 ==> r.value.s == s
    ensures r.Ok? && r.value.Done? ==> Finished(cfg, r.value.s)
    ensures r.Ok? && s.pos < |cfg.data| ==> r.value.Next?
    ensures r.Ok? && s.pos == |cfg.data| ==> r.value.Done?
    ensures r.Ok? ==> r.value.s.sels == s.sels || (r.value.Done? && r.value.s.sels == s.sels + [A])
  {
    if s.pos == |cfg.data| then
      var t := FinishData(cfg, s);
      if t.fault then Err(IndexOutOfRange) else Ok(Done(t))
    else if s.free <= 0 then
      if s.row + 1 > GridRows - 1 then Err(TooManyRows) else Ok(Next(s.(col := 0, row := s.row + 1)))
    else Ok(Next(s))
  }

  /** The rules of one pass inside an opened row (source lines 319-687):
      FNC1, then the capacity guard when at most two columns are free, then
      the rule chain unless the guard handled the unit. At least one cell is
      written, and with more than two columns free at least one unit is
      consumed. */
  function Encode1(cfg: Config, s: State): (t: State)
    requires ValidConfig(cfg) && InRow(cfg, s)
    ensures Continues(cfg, s, t)
    ensures !t.fault ==> t.col > s.col
    ensures At(cfg, s.pos) == FNC1 ==>
      !t.fault && t.mode == s.mode && t.pos == s.pos + 1 && Wrote(s, t, [Fnc1Char])
    ensures At(cfg, s.pos) != FNC1 && s.free > 2 ==> RuleEffect(cfg, s, t)
    ensures At(cfg, s.pos) != FNC1 && s.free <= 2 ==>
      var g := Guard(cfg, s);
      if g.done then t == g.s else RuleEffect(cfg, g.s, t)
    ensures !t.fault && (s.free > 2 || At(cfg, s.pos) == FNC1) ==> t.pos > s.pos
    ensures Kept(s, t)
  {
    var p := Fnc1Rule(cfg, s);
    if p.done then p.s else GuardedRules(cfg, s)
  }

  /** A unit other than FNC1: the capacity guard when at most two columns
      are free, then the rule chain unless the guard handled the unit. */
  function GuardedRules(cfg: Config, s: State): (t: State)
    requires ValidConfig(cfg) && InRow(cfg, s) && At(cfg, s.pos) != FNC1
    ensures Continues(cfg, s, t)
    ensures !t.fault ==> t.col > s.col
    ensures s.free > 2 ==> RuleEffect(cfg, s, t) && (!t.fault ==> t.pos > s.pos)
    ensures s.free <= 2 ==>
      var g := Guard(cfg, s);
      if g.done then t == g.s else RuleEffect(cfg, g.s, t)
    ensures Kept(s, t)
  {
    if s.free > 2 then
      var t := Rules(cfg, s);
      EffectKept(cfg, s, t);
      t
    else
      var g := Guard(cfg, s);
      TableKept(cfg, s, g);
      if g.done then g.s
      else
        var t := Rules(cfg, g.s);
        EffectKept(cfg, g.s, t);
        KeptThen(s, g.s, t);
        t
  }

  /** With two columns left in subset A, a digit followed by a lower-case
      character gets the digit and then Code B in one pass, because the
      lower-case test of Table B1 runs after the digit test has handled the
      unit. The row is then full, and the subset is still recorded as A. */
  lemma {:induction false} DigitThenLowerCaseInA(cfg: Config, s: State)
    requires ValidConfig(cfg) && InRow(cfg, s) && s.mode == A && s.free == 2
    requires IsDigit(At(cfg, s.pos)) && FindSubset(At(cfg, s.pos + 1)) == ShiftB
    ensures var t := Encode1(cfg, s);
      && t.mode == A && t.free == 0 && t.pos == s.pos + 1
      && t.grid[s.row][s.col] == A3Convert(At(cfg, s.pos)) && t.grid[s.row][s.col + 1] == CodeB
  {
    var g := Guard(cfg, s);
    assert TableB1(cfg, s, g);
    assert Fnc1Rule(cfg, s) == Progress(s, false);
  }

  /** The subset B mirror: with two columns left, a digit followed by a
      control character gets the digit and then Code A in one pass (line
      379), and the subset is still recorded as B. */
  lemma {:induction false} DigitThenControlInB(cfg: Config, s: State)
    requires ValidConfig(cfg) && InRow(cfg, s) && s.mode == B && s.free == 2
    requires IsDigit(At(cfg, s.pos)) && FindSubset(At(cfg, s.pos + 1)) == ShiftA
    ensures var t := Encode1(cfg, s);
      && t.mode == B && t.free == 0 && t.pos == s.pos + 1
      && t.grid[s.row][s.col] == A3Convert(At(cfg, s.pos)) && t.grid[s.row][s.col + 1] == CodeA
  {
    var g := Guard(cfg, s);
    assert TableB2(cfg, s, g);
    assert Fnc1Rule(cfg, s) == Progress(s, false);
  }

  /** With two columns left in subset C, an extended lower-case byte such as
      233 gets Code A and Code B from Table B3 without being handled, and
      rule 8 then writes Code B, FNC4 and the value: five cells where two
      were free. The row overruns by three columns, which leaves the grid
      when the row is 60 columns wide or more. */
  lemma {:induction false} ExtendedByteInCOverruns(cfg: Config, s: State)
    requires ValidConfig(cfg) && InRow(cfg, s) && s.mode == C && s.free == 2 && At(cfg, s.pos) == 233
    ensures var t := Encode1(cfg, s);
      && t.col == cfg.columns + 3 && t.free == -3 && t.mode == B && t.pos == s.pos + 1
      && (t.fault <==> cfg.columns >= GridColumns - 2)
      && Wrote(s, t, [CodeA, CodeB, CodeB, Fnc4B, 73])
  {
    var g := Guard(cfg, s);
    ExtendedByteGuardC(cfg, s);
    assert Fnc1Rule(cfg, s) == Progress(s, false);
    var t := Rules(cfg, g.s);
    assert Encode1(cfg, s) == t;
    ExtendedByteLeavesC(cfg, g.s);
    WroteThen(s, g.s, t, [CodeA, CodeB], [CodeB, Fnc4B, 73]);
  }

  /** With one column left in subset C, an extended byte gets Code A from the
      last-column test of Table B3 and then a second Code A from the extended
      test, which does not look at whether the unit was handled (lines 410-416
      and 428-431). The second cell lands one column past the row and the
      free count ends at -1 with the byte still unread. The store faults when
      the row is as wide as the grid; otherwise the pass ends the row and the
      byte is met again at the start of the next one. */
  lemma ExtendedByteInCLastColumn(cfg: Config, s: State)
    requires ValidConfig(cfg) && Ready(cfg, s) && s.col > 0
    requires s.mode == C && s.free == 1 && At(cfg, s.pos) >= 128
    ensures var t := Pass(cfg, s);
      && t.col == cfg.columns + 1 && t.free == -1 && t.pos == s.pos && t.mode == C
      && (t.fault <==> cfg.columns == GridColumns)
      && Wrote(s, t, [CodeA, CodeA])
      && Step(cfg, s) ==
           if cfg.columns == GridColumns then Err(IndexOutOfRange)
           else if s.row == GridRows - 1 then Err(TooManyRows)
           else Ok(Next(t.(col := 0, row := s.row + 1)))
  {
  }

  /** Table B3 with two columns left writes Code A and Code B before the
      extended byte 233 and leaves the unit to the rule chain. */
  lemma ExtendedByteGuardC(cfg: Config, s: State)
    requires ValidConfig(cfg) && InRow(cfg, s) && s.mode == C && s.free == 2 && At(cfg, s.pos) == 233
    ensures var g := Guard(cfg, s);
      && !g.done && g.s.mode == C && g.s.pos == s.pos && g.s.free == 0 && !g.s.fault
      && g.s.row == s.row && Wrote(s, g.s, [CodeA, CodeB])
  {
    assert TableB3(cfg, s, Guard(cfg, s));
  }

  /** Rule 8 on the extended lower-case byte 233 writes Code B, FNC4 and 73. */
  lemma ExtendedByteLeavesC(cfg: Config, s: State)
    requires ValidConfig(cfg) && Writable(s) && 0 <= s.pos < |cfg.data| && s.mode == C && At(cfg, s.pos) == 233
    ensures var t := Rules(cfg, s);
      && t.mode == B && t.pos == s.pos + 1 && Wrote(s, t, [CodeB, Fnc4B, 73])
      && (t.fault <==> s.fault || t.col > GridColumns)
  {
    assert FindSubset(233) == ShiftB;
    assert ByteCells(233, Fnc4B) == [Fnc4B, 73];
  }

  /** Rule 6 writes FNC4 in subset B (100) for an extended control
      character, after the Code A that makes the byte's value read in subset
      A, where 100 is Code B. So the byte 0x81 followed by "A", met in subset
      B with room to spare, is written as Code A, Code B and 65: a switch to
      subset B and then "a", not the byte. */
  lemma {:induction false} ExtendedControlInB(cfg: Config, s: State)
    requires ValidConfig(cfg) && InRow(cfg, s) && s.mode == B && s.free > 2
    requires At(cfg, s.pos) == 0x81 && At(cfg, s.pos + 1) == 'A' as int
    ensures var t := Encode1(cfg, s);
      && t.mode == A && t.pos == s.pos + 1 && t.col == s.col + 3
      && t.grid[s.row][s.col] == CodeA && t.grid[s.row][s.col + 1] == CodeB && t.grid[s.row][s.col + 2] == 65
      && CharB(t.grid[s.row][s.col + 2]) == 'a' as int
  {
    assert FindSubset(0x81) == ShiftA;
    var t := Encode1(cfg, s);
    assert RuleEffect(cfg, s, t);
    assert ByteCells(0x81, Fnc4B) == [CodeB, 65];
  }

  /** Rule 5 counts an FNC1 in a run of digits with weight two and then
      packs the digit with the unit after it, even when that unit is the
      FNC1. In "A1", FNC1, "234" the run from "1" has weight 6, so rule 5
      switches to subset C and writes the pair value -39, which is no symbol
      character at all. */
  lemma {:induction false} DigitThenFnc1PacksNegative(s: State)
    requires Writable(s) && s.mode == B && s.pos == 1
    ensures var cfg := Config(['A' as int, '1' as int, FNC1, '2' as int, '3' as int, '4' as int], 6, false);
      var t := DigitRule(cfg, s);
      t.mode == C && t.pos == 3 && Wrote(s, t, [CodeC, -39])
  {
    var cfg := Config(['A' as int, '1' as int, FNC1, '2' as int, '3' as int, '4' as int], 6, false);
    assert RunWeight(cfg, 6) == 0;
    assert RunWeight(cfg, 5) == 1;
    assert RunWeight(cfg, 4) == 2;
    assert RunWeight(cfg, 3) == 3;
    assert RunWeight(cfg, 2) == 5;
    assert RunWeight(cfg, 1) == 6;
    assert PackPair('1' as int, FNC1) == -39;
  }

  /** The writing part of one pass: open a row at column 0, then the rules.
      Between them the pass stays in one row, adds that row's selector when
      it opens one, and leaves the cursor inside the row unless it faults. */
  function Pass(cfg: Config, s: State): (t: State)
    requires ValidConfig(cfg) && Ready(cfg, s)
    ensures IsGrid(t.grid) && t.row == s.row && s.pos <= t.pos <= |cfg.data|
    ensures t.sels == s.sels + (if s.col == 0 then [RowStartSubset(At(cfg, s.pos))] else [])
    ensures !t.fault ==> 1 <= t.col <= GridColumns && t.col + t.free == cfg.columns
    ensures !t.fault ==> t.col > s.col
    ensures !t.fault && s.col == 0 ==> t.pos > s.pos
    ensures Kept(s, t)
  {
    var o := if s.col == 0 then OpenRow(cfg, s) else s;
    var t := Encode1(cfg, o);
    KeptThen(s, o, t);
    t
  }

  /** One pass of the source's main loop (lines 302-742). Each pass that does
      not fail either opens the next row or moves the cursor right, which
      bounds the number of passes. */
  function Step(cfg: Config, s: State): (r: Result<Outcome>)
    requires ValidConfig(cfg) && Ready(cfg, s)
    ensures r.Err? ==> r.error in {IndexOutOfRange, TooManyRows}
    ensures r.Ok? && r.value.Next? ==>
      Ready(cfg, r.value.s) && (r.value.s.row > s.row || (r.value.s.row == s.row && r.value.s.col > s.col))
    ensures r.Ok? && r.value.Done? ==> Finished(cfg, r.value.s)
    ensures r.Ok? ==>
      var newRow := if s.col == 0 then [RowStartSubset(At(cfg, s.pos))] else [];
      r.value.s.sels == s.sels + newRow || (r.value.Done? && r.value.s.sels == s.sels + newRow + [A])
    ensures r.Ok? ==> s.pos <= r.value.s.pos && (s.col == 0 ==> s.pos < r.value.s.pos)
  {
    var t := Pass(cfg, s);
    if t.fault then Err(IndexOutOfRange) else EndOfPass(cfg, t)
  }

  /** How a pass ends, given what its rules wrote: it fails with
      `TooManyRows` when a full last row leaves data over, and with
      `IndexOutOfRange` when the rules fault or the data ends in the last
      row with at most one column free; otherwise it moves to the next row
      when the row is full, or handles the end of the data. */
  lemma StepOutcome(cfg: Config, s: State)
    requires ValidConfig(cfg) && Ready(cfg, s)
    ensures var r := Step(cfg, s);
      var t := Pass(cfg, s);
      && (r == Err(TooManyRows) <==> !t.fault && t.pos < |cfg.data| && t.free <= 0 && s.row == GridRows - 1)
      && (r == Err(IndexOutOfRange) <==>
            t.fault || (t.pos == |cfg.data| && t.free in {0, 1} && s.row == GridRows - 1))
      && (r.Ok? && r.value.Next? ==> r.value.s == if t.free <= 0 then t.(col := 0, row := t.row + 1) else t)
      && (r.Ok? && t.pos == |cfg.data| ==> r.value == Done(FinishData(cfg, t)))
  {
  }
}
