/** The whole row-encoding pass (the source's `data_encode_blockf`): the
    main loop over `RowEncoder.Step`, and the second row added to a symbol
    whose data fit in one row. */
module DataEncoding {
  import opened Results
  import opened Subsets
  import opened Code128
  import opened RowEncoder

  /** The encoded grid, one subset selector per row, the row count, and the
      subset in effect when the data ran out (the source's `final_mode`). */
  datatype Encoded = Encoded(grid: Grid, sels: seq<Subset>, rows: int, finalMode: Subset)

  /** Writes alternating fillers into columns `from` to `last` (both
      included) of row `row`; the filler sequence started from subset `m` at
      column `first`. */
  function AlternateFill(g: Grid, row: int, first: int, from: int, last: int, m: Subset): (g': Grid)
    requires IsGrid(g) && 0 <= row < GridRows && 0 <= first <= from
    requires from > last || last < GridColumns
    ensures IsGrid(g')
    ensures forall j :: from <= j <= last ==> g'[row][j] == FillerValue(m, j - first)
    ensures forall i, j :: 0 <= i < GridRows && 0 <= j < GridColumns && (i != row || j < from || j > last) ==>
              g'[i][j] == g[i][j]
    decreases last - from + 1
  {
    if from > last then g
    else AlternateFill(g[row := g[row][from := FillerValue(m, from - first)]], row, first, from + 1, last, m)
  }

  /** A symbol whose data ended in the first row gets a second row (source
      lines 744-768): the rest of row 0 and then row 1, up to its last two
      columns, are filled with alternating fillers, and row 1 is in subset A.
      The fill of row 0 runs up to column `columns` included, one past the
      row, and so stores outside the grid when the row is 62 columns wide. */
  function ExtendToTwoRows(cfg: Config, s: State): (r: Result<Encoded>)
    requires ValidConfig(cfg) && Finished(cfg, s)
    ensures r.Err? <==> s.row == 0 && s.col <= cfg.columns == GridColumns
    ensures r.Err? ==> r.error == IndexOutOfRange
    ensures r.Ok? ==> IsGrid(r.value.grid) && r.value.finalMode == s.mode
    ensures r.Ok? ==> 2 <= r.value.rows <= GridRows && |r.value.sels| == r.value.rows
    ensures r.Ok? && s.row > 0 ==> r.value == Encoded(s.grid, s.sels, s.row + 1, s.mode)
    ensures r.Ok? && s.row == 0 ==> r.value.rows == 2 && r.value.sels == s.sels + [A]
    ensures r.Ok? && s.row == 0 ==>
      && (forall j :: s.col <= j < cfg.columns ==> r.value.grid[0][j] == FillerValue(s.mode, j - s.col))
      && (forall j :: 0 <= j <= cfg.columns - 2 ==> r.value.grid[1][j] == FillerValue(A, j))
    ensures r.Ok? && s.row == 0 ==>
      forall i, j ::
        0 <= i < GridRows && 0 <= j < GridColumns && !(i == 0 && s.col <= j <= cfg.columns) && !(i == 1 && j <= cfg.columns - 2)
        ==> r.value.grid[i][j] == s.grid[i][j]
  {
    if s.row == 0 then
      if s.col <= cfg.columns && cfg.columns >= GridColumns then Err(IndexOutOfRange)
      else
        var g := AlternateFill(s.grid, 0, s.col, s.col, cfg.columns, s.mode);
        var g2 := AlternateFill(g, 1, 0, 0, cfg.columns - 2, A);
        Ok(Encoded(g2, s.sels + [A], 2, s.mode))
    else
      Ok(Encoded(s.grid, s.sels, s.row + 1, s.mode))
  }

  /** Every row's selector is the row-start subset of the unit at which the
      row was opened, recorded in `starts`; the first row opens at the first
      unit, and each row opens further on in the data than the one before. */
  ghost predicate OpenedAt(cfg: Config, sels: seq<Subset>, starts: seq<int>) {
    && |starts| == |sels|
    && (|starts| > 0 ==> starts[0] == 0)
    && (forall k :: 0 <= k < |starts| ==>
          0 <= starts[k] <= |cfg.data| && sels[k] == RowStartSubset(At(cfg, starts[k])))
    && (forall i, j :: 0 <= i < j < |starts| ==> starts[i] < starts[j])
  }

  lemma OpenedAtExtend(cfg: Config, sels: seq<Subset>, starts: seq<int>, p: int)
    requires OpenedAt(cfg, sels, starts) && 0 <= p <= |cfg.data| && (|starts| == 0 ==> p == 0)
    requires |starts| > 0 ==> starts[|starts| - 1] < p
    ensures OpenedAt(cfg, sels + [RowStartSubset(At(cfg, p))], starts + [p])
  {
    var starts' := starts + [p];
    forall i, j | 0 <= i < j < |starts'| ensures starts'[i] < starts'[j] {
      if j == |starts| && i < |starts| - 1 {
        assert starts[i] < starts[|starts| - 1];
      }
    }
  }

  /** A row opened after the data ran out starts at the sentinel, and so is
      in subset A. */
  lemma OpenedAtEnd(cfg: Config, sels: seq<Subset>, starts: seq<int>)
    requires OpenedAt(cfg, sels, starts) && |starts| > 0 && starts[|starts| - 1] < |cfg.data|
    ensures OpenedAt(cfg, sels + [A], starts + [|cfg.data|])
  {
    assert RowStartSubset(At(cfg, |cfg.data|)) == A;
    OpenedAtExtend(cfg, sels, starts, |cfg.data|);
  }

  /** The state before the first pass: an empty grid, no rows, subset A, the
      cursor on the first unit. */
  function Start(): (s: State)
    ensures IsGrid(s.grid) && s.row == 0 && s.col == 0 && s.pos == 0 && s.sels == [] && !s.fault
  {
    State(EmptyGrid(), [], 0, 0, 0, A, 0, false)
  }

  /** The main loop as a function: passes from `s` on until one fails or the
      data is done, then the second row when there is only one. The symbol
      has more rows than the current row number. */
  function Run(cfg: Config, s: State): (r: Result<Encoded>)
    requires ValidConfig(cfg) && Ready(cfg, s)
    ensures r.Err? ==> r.error in {IndexOutOfRange, TooManyRows}
    ensures r.Ok? ==> IsGrid(r.value.grid) && 2 <= r.value.rows <= GridRows && |r.value.sels| == r.value.rows
    ensures r.Ok? ==> s.row < r.value.rows
    decreases GridRows - s.row, GridColumns - s.col
  {
    match Step(cfg, s)
    case Err(e) => Err(e)
    case Ok(Next(t)) => Run(cfg, t)
    case Ok(Done(t)) => ExtendToTwoRows(cfg, t)
  }

  /** The main loop. It computes `Run` from the start state. On success the
      selector of every row is the row-start subset of the unit at which that
      row was opened, and the rows open at increasing positions; rows opened
      after the data ran out start at the sentinel and so are in subset A.
      The first row starts at the first unit. */
  method EncodeData(cfg: Config) returns (r: Result<Encoded>, ghost starts: seq<int>)
    requires ValidConfig(cfg)
    ensures r == Run(cfg, Start())
    ensures r.Err? ==> r.error in {IndexOutOfRange, TooManyRows}
    ensures r.Ok? ==> IsGrid(r.value.grid) && 2 <= r.value.rows <= GridRows && |r.value.sels| == r.value.rows
    ensures r.Ok? ==> OpenedAt(cfg, r.value.sels, starts)
    ensures r.Ok? ==> r.value.sels[0] == RowStartSubset(cfg.data[0])
  {
    r, starts := EncodeFrom(cfg, Start(), []);
  }

  /** The passes of the main loop from `s` on. `starts` records where each
      row of `s` was opened. */
  method EncodeFrom(cfg: Config, s: State, ghost starts: seq<int>) returns (r: Result<Encoded>, ghost starts': seq<int>)
    requires ValidConfig(cfg) && Ready(cfg, s)
    requires OpenedAt(cfg, s.sels, starts)
    requires s.row == 0 && s.col == 0 ==> s.pos == 0
    requires |starts| > 0 ==> starts[|starts| - 1] < s.pos
    ensures r == Run(cfg, s)
    ensures r.Ok? ==> OpenedAt(cfg, r.value.sels, starts')
    decreases GridRows - s.row, GridColumns - s.col
  {
    var o := Step(cfg, s);
    if o.Err? {
      return Err(o.error), starts;
    }
    ghost var sels, starts1 := StartsAfterStep(cfg, s, starts);
    if o.value.Next? {
      r, starts' := EncodeFrom(cfg, o.value.s, starts1);
    } else {
      r, starts' := Conclude(cfg, o.value.s, sels, starts1);
    }
  }

  /** After a pass, the rows opened so far, the row the pass opened
      included, are recorded in `starts'`; a pass that ends the data may
      also have opened a row in subset A. */
  lemma StartsAfterStep(cfg: Config, s: State, starts: seq<int>) returns (sels: seq<Subset>, starts': seq<int>)
    requires ValidConfig(cfg) && Ready(cfg, s) && Step(cfg, s).Ok?
    requires OpenedAt(cfg, s.sels, starts)
    requires s.row == 0 && s.col == 0 ==> s.pos == 0
    requires |starts| > 0 ==> starts[|starts| - 1] < s.pos
    ensures var o := Step(cfg, s).value;
      && OpenedAt(cfg, sels, starts') && |starts'| > 0 && starts'[|starts'| - 1] < |cfg.data|
      && (o.s.sels == sels || (o.Done? && o.s.sels == sels + [A]))
      && (o.Next? ==> starts'[|starts'| - 1] < o.s.pos)
  {
    sels, starts' := s.sels, starts;
    if s.col == 0 {
      OpenedAtExtend(cfg, s.sels, starts, s.pos);
      sels, starts' := s.sels + [RowStartSubset(At(cfg, s.pos))], starts + [s.pos];
    }
  }

  /** The end of the main loop once the data is done: the second row for a
      one-row symbol. A row opened after the data ran out starts at the
      sentinel, in subset A. */
  method Conclude(cfg: Config, t: State, ghost sels: seq<Subset>, ghost starts: seq<int>)
    returns (r: Result<Encoded>, ghost starts': seq<int>)
    requires ValidConfig(cfg) && Finished(cfg, t)
    requires t.sels == sels || t.sels == sels + [A]
    requires OpenedAt(cfg, sels, starts)
    requires |starts| > 0 && starts[|starts| - 1] < |cfg.data|
    ensures r == ExtendToTwoRows(cfg, t)
    ensures r.Ok? ==> OpenedAt(cfg, r.value.sels, starts')
  {
    starts' := starts;
    if t.sels != sels {
      OpenedAtEnd(cfg, sels, starts);
      starts' := starts + [|cfg.data|];
    }
    r := ExtendToTwoRows(cfg, t);
    if r.Ok? && t.row == 0 {
      OpenedAtEnd(cfg, t.sels, starts');
      starts' := starts' + [|cfg.data|];
    }
  }

  /** The configuration for "AIM" in 4 columns, the size the estimate gives it. */
  function AimConfig(): (cfg: Config)
    ensures ValidConfig(cfg)
  {
    Config(['A' as int, 'I' as int, 'M' as int], 4, false)
  }

  /** `g` with `v` stored at row `r`, column `c`. */
  function Put(g: Grid, r: int, c: int, v: int): (g': Grid)
    requires IsGrid(g) && 0 <= r < GridRows && 0 <= c < GridColumns && v < Stop
    ensures IsGrid(g')
  {
    g[r := g[r][c := v]]
  }

  /** The grid after each pass of "AIM". */
  function AimGrid(n: nat): (g: Grid)
    ensures IsGrid(g)
  {
    var g0 := EmptyGrid();
    var g1 := Put(g0, 0, 0, 33);
    var g2 := Put(g1, 0, 1, 41);
    var g3 := Put(g2, 0, 2, 45);
    if n == 1 then g1 else if n == 2 then g2 else if n == 3 then g3
    else Put(Put(Put(g3, 0, 3, CodeA), 1, 0, CodeB), 1, 1, CodeA)
  }

  /** The first pass of "AIM" opens row 0 in subset B and writes "A" as 33. */
  lemma AimPass1()
    ensures Step(AimConfig(), Start()) == Ok(Next(State(AimGrid(1), [B], 0, 1, 3, B, 1, false)))
  {
    var cfg := AimConfig();
    assert RowStartSubset('A' as int) == B && FindSubset('A' as int) == AorB;
    var o := State(EmptyGrid(), [B], 0, 0, 4, B, 0, false);
    assert OpenRow(cfg, Start()) == o;
    var t := State(AimGrid(1), [B], 0, 1, 3, B, 1, false);
    assert Rules(cfg, o) == t;
    assert GuardedRules(cfg, o) == t;
    assert Encode1(cfg, o) == t;
    assert Pass(cfg, Start()) == t;
    assert EndOfPass(cfg, t) == Ok(Next(t));
  }

  /** The second pass writes "I" as 41. */
  lemma AimPass2()
    ensures Step(AimConfig(), State(AimGrid(1), [B], 0, 1, 3, B, 1, false))
         == Ok(Next(State(AimGrid(2), [B], 0, 2, 2, B, 2, false)))
  {
    assert FindSubset('I' as int) == AorB;
  }

  /** The third pass meets "M" with two columns free; Table B2 leaves it to
      rule 3, which writes 45. */
  lemma AimWriteM()
    ensures Pass(AimConfig(), State(AimGrid(2), [B], 0, 2, 2, B, 2, false))
         == State(AimGrid(3), [B], 0, 3, 1, B, 3, false)
  {
    var cfg := AimConfig();
    var s := State(AimGrid(2), [B], 0, 2, 2, B, 2, false);
    assert FindSubset('M' as int) == AorB;
    assert Guard(cfg, s) == Progress(s, false);
  }

  /** Row 1 of "AIM", opened in subset A after the filler, is filled with
      Code B and Code A up to its check columns, which leaves the subset at A. */
  lemma AimFill()
    ensures FillRow(State(Put(AimGrid(3), 0, 3, CodeA), [B, A], 1, 0, 4, A, 3, false))
         == State(AimGrid(4), [B, A], 1, 2, 2, A, 3, false)
  {
    var u := State(Put(AimGrid(3), 0, 3, CodeA), [B, A], 1, 0, 4, A, 3, false);
    var v := State(Put(Put(AimGrid(3), 0, 3, CodeA), 1, 0, CodeB), [B, A], 1, 1, 3, B, 3, false);
    assert Filler(u) == v;
    assert FillRow(u) == FillRow(v);
    assert Filler(v) == State(AimGrid(4), [B, A], 1, 2, 2, A, 3, false);
  }

  /** The data is then done with one column free: it takes a filler, Code A,
      and row 1 opens in subset A. */
  lemma AimFinish()
    ensures EndOfPass(AimConfig(), State(AimGrid(3), [B], 0, 3, 1, B, 3, false))
         == Ok(Done(State(AimGrid(4), [B, A], 1, 2, 2, A, 3, false)))
  {
    var cfg := AimConfig();
    var t := State(AimGrid(3), [B], 0, 3, 1, B, 3, false);
    var u := State(Put(AimGrid(3), 0, 3, CodeA), [B, A], 1, 0, 4, A, 3, false);
    var t1 := Filler(t);
    assert t1 == State(Put(AimGrid(3), 0, 3, CodeA), [B], 0, 4, 0, A, 3, false);
    assert [B] + [A] == [B, A];
    assert t1.(col := 0, free := cfg.columns, row := t1.row + 1, sels := t1.sels + [A], mode := A) == u;
    assert CloseRow(cfg, t) == u;
    assert FinishData(cfg, t) == FillRow(u);
    AimFill();
  }

  /** The third pass writes "M" and ends the data. */
  lemma AimPass3()
    ensures Step(AimConfig(), State(AimGrid(2), [B], 0, 2, 2, B, 2, false))
         == Ok(Done(State(AimGrid(4), [B, A], 1, 2, 2, A, 3, false)))
  {
    AimWriteM();
    AimFinish();
  }

  /** "AIM" in 4 columns encodes as two rows, the first in subset B holding
      33, 41, 45 and the filler Code A, the second in subset A holding Code B
      and Code A before its check columns; the data ends in subset A. */
  lemma {:induction false} AimRun()
    ensures Run(AimConfig(), Start()) == Ok(Encoded(AimGrid(4), [B, A], 2, A))
  {
    var cfg := AimConfig();
    var s1 := State(AimGrid(1), [B], 0, 1, 3, B, 1, false);
    var s2 := State(AimGrid(2), [B], 0, 2, 2, B, 2, false);
    var s3 := State(AimGrid(4), [B, A], 1, 2, 2, A, 3, false);
    AimPass3();
    assert Run(cfg, s2) == ExtendToTwoRows(cfg, s3);
    AimPass2();
    assert Run(cfg, s1) == Run(cfg, s2);
    AimPass1();
    assert Run(cfg, Start()) == Run(cfg, s1);
  }

  /** The cells of the two "AIM" rows before their check columns. */
  lemma AimCells()
    ensures AimGrid(4)[0][..4] == [33, 41, 45, CodeA] && AimGrid(4)[1][..2] == [CodeB, CodeA]
  {
  }
}
