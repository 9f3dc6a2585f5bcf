/** The Codablock-F encoder as a whole (the source's `encode`): input
    checks, sizing, the row encoding, the symbol and row check characters,
    and the rows rendered as Code 128 bar/space patterns. */
module CodablockF {
  import opened Results
  import opened Subsets
  import opened Code128
  import opened Sizing
  import opened RowEncoder
  import opened DataEncoding
  import opened Checks

  /** A finished symbol: its size, each row's selector, indicator, check
      character and pattern, the grid of data characters, the subset in
      effect at the end of the data, and the symbol check characters. */
  datatype Symbol = Symbol(
    rows: int,
    columns: int,
    selectors: seq<Subset>,
    indicators: seq<int>,
    grid: Grid,
    finalMode: Subset,
    k1: int,
    k2: int,
    rowChecks: seq<int>,
    patterns: seq<string>)

  /** The symbol characters of one row: Start A, selector, indicator, the
      row's data characters, the row check and Stop. */
  function RowWords(sel: Subset, ind: int, cells: seq<int>, check: int): seq<int> {
    RowHead(sel, ind) + cells + [check, Stop]
  }

  /** The patterns of a sequence of symbol characters, one after another
      (source lines 220-257). A value outside the table is the source's
      out-of-bounds table lookup. */
  function Render(words: seq<int>): (r: Result<string>)
    ensures r.Ok? <==> forall k :: 0 <= k < |words| ==> IsSymbolValue(words[k])
  {
    if |words| == 0 then Ok("")
    else
      var n := |words| - 1;
      var front := Render(words[..n]);
      assert forall k :: 0 <= k < n ==> words[..n][k] == words[k];
      if front.Err? || !IsSymbolValue(words[n]) then Err(IndexOutOfRange)
      else Ok(front.value + Pattern(words[n]))
  }

  /** Characters other than Stop take six elements and 11 modules each. */
  lemma {:induction false} RenderShape(words: seq<int>)
    requires forall k :: 0 <= k < |words| ==> 0 <= words[k] < Stop
    ensures Render(words).Ok?
    ensures |Render(words).value| == 6 * |words|
    ensures Modules(Render(words).value) == 11 * |words|
  {
    if |words| > 0 {
      var n := |words| - 1;
      RenderShape(words[..n]);
      PatternModules(words[n]);
      ModulesConcat(Render(words[..n]).value, Pattern(words[n]));
    }
  }

  /** A row renders only when each of its characters is a symbol value. */
  lemma RowValuesInTable(sel: Subset, ind: int, cells: seq<int>, check: int)
    requires Render(RowWords(sel, ind, cells, check)).Ok?
    ensures 0 <= ind && 0 <= check < Stop + 1
    ensures forall j :: 0 <= j < |cells| ==> 0 <= cells[j]
  {
    var w := RowWords(sel, ind, cells, check);
    assert w[2] == ind;
    assert w[3 + |cells|] == check;
    assert forall j :: 0 <= j < |cells| ==> w[3 + j] == cells[j];
  }

  /** A rendered row has 6 elements per character plus the 7 of Stop,
      covering 11 modules per character plus the 13 of Stop. */
  lemma RowShape(sel: Subset, ind: int, cells: seq<int>, check: int)
    requires Render(RowWords(sel, ind, cells, check)).Ok?
    requires ind < Stop && check < Stop && forall j :: 0 <= j < |cells| ==> cells[j] < Stop
    ensures var p := Render(RowWords(sel, ind, cells, check)).value;
      |p| == 6 * |cells| + 31 && Modules(p) == 11 * |cells| + 57
  {
    var w := RowWords(sel, ind, cells, check);
    var front := RowHead(sel, ind) + cells + [check];
    RowValuesInTable(sel, ind, cells, check);
    assert w == front + [Stop];
    assert w[..|front|] == front;
    assert forall k :: 0 <= k < |front| ==> front[k] == w[k];
    RenderShape(front);
    PatternModules(Stop);
    ModulesConcat(Render(front).value, Pattern(Stop));
  }

  /** The row check of a rendered row is its Code 128 check character. */
  lemma RenderedRowCheck(sel: Subset, ind: int, cells: seq<int>, check: int)
    requires Render(RowWords(sel, ind, cells, check)).Ok?
    requires check == JavaRem(WeightedSum(RowHead(sel, ind) + cells), 103)
    ensures check == WeightedSum(RowHead(sel, ind) + cells) % 103 && 0 <= check < 103
  {
    RowValuesInTable(sel, ind, cells, check);
    RowCheckIsCode128Check(sel, ind, cells);
  }

  /** A row whose check was taken with Java's remainder renders exactly when
      none of its data characters is negative: Start A, the selector, an
      indicator, the check of a non-negative row and Stop are all symbol
      values, and a negative data character is not. */
  lemma RowRendersIff(sel: Subset, ind: int, cells: seq<int>, check: int)
    requires 0 <= ind <= 95 && forall j :: 0 <= j < |cells| ==> cells[j] < Stop
    requires check == JavaRem(WeightedSum(RowHead(sel, ind) + cells), 103)
    ensures Render(RowWords(sel, ind, cells, check)).Ok? <==> forall j :: 0 <= j < |cells| ==> 0 <= cells[j]
  {
    if forall j :: 0 <= j < |cells| ==> 0 <= cells[j] {
      RowCheckIsCode128Check(sel, ind, cells);
      RowOfSymbolValues(sel, ind, cells, check);
    } else {
      var j :| 0 <= j < |cells| && cells[j] < 0;
      NegativeCellFails(sel, ind, cells, check, j);
    }
  }

  /** A row with a negative data character does not render. */
  lemma NegativeCellFails(sel: Subset, ind: int, cells: seq<int>, check: int, j: int)
    requires 0 <= j < |cells| && cells[j] < 0
    ensures Render(RowWords(sel, ind, cells, check)).Err?
  {
    assert RowWords(sel, ind, cells, check)[3 + j] == cells[j];
  }

  /** A row of symbol values renders. */
  lemma RowOfSymbolValues(sel: Subset, ind: int, cells: seq<int>, check: int)
    requires 0 <= ind <= 95 && 0 <= check < 103
    requires forall j :: 0 <= j < |cells| ==> 0 <= cells[j] < Stop
    ensures Render(RowWords(sel, ind, cells, check)).Ok?
  {
    var w := RowWords(sel, ind, cells, check);
    var n := |cells|;
    forall k | 0 <= k < |w| ensures IsSymbolValue(w[k]) {
      if k < 3 {
        assert IsSymbolValue(SelectorValue(sel));
      } else if k < 3 + n {
        assert w[k] == cells[k - 3];
      } else if k == n + 3 {
        assert w[k] == check;
      } else {
        assert w[k] == Stop;
      }
    }
  }

  /** The row check of every row (source lines 191-207). */
  method RowChecks(sels: seq<Subset>, inds: seq<int>, grid: Grid, columns: int) returns (checks: seq<int>)
    requires |sels| == |inds| <= GridRows && IsGrid(grid) && 0 <= columns <= GridColumns
    ensures |checks| == |sels|
    ensures forall k :: 0 <= k < |sels| ==>
      checks[k] == JavaRem(WeightedSum(RowHead(sels[k], inds[k]) + grid[k][..columns]), 103)
  {
    checks := [];
    var i := 0;
    while i < |sels|
      invariant 0 <= i <= |sels| && |checks| == i
      invariant forall k :: 0 <= k < i ==>
        checks[k] == JavaRem(WeightedSum(RowHead(sels[k], inds[k]) + grid[k][..columns]), 103)
    {
      var c := RowCheck(sels[i], inds[i], grid[i][..columns]);
      checks := checks + [c];
      i := i + 1;
    }
  }

  /** The pattern of every row (source lines 220-257), given each row's
      symbol characters; the first row that does not render stops the
      encoding. */
  method RowPatterns(words: seq<seq<int>>) returns (r: Result<seq<string>>)
    ensures r.Err? <==> exists k :: 0 <= k < |words| && Render(words[k]).Err?
    ensures r.Err? ==> r.error == IndexOutOfRange
    ensures r.Ok? ==> |r.value| == |words| && forall k :: 0 <= k < |words| ==> Render(words[k]) == Ok(r.value[k])
  {
    var patterns: seq<string> := [];
    var i := 0;
    while i < |words|
      invariant 0 <= i <= |words| && |patterns| == i
      invariant forall k :: 0 <= k < i ==> Render(words[k]) == Ok(patterns[k])
    {
      var p := Render(words[i]);
      if p.Err? {
        return Err(p.error);
      }
      patterns := patterns + [p.value];
      i := i + 1;
    }
    return Ok(patterns);
  }

  /** Sets the two symbol check characters into the last two columns of
      the last row (source lines 137-157). */
  method SymbolChecks(data: seq<int>, enc: Encoded, columns: int) returns (k1: int, k2: int, grid: Grid)
    requires ValidContent(data)
    requires Columns(HalfUnits(data), Rows(HalfUnits(data))) <= MaxColumns
    requires IsGrid(enc.grid) && 1 <= enc.rows <= GridRows && 2 <= columns <= GridColumns
    ensures IsGrid(grid)
    ensures grid[enc.rows - 1][columns - 2] == k1 && grid[enc.rows - 1][columns - 1] == k2
    ensures forall i, j :: 0 <= i < GridRows && 0 <= j < GridColumns && (i != enc.rows - 1 || j < columns - 2) ==>
      grid[i][j] == enc.grid[i][j]
    ensures 0 <= k1 <= 95 && 0 <= k2 <= 95
    ensures enc.finalMode == C ==> k1 == K1Sum(data) % 86 && k2 == K2Sum(data) % 86
    ensures enc.finalMode != C ==> CharA(k1) == K1Sum(data) % 86 && CharA(k2) == K2Sum(data) % 86
  {
    var k1Sum, k2Sum := CheckSums(data);
    CheckSumsFitInInt(data);
    k1 := SymbolCheck(k1Sum, enc.finalMode);
    k2 := SymbolCheck(k2Sum, enc.finalMode);
    var last := enc.rows - 1;
    grid := enc.grid[last := enc.grid[last][columns - 2 := k1][columns - 1 := k2]];
  }

  /** K1 and K2 sit in the last two columns of the last row and check the
      data: in subset C as the sums modulo 86, in subsets A and B as the
      subset A values of the characters with those codes. */
  predicate SymbolChecksHold(data: seq<int>, y: Symbol)
    requires IsGrid(y.grid) && 1 <= y.rows <= GridRows && 2 <= y.columns <= GridColumns
  {
    && y.grid[y.rows - 1][y.columns - 2] == y.k1
    && y.grid[y.rows - 1][y.columns - 1] == y.k2
    && 0 <= y.k1 <= 95 && 0 <= y.k2 <= 95
    && (y.finalMode == C ==> y.k1 == K1Sum(data) % 86 && y.k2 == K2Sum(data) % 86)
    && (y.finalMode != C ==> CharA(y.k1) == K1Sum(data) % 86 && CharA(y.k2) == K2Sum(data) % 86)
  }

  /** The first row's indicator announces the row count, the others their
      row number. */
  predicate IndicatorsHold(y: Symbol)
    requires 1 <= y.rows == |y.indicators| == |y.selectors|
  {
    && RowsOfIndicator(y.indicators[0], y.selectors[0]) == y.rows
    && forall i :: 1 <= i < y.rows ==> RowOfIndicator(y.indicators[i], y.selectors[i]) == i
  }

  /** Every row is the Code 128 rendering of its characters, its check is
      the Code 128 check character of the row, and all rows have the same
      number of elements and modules. */
  predicate RowsHold(y: Symbol)
    requires IsGrid(y.grid) && 0 <= y.rows <= GridRows && 0 <= y.columns <= GridColumns
    requires y.rows == |y.indicators| == |y.selectors| == |y.rowChecks| == |y.patterns|
  {
    forall i :: 0 <= i < y.rows ==>
      && y.rowChecks[i] == WeightedSum(RowHead(y.selectors[i], y.indicators[i]) + y.grid[i][..y.columns]) % 103
      && Render(RowWords(y.selectors[i], y.indicators[i], y.grid[i][..y.columns], y.rowChecks[i])) == Ok(y.patterns[i])
      && |y.patterns[i]| == 6 * y.columns + 31
      && Modules(y.patterns[i]) == 11 * y.columns + 57
  }

  /** Every data character of the encoded rows, apart from the two columns
      the symbol checks take in the last row, is a symbol value. */
  predicate Renderable(enc: Encoded, columns: int)
    requires IsGrid(enc.grid) && 1 <= enc.rows <= GridRows && 2 <= columns <= GridColumns
  {
    forall i, j :: 0 <= i < enc.rows && 0 <= j < columns && (i != enc.rows - 1 || j < columns - 2) ==>
      0 <= enc.grid[i][j]
  }

  /** With the symbol checks set, some row fails to render exactly when the
      encoded rows are not `Renderable`. */
  lemma RowsRenderIff(enc: Encoded, columns: int, grid: Grid, inds: seq<int>, checks: seq<int>, words: seq<seq<int>>)
    requires IsGrid(enc.grid) && 2 <= enc.rows <= GridRows && |enc.sels| == enc.rows
    requires 2 <= columns <= GridColumns && IsGrid(grid)
    requires 0 <= grid[enc.rows - 1][columns - 2] && 0 <= grid[enc.rows - 1][columns - 1]
    requires forall i, j :: 0 <= i < GridRows && 0 <= j < GridColumns && (i != enc.rows - 1 || j < columns - 2) ==>
      grid[i][j] == enc.grid[i][j]
    requires |inds| == |checks| == |words| == enc.rows
    requires forall k :: 0 <= k < enc.rows ==> 0 <= inds[k] <= 95
    requires forall k :: 0 <= k < enc.rows ==>
      checks[k] == JavaRem(WeightedSum(RowHead(enc.sels[k], inds[k]) + grid[k][..columns]), 103)
    requires forall k :: 0 <= k < enc.rows ==> words[k] == RowWords(enc.sels[k], inds[k], grid[k][..columns], checks[k])
    ensures (exists k :: 0 <= k < |words| && Render(words[k]).Err?) <==> !Renderable(enc, columns)
  {
    if !Renderable(enc, columns) {
      var i, j :| 0 <= i < enc.rows && 0 <= j < columns && (i != enc.rows - 1 || j < columns - 2) && enc.grid[i][j] < 0;
      GridRowRendersIff(enc.sels[i], inds[i], grid, columns, checks[i], i);
      assert Render(words[i]).Err?;
    } else {
      forall k | 0 <= k < |words| ensures Render(words[k]).Ok? {
        forall j | 0 <= j < columns ensures 0 <= grid[k][j] {
          if k != enc.rows - 1 || j < columns - 2 {
            assert grid[k][j] == enc.grid[k][j];
          }
        }
        GridRowRendersIff(enc.sels[k], inds[k], grid, columns, checks[k], k);
      }
    }
  }

  /** Row `k` of the grid renders exactly when its first `columns` data
      characters are non-negative. */
  lemma GridRowRendersIff(sel: Subset, ind: int, grid: Grid, columns: int, check: int, k: int)
    requires IsGrid(grid) && 0 <= k < GridRows && 0 <= columns <= GridColumns && 0 <= ind <= 95
    requires check == JavaRem(WeightedSum(RowHead(sel, ind) + grid[k][..columns]), 103)
    ensures Render(RowWords(sel, ind, grid[k][..columns], check)).Ok?
            <==> forall j :: 0 <= j < columns ==> 0 <= grid[k][j]
  {
    var cells := grid[k][..columns];
    assert forall j :: 0 <= j < columns ==> cells[j] == grid[k][j];
    RowRendersIff(sel, ind, cells, check);
  }

  /** A well-formed symbol for `data`: 2 to 44 rows of 4 to 62 columns, one
      selector, indicator, row check and pattern per row, and the symbol
      checks, indicators and rows as the standard has them. */
  predicate SymbolHolds(data: seq<int>, y: Symbol) {
    && 2 <= y.rows <= GridRows && MinColumns <= y.columns <= MaxColumns && IsGrid(y.grid)
    && |y.selectors| == |y.indicators| == |y.rowChecks| == |y.patterns| == y.rows
    && SymbolChecksHold(data, y) && IndicatorsHold(y) && RowsHold(y)
  }

  /** The characters of a symbol of known size (source lines 137-257):
      symbol checks, indicators, row checks and patterns. It fails exactly
      when a data character is not a symbol value, at the pattern lookup. */
  method Assemble(data: seq<int>, columns: int, enc: Encoded) returns (r: Result<Symbol>)
    requires ValidContent(data)
    requires Columns(HalfUnits(data), Rows(HalfUnits(data))) <= MaxColumns
    requires IsGrid(enc.grid) && 2 <= enc.rows <= GridRows && |enc.sels| == enc.rows
    requires MinColumns <= columns <= MaxColumns
    ensures r.Err? ==> r.error == IndexOutOfRange
    ensures r.Err? <==> !Renderable(enc, columns)
    ensures r.Ok? ==>
      var y := r.value;
      && y.rows == enc.rows && y.columns == columns && y.selectors == enc.sels
      && y.finalMode == enc.finalMode && SymbolHolds(data, y)
    ensures r.Ok? ==> forall i, j :: 0 <= i < GridRows && 0 <= j < GridColumns && (i != enc.rows - 1 || j < columns - 2) ==>
      r.value.grid[i][j] == enc.grid[i][j]
  {
    var k1, k2, grid, inds, checks, words := RowCharacters(data, columns, enc);
    var patterns := RowPatterns(words);
    RowsRenderIff(enc, columns, grid, inds, checks, words);
    if patterns.Err? {
      return Err(patterns.error);
    }
    RenderedSymbolHolds(data, columns, enc, k1, k2, grid, inds, checks, words, patterns.value);
    return Ok(Symbol(enc.rows, columns, enc.sels, inds, grid, enc.finalMode, k1, k2, checks, patterns.value));
  }

  /** Characters set as `RowCharacters` sets them, whose rows all rendered,
      make a well-formed symbol. */
  lemma RenderedSymbolHolds(data: seq<int>, columns: int, enc: Encoded, k1: int, k2: int, grid: Grid,
                             inds: seq<int>, checks: seq<int>, words: seq<seq<int>>, patterns: seq<string>)
    requires IsGrid(grid) && 2 <= enc.rows <= GridRows && MinColumns <= columns <= MaxColumns
    requires |enc.sels| == enc.rows && |inds| == |checks| == |words| == enc.rows
    requires grid[enc.rows - 1][columns - 2] == k1 && grid[enc.rows - 1][columns - 1] == k2
    requires 0 <= k1 <= 95 && 0 <= k2 <= 95
    requires enc.finalMode == C ==> k1 == K1Sum(data) % 86 && k2 == K2Sum(data) % 86
    requires enc.finalMode != C ==> CharA(k1) == K1Sum(data) % 86 && CharA(k2) == K2Sum(data) % 86
    requires RowsOfIndicator(inds[0], enc.sels[0]) == enc.rows
    requires forall i :: 1 <= i < enc.rows ==> RowOfIndicator(inds[i], enc.sels[i]) == i
    requires forall k :: 0 <= k < enc.rows ==> 0 <= inds[k] <= 95
    requires forall k :: 0 <= k < enc.rows ==>
      checks[k] == JavaRem(WeightedSum(RowHead(enc.sels[k], inds[k]) + grid[k][..columns]), 103)
    requires forall k :: 0 <= k < enc.rows ==> words[k] == RowWords(enc.sels[k], inds[k], grid[k][..columns], checks[k])
    requires |patterns| == |words| && forall k :: 0 <= k < |words| ==> Render(words[k]) == Ok(patterns[k])
    ensures SymbolHolds(data, Symbol(enc.rows, columns, enc.sels, inds, grid, enc.finalMode, k1, k2, checks, patterns))
  {
    var y := Symbol(enc.rows, columns, enc.sels, inds, grid, enc.finalMode, k1, k2, checks, patterns);
    assert SymbolChecksHold(data, y);
    assert IndicatorsHold(y);
    forall k | 0 <= k < enc.rows
      ensures Render(RowWords(enc.sels[k], inds[k], grid[k][..columns], checks[k])) == Ok(patterns[k])
    {
      assert words[k] == RowWords(enc.sels[k], inds[k], grid[k][..columns], checks[k]);
    }
    RowsHoldWhenRendered(y);
  }

  /** The symbol characters of every row (source lines 137-218): the
      symbol checks set into the grid, the indicators, the row checks, and
      each row's characters from Start A to Stop. */
  method RowCharacters(data: seq<int>, columns: int, enc: Encoded)
    returns (k1: int, k2: int, grid: Grid, inds: seq<int>, checks: seq<int>, words: seq<seq<int>>)
    requires ValidContent(data)
    requires Columns(HalfUnits(data), Rows(HalfUnits(data))) <= MaxColumns
    requires IsGrid(enc.grid) && 2 <= enc.rows <= GridRows && |enc.sels| == enc.rows
    requires MinColumns <= columns <= MaxColumns
    ensures IsGrid(grid) && |inds| == |checks| == |words| == enc.rows
    ensures grid[enc.rows - 1][columns - 2] == k1 && grid[enc.rows - 1][columns - 1] == k2
    ensures 0 <= k1 <= 95 && 0 <= k2 <= 95
    ensures enc.finalMode == C ==> k1 == K1Sum(data) % 86 && k2 == K2Sum(data) % 86
    ensures enc.finalMode != C ==> CharA(k1) == K1Sum(data) % 86 && CharA(k2) == K2Sum(data) % 86
    ensures RowsOfIndicator(inds[0], enc.sels[0]) == enc.rows
    ensures forall i :: 1 <= i < enc.rows ==> RowOfIndicator(inds[i], enc.sels[i]) == i
    ensures forall i, j :: 0 <= i < GridRows && 0 <= j < GridColumns && (i != enc.rows - 1 || j < columns - 2) ==>
      grid[i][j] == enc.grid[i][j]
    ensures forall k :: 0 <= k < enc.rows ==> 0 <= inds[k] <= 95
    ensures forall k :: 0 <= k < enc.rows ==>
      checks[k] == JavaRem(WeightedSum(RowHead(enc.sels[k], inds[k]) + grid[k][..columns]), 103)
    ensures forall k :: 0 <= k < enc.rows ==> words[k] == RowWords(enc.sels[k], inds[k], grid[k][..columns], checks[k])
  {
    var rows := enc.rows;
    k1, k2, grid := SymbolChecks(data, enc, columns);
    var sels := enc.sels;
    inds := seq(rows, i requires 0 <= i < rows => Indicator(i, rows, sels[i]));
    checks := RowChecks(sels, inds, grid, columns);
    words := seq(rows, k requires 0 <= k < rows => RowWords(sels[k], inds[k], grid[k][..columns], checks[k]));
  }

  /** Rows whose checks were taken with Java's remainder and which all
      rendered satisfy `RowsHold`. */
  lemma RowsHoldWhenRendered(y: Symbol)
    requires IsGrid(y.grid) && 0 <= y.rows <= GridRows && 0 <= y.columns <= GridColumns
    requires y.rows == |y.indicators| == |y.selectors| == |y.rowChecks| == |y.patterns|
    requires forall k :: 0 <= k < y.rows ==> y.indicators[k] <= 95
    requires forall k :: 0 <= k < y.rows ==>
      y.rowChecks[k] == JavaRem(WeightedSum(RowHead(y.selectors[k], y.indicators[k]) + y.grid[k][..y.columns]), 103)
    requires forall k :: 0 <= k < y.rows ==>
      Render(RowWords(y.selectors[k], y.indicators[k], y.grid[k][..y.columns], y.rowChecks[k])) == Ok(y.patterns[k])
    ensures RowsHold(y)
  {
    forall k | 0 <= k < y.rows
      ensures y.rowChecks[k] == WeightedSum(RowHead(y.selectors[k], y.indicators[k]) + y.grid[k][..y.columns]) % 103
      ensures |y.patterns[k]| == 6 * y.columns + 31 && Modules(y.patterns[k]) == 11 * y.columns + 57
    {
      var cells := y.grid[k][..y.columns];
      assert forall j :: 0 <= j < |cells| ==> cells[j] == y.grid[k][j];
      RenderedRowCheck(y.selectors[k], y.indicators[k], cells, y.rowChecks[k]);
      RowShape(y.selectors[k], y.indicators[k], cells, y.rowChecks[k]);
    }
  }

  /** `r` fails as the main loop does on `cfg`, and otherwise fails exactly
      when a data character of the loop's rows is not a symbol value. */
  ghost predicate FollowsRun(cfg: Config, r: Result<Symbol>)
    requires ValidConfig(cfg)
  {
    var e := Run(cfg, Start());
    && (e.Err? ==> r == Err(e.error))
    && (e.Ok? ==> (r.Err? <==> !Renderable(e.value, cfg.columns)))
  }

  /** The symbol for content that passed the input checks, in the size the
      estimate gives it: the main loop, then the characters of the symbol.
      Its rows are those of `Run`; it fails as `Run` does, or after it when
      a data character is not a symbol value. */
  method EncodeSized(cfg: Config) returns (r: Result<Symbol>, ghost starts: seq<int>)
    requires ValidContent(cfg.data) && |cfg.data| <= MaxInputLength
    requires cfg.columns == Columns(HalfUnits(cfg.data), Rows(HalfUnits(cfg.data))) <= MaxColumns
    ensures ValidConfig(cfg)
    ensures r.Err? ==> r.error in {IndexOutOfRange, TooManyRows}
    ensures r.Ok? ==>
      && SymbolHolds(cfg.data, r.value) && r.value.columns == cfg.columns
      && OpenedAt(cfg, r.value.selectors, starts)
    ensures FollowsRun(cfg, r)
    ensures r.Ok? ==>
      var e := Run(cfg, Start());
      && e.Ok? && r.value.rows == e.value.rows && r.value.selectors == e.value.sels
      && r.value.finalMode == e.value.finalMode
      && forall i, j :: 0 <= i < GridRows && 0 <= j < GridColumns && (i != r.value.rows - 1 || j < cfg.columns - 2) ==>
           r.value.grid[i][j] == e.value.grid[i][j]
  {
    var e;
    e, starts := EncodeData(cfg);
    if e.Err? {
      return Err(e.error), starts;
    }
    r := Assemble(cfg.data, cfg.columns, e.value);
  }

  /** The input checks and the symbol's width (source lines 71-135):
      content with a character outside the bytes is refused, as is content
      longer than 5450 units or too wide for 62 columns; otherwise the
      width follows from the estimate. */
  method Admit(data: seq<int>) returns (r: Result<int>)
    ensures r == Err(InvalidCharacters) <==> !ValidContent(data)
    ensures r == Err(InputTooLong) <==>
      ValidContent(data)
      && (|data| > MaxInputLength || Columns(HalfUnits(data), Rows(HalfUnits(data))) > MaxColumns)
    ensures r.Err? ==> r.error in {InvalidCharacters, InputTooLong}
    ensures r.Ok? ==>
      && ValidContent(data) && |data| <= MaxInputLength
      && r.value == Columns(HalfUnits(data), Rows(HalfUnits(data))) <= MaxColumns
  {
    if !ValidContent(data) {
      return Err(InvalidCharacters);
    }
    if |data| > MaxInputLength {
      return Err(InputTooLong);
    }
    var h := Estimate(data);
    var columns := Columns(h, Rows(h));
    if columns > MaxColumns {
      return Err(InputTooLong);
    }
    return Ok(columns);
  }

  /** Encodes `data`, a sequence of bytes and FNC1 marks, as a Codablock-F
      symbol (source lines 71-257). The ghost `starts` gives, for each row,
      the input position at which the row was opened. */
  method Encode(data: seq<int>, gs1: bool) returns (r: Result<Symbol>, ghost starts: seq<int>)
    ensures r == Err(InvalidCharacters) <==> !ValidContent(data)
    ensures r == Err(InputTooLong) <==>
      ValidContent(data)
      && (|data| > MaxInputLength || Columns(HalfUnits(data), Rows(HalfUnits(data))) > MaxColumns)
    ensures r.Ok? ==>
      && ValidContent(data) && |data| <= MaxInputLength
      && r.value.columns == Columns(HalfUnits(data), Rows(HalfUnits(data)))
      && SymbolHolds(data, r.value) && |starts| == r.value.rows
    // every row's selector comes from the unit the row was opened at, and
    // the rows open at increasing positions; rows opened at the end of the
    // data are in subset A
    ensures r.Ok? ==>
      var y := r.value;
      && starts[0] == 0
      && (forall k :: 0 <= k < y.rows ==>
            0 <= starts[k] <= |data|
            && y.selectors[k] == RowStartSubset(if starts[k] < |data| then data[starts[k]] else 0))
      && (forall i, j :: 0 <= i < j < y.rows ==> starts[i] < starts[j])
    // content that passes the checks is encoded as `EncodeSized` states
    ensures ValidContent(data) && |data| <= MaxInputLength
            && Columns(HalfUnits(data), Rows(HalfUnits(data))) <= MaxColumns ==>
      FollowsRun(Config(data, Columns(HalfUnits(data), Rows(HalfUnits(data))), gs1), r)
  {
    starts := [];
    var c := Admit(data);
    if c.Err? {
      return Err(c.error), starts;
    }
    r, starts := EncodeAdmitted(data, c.value, gs1);
  }

  /** `EncodeSized` for admitted content, with the rows' openings read in
      terms of the data. */
  method EncodeAdmitted(data: seq<int>, columns: int, gs1: bool) returns (r: Result<Symbol>, ghost starts: seq<int>)
    requires ValidContent(data) && |data| <= MaxInputLength
    requires columns == Columns(HalfUnits(data), Rows(HalfUnits(data))) <= MaxColumns
    ensures r.Err? ==> r.error in {IndexOutOfRange, TooManyRows}
    ensures r.Ok? ==> SymbolHolds(data, r.value) && r.value.columns == columns && |starts| == r.value.rows
    ensures r.Ok? ==>
      var y := r.value;
      && starts[0] == 0
      && (forall k :: 0 <= k < y.rows ==>
            0 <= starts[k] <= |data|
            && y.selectors[k] == RowStartSubset(if starts[k] < |data| then data[starts[k]] else 0))
      && (forall i, j :: 0 <= i < j < y.rows ==> starts[i] < starts[j])
    ensures FollowsRun(Config(data, columns, gs1), r)
  {
    var cfg := Config(data, columns, gs1);
    r, starts := EncodeSized(cfg);
    if r.Ok? {
      OpenedAtInData(cfg, r.value.selectors, starts);
    }
  }

  /** `OpenedAt` read in terms of the data and its sentinel. */
  lemma OpenedAtInData(cfg: Config, sels: seq<Subset>, starts: seq<int>)
    requires OpenedAt(cfg, sels, starts) && |starts| > 0
    ensures starts[0] == 0
    ensures forall k :: 0 <= k < |starts| ==>
      0 <= starts[k] <= |cfg.data|
      && sels[k] == RowStartSubset(if starts[k] < |cfg.data| then cfg.data[starts[k]] else 0)
    ensures forall i, j :: 0 <= i < j < |starts| ==> starts[i] < starts[j]
  {
    assert forall k :: 0 <= k < |starts| ==>
      At(cfg, starts[k]) == if starts[k] < |cfg.data| then cfg.data[starts[k]] else 0;
  }
}
