/** Render: the table geometry and the order of the draw calls, without the
    GUI. Each draw stands for one GUIDrawRect, a filled box and a centred
    label on the same rectangle; the band selects its colour and font. */
module Layout {
  import opened Wrappers
  import opened Members

  /** Height of every row of cells, in pixels. */
  const RowHeight: int := 30

  /** The fixed caption of the title band (the table's own title is not shown). */
  const TitleText: string := "Team Members"

  /** Title, header or content styling. */
  datatype Band = TitleBand | HeaderBand | ContentBand

  datatype Rect = Rect(x: int, y: int, width: int, height: int)

  /** One GUIDrawRect call. */
  datatype Draw = Draw(rect: Rect, text: string, band: Band)

  /** C#'s `/` on int, which truncates toward zero, for a positive divisor. */
  function TruncDiv(a: int, b: int): (q: int)
    requires b > 0
    ensures a >= 0 ==> 0 <= q && q * b <= a < q * b + b
    ensures a < 0 ==> q * b - b < a <= q * b
  {
    assert a == (a / b) * b + a % b;
    assert -a == ((-a) / b) * b + (-a) % b;
    if a >= 0 then a / b else -((-a) / b)
  }

  /** `Screen.width / teamData.ColumnHeaders.Count + 1`: one column's width,
      over-allocated by a pixel. */
  function CellWidth(screenWidth: int, columns: int): int
    requires columns > 0
  {
    TruncDiv(screenWidth, columns) + 1
  }

  /** The four fields a row shows, left to right. */
  function Field(m: Record, k: int): string
    requires 0 <= k < 4
  {
    if k == 0 then m.id
    else if k == 1 then m.name
    else if k == 2 then m.role
    else m.nickname
  }

  /** The header cells, left to right, in the third row height. */
  function HeaderDraws(headers: seq<string>, cellWidth: int): (r: seq<Draw>)
    ensures |r| == |headers|
    ensures forall i :: 0 <= i < |headers| ==>
              r[i] == Draw(Rect(i * cellWidth, 2 * RowHeight, cellWidth, RowHeight), headers[i], HeaderBand)
  {
    if |headers| == 0 then []
    else
      var n := |headers| - 1;
      HeaderDraws(headers[..n], cellWidth)
        + [Draw(Rect(n * cellWidth, 2 * RowHeight, cellWidth, RowHeight), headers[n], HeaderBand)]
  }

  /** The four cells of record `i`. */
  function RecordDraws(m: Record, i: int, cellWidth: int): seq<Draw>
  {
    seq(4, k requires 0 <= k < 4 =>
      Draw(Rect(k * cellWidth, RowHeight * (i + 3), cellWidth, RowHeight), Field(m, k), ContentBand))
  }

  /** The content cells, record by record from the top. */
  function DataDraws(rows: seq<Record>, cellWidth: int): (r: seq<Draw>)
    ensures |r| == 4 * |rows|
    ensures forall i, k :: 0 <= i < |rows| && 0 <= k < 4 ==>
              r[4 * i + k] == Draw(Rect(k * cellWidth, RowHeight * (i + 3), cellWidth, RowHeight), Field(rows[i], k), ContentBand)
  {
    if |rows| == 0 then []
    else
      var n := |rows| - 1;
      DataDraws(rows[..n], cellWidth) + RecordDraws(rows[n], n, cellWidth)
  }

  /** Position in the draw order of field `k` of record `i`, after the
      title and `headerCount` headers. */
  function ContentIndex(headerCount: int, i: int, k: int): int
  {
    1 + headerCount + 4 * i + k
  }

  /** One call of Render. A null table or an empty header list throws (null
      reference, division by zero) on the width computation, before anything
      is drawn: None. */
  function Render(screenWidth: int, table: Option<Table>): (r: Option<seq<Draw>>)
    ensures r.None? <==> table.None? || |table.value.columnHeaders| == 0
    ensures r.Some? ==>
              var headers, rows := table.value.columnHeaders, table.value.data;
              var w := CellWidth(screenWidth, |headers|);
              var d := r.value;
              && |d| == 1 + |headers| + 4 * |rows|
              && d[0] == Draw(Rect(0, 0, screenWidth, 2 * RowHeight), TitleText, TitleBand)
              && (forall i :: 0 <= i < |headers| ==>
                    d[1 + i] == Draw(Rect(i * w, 2 * RowHeight, w, RowHeight), headers[i], HeaderBand))
              && (forall i, k :: 0 <= i < |rows| && 0 <= k < 4 ==>
                    d[ContentIndex(|headers|, i, k)]
                      == Draw(Rect(k * w, RowHeight * (i + 3), w, RowHeight), Field(rows[i], k), ContentBand))
  {
    match table
    case None => None
    case Some(t) =>
      if |t.columnHeaders| == 0 then None
      else
        var w := CellWidth(screenWidth, |t.columnHeaders|);
        Some([Draw(Rect(0, 0, screenWidth, 2 * RowHeight), TitleText, TitleBand)]
             + HeaderDraws(t.columnHeaders, w)
             + DataDraws(t.data, w))
  }

  /** The one-pixel over-allocation makes the columns span at least the whole
      screen width, and overshoot it by at most one pixel per column. */
  lemma ColumnsCoverScreen(screenWidth: int, columns: int)
    requires screenWidth >= 0 && columns > 0
    ensures screenWidth < columns * CellWidth(screenWidth, columns) <= screenWidth + columns
  {
  }

  /** Two rectangles share no interior point. */
  predicate Disjoint(a: Rect, b: Rect)
  {
    || a.x + a.width <= b.x || b.x + b.width <= a.x
    || a.y + a.height <= b.y || b.y + b.height <= a.y
  }

  /** The row-height line and the column of a cell drawn after the title:
      headers on line 2, record `i` on line `i + 3`. */
  function Slot(headerCount: int, p: int): (int, int)
    requires 1 <= p
  {
    if p <= headerCount then (2, p - 1)
    else (3 + (p - 1 - headerCount) / 4, (p - 1 - headerCount) % 4)
  }

  /** Every cell after the title is the cell of its slot. */
  lemma CellAtSlot(screenWidth: int, t: Table, p: int)
    requires |t.columnHeaders| > 0
    requires 1 <= p < |Render(screenWidth, Some(t)).value|
    ensures var (line, col) := Slot(|t.columnHeaders|, p);
            var w := CellWidth(screenWidth, |t.columnHeaders|);
            && 0 <= col
            && 2 <= line
            && Render(screenWidth, Some(t)).value[p].rect == Rect(col * w, line * RowHeight, w, RowHeight)
  {
    var h := |t.columnHeaders|;
    var w := CellWidth(screenWidth, h);
    var d := Render(screenWidth, Some(t)).value;
    if p > h {
      var i, k := (p - 1 - h) / 4, (p - 1 - h) % 4;
      assert p == ContentIndex(h, i, k);
      assert 0 <= i < |t.data|;
      assert d[p].rect == Rect(k * w, RowHeight * (i + 3), w, RowHeight);
      assert Slot(h, p) == (i + 3, k);
    }
  }

  /** Distinct cells after the title sit in distinct slots. */
  lemma SlotsDistinct(headerCount: int, p: int, q: int)
    requires 1 <= p < q
    ensures Slot(headerCount, p) != Slot(headerCount, q)
  {
  }

  /** Cells of equal width in different columns of one line, or in
      different lines, do not overlap. */
  lemma GridCellsDisjoint(w: int, line: int, col: int, line': int, col': int)
    requires w >= 0 && 0 <= col && 0 <= col'
    requires (line, col) != (line', col')
    ensures Disjoint(Rect(col * w, line * RowHeight, w, RowHeight), Rect(col' * w, line' * RowHeight, w, RowHeight))
  {
    if line == line' {
      if col < col' {
        assert (col + 1) * w <= col' * w;
      } else {
        assert (col' + 1) * w <= col * w;
      }
    }
  }

  /** Two cells of one render do not overlap. */
  lemma RenderedPairDisjoint(screenWidth: int, t: Table, p: int, q: int)
    requires screenWidth >= 0
    requires |t.columnHeaders| > 0
    requires 0 <= p < q < |Render(screenWidth, Some(t)).value|
    ensures var d := Render(screenWidth, Some(t)).value;
            Disjoint(d[p].rect, d[q].rect)
  {
    var h := |t.columnHeaders|;
    var w := CellWidth(screenWidth, h);
    var d := Render(screenWidth, Some(t)).value;
    CellAtSlot(screenWidth, t, q);
    var (line', col') := Slot(h, q);
    var b := Rect(col' * w, line' * RowHeight, w, RowHeight);
    assert d[q].rect == b;
    if p == 0 {
      assert d[0].rect.y + d[0].rect.height == 2 * RowHeight;
      assert 2 * RowHeight <= b.y;
    } else {
      CellAtSlot(screenWidth, t, p);
      SlotsDistinct(h, p, q);
      var (line, col) := Slot(h, p);
      assert d[p].rect == Rect(col * w, line * RowHeight, w, RowHeight);
      GridCellsDisjoint(w, line, col, line', col');
    }
  }

  /** On a screen of non-negative width no two drawn rectangles overlap: the
      title band, the header line and the record lines are stacked, and the
      cells of a line sit side by side. */
  lemma RenderCellsDoNotOverlap(screenWidth: int, table: Option<Table>)
    requires screenWidth >= 0
    requires Render(screenWidth, table).Some?
    ensures var d := Render(screenWidth, table).value;
            forall p, q :: 0 <= p < q < |d| ==> Disjoint(d[p].rect, d[q].rect)
  {
    var d := Render(screenWidth, table).value;
    forall p, q | 0 <= p < q < |d|
      ensures Disjoint(d[p].rect, d[q].rect)
    {
      RenderedPairDisjoint(screenWidth, table.value, p, q);
    }
  }
}
