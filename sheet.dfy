/** The host side of a sheet write, kept in memory: a spreadsheet whose rows
    are written in blocks, and a progress indicator that records what it is
    told. */
module Sheet {
  import opened Text

  /** Rows [top, bottom) of the sheet, as covered by one block write. */
  datatype Span = Span(top: nat, bottom: nat)

  /** The rows of `block` laid out from sheet row `top` downwards. */
  function Placed(block: seq<Row>, top: nat): (m: map<nat, Row>)
    ensures forall r :: r in m <==> top <= r < top + |block|
    ensures forall r :: r in m ==> m[r] == block[r - top]
  {
    if block == [] then map[]
    else Placed(block[..|block| - 1], top)[top + |block| - 1 := block[|block| - 1]]
  }

  /** Two adjacent slices of a sequence, laid out one after the other, are
      the longer slice laid out. */
  lemma PlacedAppend(rows: seq<Row>, s: nat, e: nat, top: nat)
    requires s <= e <= |rows|
    ensures Placed(rows[..s], top) + Placed(rows[s..e], top + s) == Placed(rows[..e], top)
  {
    var lhs := Placed(rows[..s], top) + Placed(rows[s..e], top + s);
    var rhs := Placed(rows[..e], top);
    forall r | r in rhs
      ensures r in lhs && lhs[r] == rhs[r]
    {
      if r < top + s {
        assert rows[..s][r - top] == rows[..e][r - top];
      } else {
        assert rows[s..e][r - top - s] == rows[..e][r - top];
      }
    }
    assert lhs.Keys == rhs.Keys;
  }

  class Sheet {
    /** The contents of each non-empty row. */
    var cells: map<nat, Row>
    /** Rows whose characters are bold. */
    var boldRows: set<nat>
    /** The span of every block write so far, in order. */
    ghost var writes: seq<Span>

    constructor ()
      ensures cells == map[] && boldRows == {} && writes == []
    {
      cells, boldRows, writes := map[], {}, [];
    }

    /** clearContents(ALL_CELL_FLAGS): values and formatting go. */
    method ClearContents()
      modifies this
      ensures cells == map[] && boldRows == {} && writes == old(writes)
    {
      cells, boldRows := map[], {};
    }

    /** setDataArray on the range whose first row is `top`. */
    method SetDataArray(top: nat, block: seq<Row>)
      modifies this
      ensures cells == old(cells) + Placed(block, top)
      ensures writes == old(writes) + [Span(top, top + |block|)]
      ensures boldRows == old(boldRows)
    {
      cells := cells + Placed(block, top);
      writes := writes + [Span(top, top + |block|)];
    }

    /** CharWeight = BOLD on a one-row range. */
    method SetBold(row: nat)
      modifies this
      ensures boldRows == old(boldRows) + {row}
      ensures cells == old(cells) && writes == old(writes)
    {
      boldRows := boldRows + {row};
    }
  }

  datatype Progress = Started(caption: string, total: nat) | ValueSet(value: nat) | Ended

  /** A status indicator, as the sequence of calls it has received. */
  class StatusIndicator {
    var log: seq<Progress>

    constructor ()
      ensures log == []
    {
      log := [];
    }

    method Start(caption: string, total: nat)
      modifies this
      ensures log == old(log) + [Started(caption, total)]
    {
      log := log + [Started(caption, total)];
    }

    method SetValue(value: nat)
      modifies this
      ensures log == old(log) + [ValueSet(value)]
    {
      log := log + [ValueSet(value)];
    }

    method End()
      modifies this
      ensures log == old(log) + [Ended]
    {
      log := log + [Ended];
    }
  }
}
