/** The evaluation sheet as it is read from the survey export: a grid with no
    header row, of which only the first two columns carry meaning. */
module Sheets {

  /** A cell as pandas hands it over: text, an integer count, or nothing (NaN). */
  datatype Cell = Empty | Text(s: string) | Number(n: int)

  /** One row of the grid: column 0 holds the captions, column 1 the counts. */
  datatype Row = Row(caption: Cell, count: Cell)

  type Sheet = seq<Row>

  /** The ways processing one evaluation sheet can fail. */
  datatype Error =
    | OrphanMarker(marker: nat)     // a free-text marker with no question header above it
    | TruncatedBlock(header: nat)   // a question block runs past the last row
    | NonNumericCount(row: nat)     // a count cell that does not hold a number
    | ZeroTotal(header: nat)        // a question block whose counts add up to zero
    | MissingParticipation(rows: nat) // no row 2 for the participation figures

  datatype Result<+T> = Ok(value: T) | Err(error: Error) {
    predicate IsFailure() {
      Err?
    }

    function PropagateFailure<U>(): Result<U>
      requires Err?
    {
      Err(error)
    }

    function Extract(): T
      requires Ok?
    {
      value
    }
  }

  predicate StartsWith(s: string, prefix: string) {
    |prefix| <= |s| && s[..|prefix|] == prefix
  }

  /** `str.startswith(prefix)` followed by `fillna(False)`: a cell that is not
      text never matches. */
  predicate LabelStartsWith(c: Cell, prefix: string) {
    c.Text? && StartsWith(c.s, prefix)
  }
}
