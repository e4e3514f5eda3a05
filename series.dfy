/** A labelled row of values, as a pandas Series: labels in order and the value under each. */
module Series {

  /** A cell value.  `Expected` stands for a floating-point expected count, whose value is not modelled. */
  datatype Cell = Text(text: string) | Number(number: int) | Expected

  datatype Series = Series(labels: seq<string>, data: seq<Cell>) {

    /** Every label has a value. */
    predicate WellFormed() {
      |labels| == |data|
    }

    /** The value under the label at `i`. */
    function At(i: nat): Cell
      requires WellFormed() && i < |labels|
    {
      data[i]
    }
  }
}
