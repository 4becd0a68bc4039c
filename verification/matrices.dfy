/**
 * Dense two-dimensional arrays stored row by row. The row and column counts
 * are kept explicitly so that a matrix with no rows still has a width.
 */
module Matrices {

  datatype Matrix = Matrix(rows: nat, cols: nat, cells: seq<seq<real>>) {

    /** Every row has exactly `cols` entries and there are `rows` of them. */
    predicate Valid()
    {
      |cells| == rows && forall r :: 0 <= r < |cells| ==> |cells[r]| == cols
    }
  }

  /** Column c of m, the slice `m[:, c]`. */
  function Column(m: Matrix, c: nat): (col: seq<real>)
    requires m.Valid() && c < m.cols
    ensures |col| == m.rows
    ensures forall r :: 0 <= r < m.rows ==> col[r] == m.cells[r][c]
  {
    seq(m.rows, r requires 0 <= r < m.rows => m.cells[r][c])
  }

  /** All columns of m, in order. */
  function Columns(m: Matrix): (cs: seq<seq<real>>)
    requires m.Valid()
    ensures |cs| == m.cols
    ensures forall c :: 0 <= c < m.cols ==> cs[c] == Column(m, c) && |cs[c]| == m.rows
  {
    seq(m.cols, c requires 0 <= c < m.cols => Column(m, c))
  }

  /** The matrix whose c-th column is cs[c]; every column has `rows` entries. */
  function FromColumns(rows: nat, cs: seq<seq<real>>): (m: Matrix)
    requires forall c :: 0 <= c < |cs| ==> |cs[c]| == rows
    ensures m.Valid() && m.rows == rows && m.cols == |cs|
    ensures forall c :: 0 <= c < |cs| ==> Column(m, c) == cs[c]
  {
    var m := Matrix(rows, |cs|, seq(rows, r requires 0 <= r < rows =>
      seq(|cs|, c requires 0 <= c < |cs| => cs[c][r])));
    assert forall c :: 0 <= c < |cs| ==> Column(m, c) == cs[c] by {
      forall c | 0 <= c < |cs| ensures Column(m, c) == cs[c] {
        assert forall r :: 0 <= r < rows ==> Column(m, c)[r] == cs[c][r];
      }
    }
    m
  }

  /** Taking a matrix apart into its columns and reassembling it is the identity. */
  lemma FromColumnsColumns(m: Matrix)
    requires m.Valid()
    ensures FromColumns(m.rows, Columns(m)) == m
  {
    var m' := FromColumns(m.rows, Columns(m));
    forall r | 0 <= r < m.rows
      ensures m'.cells[r] == m.cells[r]
    {
      forall c | 0 <= c < m.cols
        ensures m'.cells[r][c] == m.cells[r][c]
      {
        assert m'.cells[r][c] == Column(m', c)[r];
      }
    }
  }

  /** m with column c replaced by col. */
  function WithColumn(m: Matrix, c: nat, col: seq<real>): (m': Matrix)
    requires m.Valid() && c < m.cols && |col| == m.rows
    ensures m'.Valid() && m'.rows == m.rows && m'.cols == m.cols
    ensures Column(m', c) == col
    ensures forall c' :: 0 <= c' < m.cols && c' != c ==> Column(m', c') == Column(m, c')
  {
    var cs := Columns(m);
    FromColumns(m.rows, cs[c := col])
  }
}
