/**
 * The column sorter the list view is given (ListViewColumnSorter, whose source is not part of this
 * model): a sort column, a sort order, and a comparator over the items' column texts. The
 * header-click rule of listFiles_ColumnClick is AfterColumnClick.
 */
module ColumnSorting {
  import opened Sorting
  import opened Filter

  /** System.Windows.Forms.SortOrder; `Unsorted` is its `None`. */
  datatype SortOrder = Unsorted | Ascending | Descending

  datatype SortState = SortState(column: int, order: SortOrder)

  /** The order a header click on the current sort column switches to. */
  function Reversed(order: SortOrder): (r: SortOrder)
    ensures r != Unsorted
    ensures order == Ascending <==> r == Descending
  {
    if order == Ascending then Descending else Ascending
  }

  /**
   * The sort state after the header of column `clicked` is clicked: the same column reverses the
   * order, another column becomes the sort column in ascending order.
   */
  function AfterColumnClick(s: SortState, clicked: int): (r: SortState)
    ensures r.column == clicked
    ensures r.order != Unsorted
    ensures clicked == s.column ==> r.order != s.order
    ensures clicked != s.column ==> r.order == Ascending
  {
    if clicked == s.column then
      SortState(s.column, Reversed(s.order))
    else
      SortState(clicked, Ascending)
  }

  /** Two clicks on the sort column's header restore the sort state. */
  lemma ClickingTwiceRestores(s: SortState)
    requires s.order != Unsorted
    ensures AfterColumnClick(AfterColumnClick(s, s.column), s.column) == s
  {
  }

  /** Two clicks on another column's header: the first sorts it ascending, the second descending. */
  lemma ClickingNewColumnTwiceDescends(s: SortState, clicked: int)
    requires clicked != s.column
    ensures AfterColumnClick(AfterColumnClick(s, clicked), clicked) == SortState(clicked, Descending)
  {
  }

  /** A comparator that can rank any two rows, for every column and order. */
  ghost predicate TotalForEveryColumn(precedes: (int, SortOrder, Row, Row) -> bool) {
    forall c, o, a, b :: precedes(c, o, a, b) || precedes(c, o, b, a)
  }

  /** The stand-in for ListViewColumnSorter. */
  class ColumnSorter {
    var sortColumn: int
    var order: SortOrder

    /** `precedes(column, order, a, b)`: the sorter lets row `a` stand before row `b`. */
    const precedes: (int, SortOrder, Row, Row) -> bool

    constructor (sortColumn: int, order: SortOrder, precedes: (int, SortOrder, Row, Row) -> bool)
      ensures this.sortColumn == sortColumn && this.order == order && this.precedes == precedes
    {
      this.sortColumn := sortColumn;
      this.order := order;
      this.precedes := precedes;
    }

    function State(): SortState
      reads this
    {
      SortState(sortColumn, order)
    }

    /** The comparator the list view sorts with, for the current column and order. */
    function Comparer(): (Row, Row) -> bool
      reads this
    {
      var column, o, p := sortColumn, order, precedes;
      (a: Row, b: Row) => p(column, o, a, b)
    }

    /** A comparator that is total for every column gives a total comparer in every state. */
    lemma ComparerIsTotal()
      requires TotalForEveryColumn(precedes)
      ensures Total(Comparer())
    {
      var leq := Comparer();
      forall a, b ensures leq(a, b) || leq(b, a) {
        assert precedes(sortColumn, order, a, b) || precedes(sortColumn, order, b, a);
      }
    }
  }
}
