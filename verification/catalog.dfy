/** The closed catalog of Calcite operator kinds that the visitor recognises,
    and the order in which `reverseAccept` tests a node against them. */
module Catalog {

  /** One constructor per Calcite class that has its own `visit` overload. */
  datatype Kind =
    | TableScan | TableFunctionScan | Values | Filter | Calc | Project
    | Join | Correlate | Union | Intersect | Minus | Aggregate
    | Match | Sort | Exchange | TableModify

  /** A Calcite node as the dispatcher sees it: the catalog classes it is an
      `instanceof` (empty for a node of no recognised class), and an opaque
      payload standing for everything else about it, which only the caller's
      operations may look at. Overlapping memberships are allowed, so the test
      order is observable. */
  datatype RelNode<P> = RelNode(kinds: set<Kind>, payload: P)

  /** The order of the `instanceof` chain in `reverseAccept`. It differs from the
      declaration order of the `visit` overloads: Match, Sort and Exchange are
      tested before Aggregate. */
  const TestOrder: seq<Kind> :=
    [TableScan, TableFunctionScan, Values, Filter, Calc, Project, Join, Correlate,
     Union, Intersect, Minus, Match, Sort, Exchange, Aggregate, TableModify]

  /** Where `k` is tested in the chain: no kind is left out of it. */
  function Position(k: Kind): (i: nat)
    ensures i < |TestOrder| && TestOrder[i] == k
  {
    match k
    case TableScan => 0
    case TableFunctionScan => 1
    case Values => 2
    case Filter => 3
    case Calc => 4
    case Project => 5
    case Join => 6
    case Correlate => 7
    case Union => 8
    case Intersect => 9
    case Minus => 10
    case Match => 11
    case Sort => 12
    case Exchange => 13
    case Aggregate => 14
    case TableModify => 15
  }

  /** The chain lists every kind exactly once. */
  lemma TestOrderIsPermutation()
    ensures |TestOrder| == 16
    ensures forall k :: k in TestOrder
    ensures forall i, j :: 0 <= i < j < |TestOrder| ==> TestOrder[i] != TestOrder[j]
  {
    forall k: Kind
      ensures k in TestOrder
    {
      assert TestOrder[Position(k)] == k;
    }
  }

  /** Position is the inverse of indexing the chain. */
  lemma PositionOfIndex(i: nat)
    requires i < |TestOrder|
    ensures Position(TestOrder[i]) == i
  {
  }
}
