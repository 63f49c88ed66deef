/** Concrete visitors and the outcomes `reverseAccept` gives them. Node payloads
    are the node's name, outputs and exceptions are strings or integers. */
module Scenarios {
  import opened Wrappers
  import opened Catalog
  import Dispatcher
  import opened Resolver

  /** A `visitOther` that reports the node's name. */
  function ReportOther(n: RelNode<string>): (r: Result<string, string>)
  {
    Success("OTHER:" + n.payload)
  }

  /** Overrides only `visit(Filter)`; `visitOther` is ReportOther. */
  function FilterVisitor(): (v: Dispatcher.Visitor<string, string, string>)
  {
    Dispatcher.Override(
      Dispatcher.Plain(ReportOther),
      Filter,
      (n: RelNode<string>) => Success("FILTERED"))
  }

  /** Overrides nothing; `visitOther` throws. */
  function UnsupportedVisitor(): (v: Dispatcher.Visitor<string, string, string>)
  {
    Dispatcher.Plain((n: RelNode<string>) => Failure("Unsupported"))
  }

  /** Overrides `visit(Join)` and `visit(Aggregate)`; `visitOther` returns 0. */
  function JoinAggregateVisitor(): (v: Dispatcher.Visitor<string, int, string>)
  {
    Dispatcher.Override(
      Dispatcher.Override(
        Dispatcher.Plain((n: RelNode<string>) => Success(0)),
        Join,
        (n: RelNode<string>) => Success(1)),
      Aggregate,
      (n: RelNode<string>) => Success(2))
  }

  /** A Filter node reaches the Filter override. */
  lemma FilterNodeIsFiltered(node: RelNode<string>)
    requires node.kinds == {Filter}
    ensures ReverseAccept(FilterVisitor(), node).body == Overridden(Filter)
    ensures ReverseAccept(FilterVisitor(), node).result == Success("FILTERED")
  {
  }

  /** A Project node, not overridden, reaches `visitOther` through the default:
      a node named "project" yields "OTHER:project". */
  lemma ProjectNodeFallsBack(node: RelNode<string>)
    requires node.kinds == {Project}
    ensures ReverseAccept(FilterVisitor(), node).handler == Visit(Project)
    ensures ReverseAccept(FilterVisitor(), node).body == Fallback
    ensures ReverseAccept(FilterVisitor(), node).result == Success("OTHER:" + node.payload)
  {
  }

  /** With nothing overridden, every node, recognised or not, gets the
      exception `visitOther` throws. */
  lemma EveryNodeUnsupported(node: RelNode<string>)
    ensures ReverseAccept(UnsupportedVisitor(), node).result == Failure("Unsupported")
  {
  }

  /** Join and Aggregate reach their overrides; Sort falls back. */
  lemma JoinAggregateSort(node: RelNode<string>)
    requires node.kinds == {Join} || node.kinds == {Aggregate} || node.kinds == {Sort}
    ensures node.kinds == {Join} ==> ReverseAccept(JoinAggregateVisitor(), node).result == Success(1)
    ensures node.kinds == {Aggregate} ==> ReverseAccept(JoinAggregateVisitor(), node).result == Success(2)
    ensures node.kinds == {Sort} ==> ReverseAccept(JoinAggregateVisitor(), node).result == Success(0)
  {
  }
}
