/** `reverseAccept`: the caller-side substitute for `RelNode.accept(visitor)`.
    It tests the node against the catalog in `TestOrder`, calls the `visit`
    overload of the first kind the node belongs to, or `visitOther` when it
    belongs to none, and hands back that operation's outcome untouched. */
module Resolver {
  import opened Wrappers
  import opened Catalog
  import Dispatcher

  /** The visitor operation `reverseAccept` calls. */
  datatype Handler = Visit(kind: Kind) | Other

  /** The caller-supplied body whose code produced the outcome: a subclass's
      override of one `visit` overload, or its `visitOther`. */
  datatype Body = Overridden(kind: Kind) | Fallback

  /** One `reverseAccept` call: the handler chosen, the body that ran, the outcome. */
  datatype Dispatch<O, E> = Dispatch(handler: Handler, body: Body, result: Result<O, E>)

  /** The declarative routing rule: a node goes to the `visit` of the earliest
      tested kind it belongs to, and to `visitOther` exactly when it belongs to
      no catalog kind. */
  predicate Selects(kinds: set<Kind>, h: Handler)
  {
    match h
    case Visit(k) => k in kinds && forall k' :: k' in kinds ==> Position(k) <= Position(k')
    case Other => kinds == {}
  }

  /** The `instanceof` chain as a linear scan with early exit: the index of the
      first kind in `order` the node belongs to. */
  function FirstMatch(order: seq<Kind>, kinds: set<Kind>): (r: Option<nat>)
    ensures r.Some? ==> r.value < |order| && order[r.value] in kinds
    ensures r.Some? ==> forall j :: 0 <= j < r.value ==> order[j] !in kinds
    ensures r.None? ==> forall j :: 0 <= j < |order| ==> order[j] !in kinds
  {
    if |order| == 0 then None
    else if order[0] in kinds then Some(0)
    else
      match FirstMatch(order[1..], kinds)
      case Some(i) => Some(i + 1)
      case None => None
  }

  /** Totality and exclusivity: every set of memberships selects exactly one
      handler, and the chain finds it. */
  function Route(kinds: set<Kind>): (h: Handler)
    ensures forall g :: Selects(kinds, g) <==> g == h
  {
    match FirstMatch(TestOrder, kinds)
    case Some(i) =>
      var k := TestOrder[i];
      PositionOfIndex(i);
      assert Selects(kinds, Visit(k)) by {
        forall k' | k' in kinds
          ensures Position(k) <= Position(k')
        {
          assert TestOrder[Position(k')] in kinds;
        }
      }
      SelectsIsUnique(kinds, Visit(k));
      Visit(k)
    case None =>
      assert kinds == {} by {
        forall k': Kind
          ensures k' !in kinds
        {
          assert TestOrder[Position(k')] !in kinds;
        }
      }
      SelectsIsUnique(kinds, Other);
      Other
  }

  /** No two handlers are selected for the same memberships. */
  lemma SelectsIsUnique(kinds: set<Kind>, h: Handler)
    requires Selects(kinds, h)
    ensures forall g :: Selects(kinds, g) ==> g == h
  {
  }

  /** What calling handler `h` of visitor `v` on `node` returns or throws. */
  function Invoke<P, O, E>(v: Dispatcher.Visitor<P, O, E>, h: Handler, node: RelNode<P>): (r: Result<O, E>)
  {
    match h
    case Visit(k) => Dispatcher.Visit(v, k, node)
    case Other => v.visitOther(node)
  }

  /** `reverseAccept(node)`: route by memberships, call the chosen handler once,
      and pass its outcome through without wrapping, catching or retrying. */
  function ReverseAccept<P, O, E>(v: Dispatcher.Visitor<P, O, E>, node: RelNode<P>): (d: Dispatch<O, E>)
    ensures Selects(node.kinds, d.handler)
    ensures d.result == Invoke(v, d.handler, node)
    ensures d.body.Overridden? <==> d.handler.Visit? && d.handler.kind in v.overrides
    ensures d.body.Overridden? ==> d.body.kind == d.handler.kind
    ensures d.body.Overridden? ==> d.result == v.overrides[d.body.kind](node)
    ensures d.body.Fallback? ==> d.result == v.visitOther(node)
  {
    var h := Route(node.kinds);
    match h
    case Visit(k) =>
      Dispatch(h, if k in v.overrides then Overridden(k) else Fallback, Dispatcher.Visit(v, k, node))
    case Other =>
      Dispatch(h, Fallback, v.visitOther(node))
  }

  /** A node of no catalog kind goes to `visitOther`, whatever is overridden. */
  lemma UnrecognisedNodeGoesToOther<P, O, E>(v: Dispatcher.Visitor<P, O, E>, node: RelNode<P>)
    requires node.kinds == {}
    ensures ReverseAccept(v, node).handler == Other
    ensures ReverseAccept(v, node).body == Fallback
    ensures ReverseAccept(v, node).result == v.visitOther(node)
  {
  }

  /** A node of exactly one catalog kind goes to that kind's `visit`. */
  lemma SingleKindGoesToItsVisit<P, O, E>(v: Dispatcher.Visitor<P, O, E>, node: RelNode<P>, k: Kind)
    requires node.kinds == {k}
    ensures ReverseAccept(v, node).handler == Visit(k)
    ensures ReverseAccept(v, node).result == Dispatcher.Visit(v, k, node)
  {
  }

  /** A visitor that overrides only kind `k` resolves a node of kind `k`
      through that override, and the override runs exactly once, as the only
      caller-supplied body. */
  lemma OnlyOverrideAnswersItsKind<P(!new), O, E>(visitOther: Dispatcher.Operation<P, O, E>, k: Kind, f: Dispatcher.Operation<P, O, E>, node: RelNode<P>)
    requires node.kinds == {k}
    ensures ReverseAccept(Dispatcher.Override(Dispatcher.Plain(visitOther), k, f), node).handler == Visit(k)
    ensures ReverseAccept(Dispatcher.Override(Dispatcher.Plain(visitOther), k, f), node).body == Overridden(k)
    ensures ReverseAccept(Dispatcher.Override(Dispatcher.Plain(visitOther), k, f), node).result == f(node)
  {
  }

  /** First match wins: of two kinds a node belongs to, the one tested later is
      never the one visited. */
  lemma FirstMatchWins<P, O, E>(v: Dispatcher.Visitor<P, O, E>, node: RelNode<P>, a: Kind, b: Kind)
    requires a in node.kinds && b in node.kinds
    requires Position(a) < Position(b)
    ensures ReverseAccept(v, node).handler != Visit(b)
  {
  }

  /** A node goes to the `visit` of the earliest tested kind it belongs to. */
  lemma EarliestKindIsVisited<P, O, E>(v: Dispatcher.Visitor<P, O, E>, node: RelNode<P>, k: Kind)
    requires k in node.kinds
    requires forall k' :: k' in node.kinds ==> Position(k) <= Position(k')
    ensures ReverseAccept(v, node).handler == Visit(k)
    ensures ReverseAccept(v, node).result == Dispatcher.Visit(v, k, node)
  {
  }

  /** Under the chain's order, Match, Sort and Exchange take precedence over
      Aggregate, although Aggregate's `visit` is declared before theirs: their
      positions in `TestOrder` are 11, 12 and 13, Aggregate's is 14. */
  lemma AggregateTestedAfterMatchSortExchange<P, O, E>(v: Dispatcher.Visitor<P, O, E>, node: RelNode<P>, k: Kind)
    requires k == Match || k == Sort || k == Exchange
    requires node.kinds == {Aggregate, k}
    ensures ReverseAccept(v, node).handler == Visit(k)
  {
  }

  /** A visitor that overrides nothing behaves as `visitOther` on every node. */
  lemma PlainVisitorIsFallback<P(!new), O, E>(visitOther: Dispatcher.Operation<P, O, E>, node: RelNode<P>)
    ensures ReverseAccept(Dispatcher.Plain(visitOther), node).body == Fallback
    ensures ReverseAccept(Dispatcher.Plain(visitOther), node).result == visitOther(node)
  {
  }

  /** Overriding one kind's `visit` changes the outcome only for nodes routed
      to that kind, and for those it is the new override's outcome. */
  lemma OverrideIsLocal<P(!new), O, E>(v: Dispatcher.Visitor<P, O, E>, k: Kind, f: Dispatcher.Operation<P, O, E>, node: RelNode<P>)
    ensures ReverseAccept(Dispatcher.Override(v, k, f), node).handler == ReverseAccept(v, node).handler
    ensures Route(node.kinds) != Visit(k) ==>
      ReverseAccept(Dispatcher.Override(v, k, f), node) == ReverseAccept(v, node)
    ensures Route(node.kinds) == Visit(k) ==>
      ReverseAccept(Dispatcher.Override(v, k, f), node).body == Overridden(k) &&
      ReverseAccept(Dispatcher.Override(v, k, f), node).result == f(node)
  {
  }

  /** Routing looks only at the memberships, never at the node's contents. */
  lemma RoutingIgnoresPayload<P, O, E>(v: Dispatcher.Visitor<P, O, E>, n1: RelNode<P>, n2: RelNode<P>)
    requires n1.kinds == n2.kinds
    ensures ReverseAccept(v, n1).handler == ReverseAccept(v, n2).handler
    ensures ReverseAccept(v, n1).body == ReverseAccept(v, n2).body
  {
  }

  /** Transparency: an exception thrown by the chosen handler is the exception
      `reverseAccept` throws, and likewise for a returned value. */
  lemma OutcomePassesThrough<P, O, E>(v: Dispatcher.Visitor<P, O, E>, node: RelNode<P>)
    ensures ReverseAccept(v, node).result == Invoke(v, Route(node.kinds), node)
  {
  }
}
