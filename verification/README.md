# RelNodeVisitor dispatch, modelled in Dafny

Isthmus translates Calcite relational plans into Substrait plans. Calcite's
`RelNode` hierarchy cannot be given a new `accept` method, so Isthmus routes a
node to a visitor from the caller's side instead. `RelNodeVisitor` has three parts:

- sixteen `visit` overloads, one per Calcite operator class. Each one forwards
  to `visitOther` unless a subclass overrides it;
- an abstract `visitOther` that every concrete visitor must implement;
- `reverseAccept(node)`, a fixed `instanceof` chain. It calls the `visit` of
  the first class the node belongs to, or `visitOther` when it belongs to none.
  Whatever that operation returns or throws is returned or thrown unchanged.

The model has five modules:

- `Wrappers` holds `Option` and `Result`. A `Failure` stands for a thrown
  `EXCEPTION`.
- `Catalog` holds the sixteen `Kind`s and the chain's test order `TestOrder`
  (the constant lists the `instanceof` tests of lines 183-214 of RelNodeVisitor.java in order).
  A node is `RelNode(kinds, payload)`. `kinds` is the set of catalog classes the
  node is an `instanceof`. `payload` is opaque contents that only the caller's
  operations see.
- `Dispatcher` holds the visitor. It is a record of per-kind overrides plus a
  required `visitOther`. It also has `Visit`, which stands for the sixteen `visit` overloads
  (override if present, else the default body calling `visitOther`), and the two
  ways a subclass builds a visitor: `Plain` and `Override`.
- `Resolver` holds `reverseAccept`: a first-match scan over `TestOrder`. It
  records the handler chosen (`Visit(k)` or `Other`), the caller-supplied body
  that ran (an override or `visitOther`), and the outcome. It is checked against
  a declarative rule, `Selects`: go to the earliest-tested kind the node belongs
  to, or to `visitOther` if there is none.
- `Scenarios` holds concrete visitors and the outcomes they give.

The code does not assume that Calcite's classes are mutually exclusive. Its
behaviour is first-match-wins in the chain's order, and the model states it that
way for overlapping memberships too. That order is not the declaration order:
Match, Sort and Exchange are tested before Aggregate. If no node belonged to two
classes the order would not matter; the model does not assume that, and uses
exclusivity only as a precondition of `SingleKindGoesToItsVisit`,
`OnlyOverrideAnswersItsKind` and the scenario lemmas.

Visitor operations are pure functions of the node. So resolving the same node
with the same visitor always gives the same outcome: determinism holds by
construction.

## Model

| member | source | states |
|---|---|---|
| Catalog.TestOrderIsPermutation | isthmus/src/main/java/io/substrait/isthmus/RelNodeVisitor.java:183-214 | the chain tests sixteen distinct kinds, and every catalog kind is among them |
| Catalog.Position | isthmus/src/main/java/io/substrait/isthmus/RelNodeVisitor.java:183-214 | every kind has a place in the chain, and the chain holds that kind at that place |
| Dispatcher.DefaultVisitForwards | isthmus/src/main/java/io/substrait/isthmus/RelNodeVisitor.java:29-166 | an un-overridden `visit(K)` gives exactly what `visitOther` gives for the node |
| Dispatcher.Plain | isthmus/src/main/java/io/substrait/isthmus/RelNodeVisitor.java:29-173 | a visitor that implements only the mandatory `visitOther` answers every `visit(K)` with `visitOther` |
| Dispatcher.Override | isthmus/src/main/java/io/substrait/isthmus/RelNodeVisitor.java:29-166 | overriding `visit(K)` with f makes that overload run f; every other overload and `visitOther` are unchanged |
| Resolver.FirstMatch | isthmus/src/main/java/io/substrait/isthmus/RelNodeVisitor.java:183-216 | the scan returns the index of the first tested kind the node belongs to, with none earlier; it returns nothing only when the node belongs to no tested kind |
| Resolver.Route | isthmus/src/main/java/io/substrait/isthmus/RelNodeVisitor.java:182-218 | totality and exclusivity: exactly one handler satisfies the routing rule, and the chain picks it |
| Resolver.SelectsIsUnique | isthmus/src/main/java/io/substrait/isthmus/RelNodeVisitor.java:182-218 | no two handlers satisfy the routing rule for the same node |
| Resolver.ReverseAccept | isthmus/src/main/java/io/substrait/isthmus/RelNodeVisitor.java:182-218 | the handler obeys the routing rule; the outcome is that handler's outcome; the body that runs is the override exactly when the chosen kind is overridden, and `visitOther` otherwise |
| Resolver.UnrecognisedNodeGoesToOther | isthmus/src/main/java/io/substrait/isthmus/RelNodeVisitor.java:215-216 | a node of no catalog kind goes to `visitOther`, whatever the visitor overrides |
| Resolver.SingleKindGoesToItsVisit | isthmus/src/main/java/io/substrait/isthmus/RelNodeVisitor.java:183-214 | a node of exactly one kind K goes to `visit(K)` and gets its outcome |
| Resolver.EarliestKindIsVisited | isthmus/src/main/java/io/substrait/isthmus/RelNodeVisitor.java:183-214 | a node goes to the `visit` of the earliest-tested kind it belongs to |
| Resolver.OnlyOverrideAnswersItsKind | isthmus/src/main/java/io/substrait/isthmus/RelNodeVisitor.java:29-216 | a visitor that overrides only `visit(K)` resolves a node of kind K through that override, which is the one body that runs, and returns its outcome |
| Resolver.FirstMatchWins | isthmus/src/main/java/io/substrait/isthmus/RelNodeVisitor.java:183-214 | of two kinds a node belongs to, the one tested later is never visited |
| Resolver.AggregateTestedAfterMatchSortExchange | isthmus/src/main/java/io/substrait/isthmus/RelNodeVisitor.java:205-212 | a node that is both an Aggregate and a Match, Sort or Exchange goes to the other kind's `visit` |
| Resolver.PlainVisitorIsFallback | isthmus/src/main/java/io/substrait/isthmus/RelNodeVisitor.java:29-218 | with no overrides, every node's outcome is `visitOther`'s, produced by `visitOther`'s body |
| Resolver.OverrideIsLocal | isthmus/src/main/java/io/substrait/isthmus/RelNodeVisitor.java:29-218 | overriding one kind leaves routing alone and changes nothing for nodes routed elsewhere; nodes routed to that kind get the new override's outcome |
| Resolver.RoutingIgnoresPayload | isthmus/src/main/java/io/substrait/isthmus/RelNodeVisitor.java:182-218 | the handler and body chosen depend only on the node's class memberships |
| Resolver.OutcomePassesThrough | isthmus/src/main/java/io/substrait/isthmus/RelNodeVisitor.java:182-218 | the chosen handler's exception, or its returned value, is exactly what the call yields |
| Scenarios.FilterNodeIsFiltered | isthmus/src/main/java/io/substrait/isthmus/RelNodeVisitor.java:189-190 | a visitor overriding only `visit(Filter)` yields that override's value for a Filter node |
| Scenarios.ProjectNodeFallsBack | isthmus/src/main/java/io/substrait/isthmus/RelNodeVisitor.java:74-76 | the same visitor gives a Project node the `visitOther` outcome, through the default `visit(Project)` |
| Scenarios.EveryNodeUnsupported | isthmus/src/main/java/io/substrait/isthmus/RelNodeVisitor.java:29-218 | with no overrides and a throwing `visitOther`, every node yields that exception |
| Scenarios.JoinAggregateSort | isthmus/src/main/java/io/substrait/isthmus/RelNodeVisitor.java:195-212 | overrides of Join and Aggregate answer their nodes; a Sort node falls back to `visitOther` |

## Left out

- The Calcite `RelNode` hierarchy: a node is reduced to the set of catalog classes it is an instance of, plus an opaque payload. Fields and children are not modelled, and neither is whether Calcite's classes really exclude each other.
- Java generics and the `EXCEPTION extends Throwable` bound: outcomes are a `Result`. Unchecked exceptions are not modelled; they would pass through the chain unchanged just like checked ones.
- The pattern-variable downcast in each `instanceof` test: the handler gets the same node, seen through its memberships.
- The protected constructor: a visitor is any `Visitor` record, and its required `visitOther` field stands for the abstract method.
- Side effects and state inside caller-supplied operations: operations are pure functions, so a stateful visitor's effects are not modelled.
- Concrete translating subclasses and any recursive walk over a plan: the dispatcher handles one node per call. An operation is a closed function of the node and cannot call back into the visitor (`this.visit`, `this.reverseAccept`), so an inherited operation that re-enters the visitor and would see a later override is not modelled.
- Scenarios.ProjectNodeFallsBack: states the outcome for any Project node's payload p as "OTHER:" + p, rather than for the single node named "project".
