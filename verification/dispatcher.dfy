/** The visitor contract: one overridable `visit` operation per catalog kind,
    each forwarding to the mandatory `visitOther` unless a concrete visitor
    overrides it. */
module Dispatcher {
  import opened Wrappers
  import opened Catalog

  /** A visitor operation: it returns an OUTPUT or throws an EXCEPTION. */
  type Operation<!P, O, E> = RelNode<P> -> Result<O, E>

  /** A concrete visitor. `overrides` holds the `visit` overloads the subclass
      redefines; `visitOther` is abstract in the base class, so it is a required
      field and no visitor exists without it. */
  datatype Visitor<!P, O, E> = Visitor(
    overrides: map<Kind, Operation<P, O, E>>,
    visitOther: Operation<P, O, E>)

  /** The `visit` overload for kind `k`: the subclass's override if it has one,
      otherwise the inherited default body, which calls `visitOther`. */
  function Visit<P, O, E>(v: Visitor<P, O, E>, k: Kind, node: RelNode<P>): (r: Result<O, E>)
  {
    if k in v.overrides then v.overrides[k](node) else v.visitOther(node)
  }

  /** An un-overridden `visit` is indistinguishable from `visitOther`. */
  lemma DefaultVisitForwards<P, O, E>(v: Visitor<P, O, E>, k: Kind, node: RelNode<P>)
    requires k !in v.overrides
    ensures Visit(v, k, node) == v.visitOther(node)
  {
  }

  /** The visitor of a subclass that implements only `visitOther`. */
  function Plain<P(!new), O, E>(visitOther: Operation<P, O, E>): (v: Visitor<P, O, E>)
    ensures v.visitOther == visitOther
    ensures forall k, node :: Visit(v, k, node) == visitOther(node)
  {
    Visitor(map[], visitOther)
  }

  /** The visitor of a subclass of `v` that redefines `visit` for kind `k` as `f`:
      that overload now runs `f`, and every other operation is unchanged. */
  function Override<P(!new), O, E>(v: Visitor<P, O, E>, k: Kind, f: Operation<P, O, E>): (w: Visitor<P, O, E>)
    ensures w.visitOther == v.visitOther
    ensures forall node :: Visit(w, k, node) == f(node)
    ensures forall k', node :: k' != k ==> Visit(w, k', node) == Visit(v, k', node)
  {
    v.(overrides := v.overrides[k := f])
  }
}
