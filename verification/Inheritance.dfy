/** Three-state fields and resolved values (crates/remoter-core/src/inherit.rs). */
module Inheritance {
  import opened Base

  // A version 7 UUID, ordered as the 128-bit number its bytes spell.
  type NodeId = nat

  /** The three states of a field: defer upwards, hold a value, or stop at the default. */
  datatype Inherited<+T> = Inherit | Explicit(value: T) | Default

  /** The node that decided a resolved value, and how it did. */
  datatype Provenance = Own(node: NodeId) | Ancestor(node: NodeId) | DefaultAt(node: NodeId) | DefaultAtRoot

  datatype Resolved<+T> = Resolved(value: T, provenance: Provenance)

  function MapInherited<T>(field: Inherited<T>, f: T -> T): Inherited<T> {
    match field
    case Inherit => Inherit
    case Default => Default
    case Explicit(v) => Explicit(f(v))
  }

  function MapOption<S, T>(o: Option<S>, f: S -> T): Option<T> {
    match o
    case None => None
    case Some(v) => Some(f(v))
  }

  /** The provenance with its node renamed. */
  function MapProvenance(p: Provenance, r: NodeId -> NodeId): Provenance {
    match p
    case Own(n) => Own(r(n))
    case Ancestor(n) => Ancestor(r(n))
    case DefaultAt(n) => DefaultAt(r(n))
    case DefaultAtRoot => DefaultAtRoot
  }

  function OrElse<T>(o: Option<T>, otherwise: T): T {
    if o.Some? then o.value else otherwise
  }
}
