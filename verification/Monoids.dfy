/** Operations whose results do not depend on how they are grouped. */
module Monoids {

  ghost predicate Associative<V(!new)>(op: (V, V) -> V, unit: V) {
    && (forall a :: op(unit, a) == a && op(a, unit) == a)
    && forall a, b, c {:trigger op(op(a, b), c)} {:trigger op(a, op(b, c))} :: op(op(a, b), c) == op(a, op(b, c))
  }
}
