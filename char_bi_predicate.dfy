/** CharBiPredicate's combinators. A predicate is a partial function on
    two chars: where it is undefined, calling it would fail, so a
    combinator that is defined without its second operand's answer shows
    that the operand is not consulted. */
module CharBiPredicates {

  type CharBiPredicate = (char, char) --> bool

  /** negate(): the opposite answer wherever this predicate answers. */
  function Negate(p: CharBiPredicate): (r: CharBiPredicate)
    ensures forall a, b :: p.requires(a, b) ==> r.requires(a, b)
    ensures forall a, b :: p.requires(a, b) ==> r(a, b) == !p(a, b)
  {
    (a: char, b: char) requires p.requires(a, b) => !p(a, b)
  }

  /** and(q): p's answer, and q's only when p said true. */
  function And(p: CharBiPredicate, q: CharBiPredicate): (r: CharBiPredicate)
    ensures forall a, b :: p.requires(a, b) && (p(a, b) ==> q.requires(a, b)) ==> r.requires(a, b)
    ensures forall a, b :: p.requires(a, b) && (p(a, b) ==> q.requires(a, b)) ==> (r(a, b) <==> p(a, b) && q(a, b))
  {
    (a: char, b: char) requires p.requires(a, b) && (p(a, b) ==> q.requires(a, b)) => p(a, b) && q(a, b)
  }

  /** or(q): p's answer, and q's only when p said false. */
  function Or(p: CharBiPredicate, q: CharBiPredicate): (r: CharBiPredicate)
    ensures forall a, b :: p.requires(a, b) && (!p(a, b) ==> q.requires(a, b)) ==> r.requires(a, b)
    ensures forall a, b :: p.requires(a, b) && (!p(a, b) ==> q.requires(a, b)) ==> (r(a, b) <==> p(a, b) || q(a, b))
  {
    (a: char, b: char) requires p.requires(a, b) && (!p(a, b) ==> q.requires(a, b)) => p(a, b) || q(a, b)
  }

  /** Where p says false, and(q) answers false even if q could not be
      called there. */
  lemma AndShortCircuits(p: CharBiPredicate, q: CharBiPredicate, a: char, b: char)
    requires p.requires(a, b) && !p(a, b)
    ensures And(p, q).requires(a, b) && !And(p, q)(a, b)
  {
  }

  /** Where p says true, or(q) answers true even if q could not be called
      there. */
  lemma OrShortCircuits(p: CharBiPredicate, q: CharBiPredicate, a: char, b: char)
    requires p.requires(a, b) && p(a, b)
    ensures Or(p, q).requires(a, b) && Or(p, q)(a, b)
  {
  }

  /** Negating twice gives back the predicate, point by point. */
  lemma NegateTwice(p: CharBiPredicate, a: char, b: char)
    requires p.requires(a, b)
    ensures Negate(Negate(p)).requires(a, b) && Negate(Negate(p))(a, b) == p(a, b)
  {
  }

  /** De Morgan over the combinators: negating and(q) is or over the
      negations, on total predicates. */
  lemma NegateAnd(p: CharBiPredicate, q: CharBiPredicate, a: char, b: char)
    requires p.requires(a, b) && q.requires(a, b)
    ensures Negate(And(p, q))(a, b) == Or(Negate(p), Negate(q))(a, b)
  {
  }
}
