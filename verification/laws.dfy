/**
  The algebra of the builders: what `not`, `and` and `or` mean, the identity
  of an empty operand list, flattening of chained calls, double negation,
  De Morgan duality and short-circuiting. Laws about `Evaluate` equate whole
  traces (reply, fault and invoked leaves), so they hold even when leaves
  fault; the laws about `Holds` are the pure consequences.
*/
module Laws {
  import opened Results
  import opened Specification
  import opened Evaluation
  import opened Traces

  /** Each operand negated, in the same order. */
  function NegateAll<L>(os: seq<Spec<L>>): seq<Spec<L>> {
    seq(|os|, i requires 0 <= i < |os| => os[i].Not())
  }

  // ---------------------------------------------------------------- pure meaning

  /** `s.not()` is satisfied exactly when `s` is not. */
  lemma NotNegates<L, T>(s: Spec<L>, rule: (L, T) -> bool, x: T)
    ensures Holds(s.Not(), rule, x) == !Holds(s, rule, x)
  {
  }

  /** `s.not().not()` agrees with `s` on every subject. */
  lemma DoubleNegation<L, T>(s: Spec<L>, rule: (L, T) -> bool, x: T)
    ensures Holds(s.Not().Not(), rule, x) == Holds(s, rule, x)
  {
  }

  /** `recv.and(others)` is satisfied exactly when `recv` and every operand are. */
  lemma AndConjoins<L, T>(recv: Spec<L>, os: seq<Spec<L>>, rule: (L, T) -> bool, x: T)
    ensures recv.And(Some(os)).Success?
    ensures Holds(recv.And(Some(os)).value, rule, x)
        <==> Holds(recv, rule, x) && forall i | 0 <= i < |os| :: Holds(os[i], rule, x)
  {
  }

  /** `recv.or(others)` is satisfied exactly when `recv` or some operand is. */
  lemma OrDisjoins<L, T>(recv: Spec<L>, os: seq<Spec<L>>, rule: (L, T) -> bool, x: T)
    ensures recv.Or(Some(os)).Success?
    ensures Holds(recv.Or(Some(os)).value, rule, x)
        <==> Holds(recv, rule, x) || exists i | 0 <= i < |os| :: Holds(os[i], rule, x)
  {
  }

  /** A null operand array is refused while building, before any subject exists. */
  lemma NullOperandsRefused<L>(recv: Spec<L>)
    ensures recv.And(None) == Failure(NullOperands(OperandsMessage))
    ensures recv.Or(None) == Failure(NullOperands(OperandsMessage))
  {
  }

  // ---------------------------------------------------------------- identities on traces

  /** Double negation changes neither the reply, nor a fault, nor the invoked leaves. */
  lemma DoubleNegationTrace<L, T, E>(s: Spec<L>, judge: (L, T) -> Reply<E>, x: T)
    ensures Evaluate(s.Not().Not(), judge, x) == Evaluate(s, judge, x)
  {
  }

  /** With zero further operands `and` is its receiver (`allMatch` of nothing is true). */
  lemma AndWithoutOthers<L, T, E>(recv: Spec<L>, judge: (L, T) -> Reply<E>, x: T)
    ensures Evaluate(recv.And(Some([])).value, judge, x) == Evaluate(recv, judge, x)
  {
  }

  /** With zero further operands `or` is its receiver (`anyMatch` of nothing is false). */
  lemma OrWithoutOthers<L, T, E>(recv: Spec<L>, judge: (L, T) -> Reply<E>, x: T)
    ensures Evaluate(recv.Or(Some([])).value, judge, x) == Evaluate(recv, judge, x)
  {
  }

  /**
    `allMatch` over `xs + ys` runs `xs` first and continues into `ys` only when
    every operand of `xs` answered true.
  */
  lemma {:induction false} AllSplit<L, T, E>(xs: seq<Spec<L>>, ys: seq<Spec<L>>, judge: (L, T) -> Reply<E>, x: T)
    decreases |xs|
    ensures EvaluateAll(xs + ys, judge, x)
         == if AnsweredTrue(EvaluateAll(xs, judge, x).reply)
            then Then(EvaluateAll(xs, judge, x), EvaluateAll(ys, judge, x))
            else EvaluateAll(xs, judge, x)
  {
    if |xs| == 0 {
      assert xs + ys == ys;
    } else {
      assert (xs + ys)[0] == xs[0];
      assert (xs + ys)[1..] == xs[1..] + ys;
      AllSplit(xs[1..], ys, judge, x);
    }
  }

  /**
    `anyMatch` over `xs + ys` runs `xs` first and continues into `ys` only when
    every operand of `xs` answered false.
  */
  lemma {:induction false} AnySplit<L, T, E>(xs: seq<Spec<L>>, ys: seq<Spec<L>>, judge: (L, T) -> Reply<E>, x: T)
    decreases |xs|
    ensures EvaluateAny(xs + ys, judge, x)
         == if AnsweredFalse(EvaluateAny(xs, judge, x).reply)
            then Then(EvaluateAny(xs, judge, x), EvaluateAny(ys, judge, x))
            else EvaluateAny(xs, judge, x)
  {
    if |xs| == 0 {
      assert xs + ys == ys;
    } else {
      assert (xs + ys)[0] == xs[0];
      assert (xs + ys)[1..] == xs[1..] + ys;
      AnySplit(xs[1..], ys, judge, x);
    }
  }

  /** `a.and(xs).and(ys)` is evaluated exactly like `a.and(xs ++ ys)`. */
  lemma FlattenAnd<L, T, E>(a: Spec<L>, xs: seq<Spec<L>>, ys: seq<Spec<L>>, judge: (L, T) -> Reply<E>, x: T)
    ensures Evaluate(a.And(Some(xs)).value.And(Some(ys)).value, judge, x)
         == Evaluate(a.And(Some(xs + ys)).value, judge, x)
  {
    var first := Evaluate(a, judge, x);
    if AnsweredTrue(first.reply) {
      FlattenConjunction(first, Conjunction(a, xs), Conjunction(a, xs + ys), xs, ys, judge, x);
    }
  }

  /** Running three pieces of a trace back to back does not depend on how they are grouped. */
  lemma ThenAssociates<L, E>(a: Trace<L, E>, b: Trace<L, E>, c: Trace<L, E>)
    ensures Then(Then(a, b), c) == Then(a, Then(b, c))
  {
    assert (a.invoked + b.invoked) + c.invoked == a.invoked + (b.invoked + c.invoked);
  }

  /** The case of `FlattenAnd` where the receiver answered true and the operands are reached. */
  lemma {:induction false} FlattenConjunction<L, T, E>(first: Trace<L, E>, inner: Spec<L>, whole: Spec<L>, xs: seq<Spec<L>>, ys: seq<Spec<L>>, judge: (L, T) -> Reply<E>, x: T)
    requires AnsweredTrue(first.reply)
    requires Evaluate(inner, judge, x) == Then(first, EvaluateAll(xs, judge, x))
    requires Evaluate(whole, judge, x) == Then(first, EvaluateAll(xs + ys, judge, x))
    ensures Evaluate(Conjunction(inner, ys), judge, x) == Evaluate(whole, judge, x)
  {
    var ex, ey := EvaluateAll(xs, judge, x), EvaluateAll(ys, judge, x);
    var before := Evaluate(inner, judge, x);
    AllSplit(xs, ys, judge, x);
    if AnsweredTrue(ex.reply) {
      assert Evaluate(Conjunction(inner, ys), judge, x) == Then(before, ey);
      ThenAssociates(first, ex, ey);
    } else {
      assert Evaluate(Conjunction(inner, ys), judge, x) == before;
    }
  }


  /** `a.or(xs).or(ys)` is evaluated exactly like `a.or(xs ++ ys)`. */
  lemma FlattenOr<L, T, E>(a: Spec<L>, xs: seq<Spec<L>>, ys: seq<Spec<L>>, judge: (L, T) -> Reply<E>, x: T)
    ensures Evaluate(a.Or(Some(xs)).value.Or(Some(ys)).value, judge, x)
         == Evaluate(a.Or(Some(xs + ys)).value, judge, x)
  {
    var first := Evaluate(a, judge, x);
    if AnsweredFalse(first.reply) {
      FlattenDisjunction(first, Disjunction(a, xs), Disjunction(a, xs + ys), xs, ys, judge, x);
    }
  }

  /** The case of `FlattenOr` where the receiver answered false and the operands are reached. */
  lemma {:induction false} FlattenDisjunction<L, T, E>(first: Trace<L, E>, inner: Spec<L>, whole: Spec<L>, xs: seq<Spec<L>>, ys: seq<Spec<L>>, judge: (L, T) -> Reply<E>, x: T)
    requires AnsweredFalse(first.reply)
    requires Evaluate(inner, judge, x) == Then(first, EvaluateAny(xs, judge, x))
    requires Evaluate(whole, judge, x) == Then(first, EvaluateAny(xs + ys, judge, x))
    ensures Evaluate(Disjunction(inner, ys), judge, x) == Evaluate(whole, judge, x)
  {
    var ex, ey := EvaluateAny(xs, judge, x), EvaluateAny(ys, judge, x);
    var before := Evaluate(inner, judge, x);
    AnySplit(xs, ys, judge, x);
    if AnsweredFalse(ex.reply) {
      assert Evaluate(Disjunction(inner, ys), judge, x) == Then(before, ey);
      ThenAssociates(first, ex, ey);
    } else {
      assert Evaluate(Disjunction(inner, ys), judge, x) == before;
    }
  }


  /** `a.and(b, c)` agrees with `a.and(b).and(c)` on every subject. */
  lemma FlattenAndHolds<L, T>(a: Spec<L>, b: Spec<L>, c: Spec<L>, rule: (L, T) -> bool, x: T)
    ensures Holds(a.And(Some([b, c])).value, rule, x) == Holds(a.And(Some([b])).value.And(Some([c])).value, rule, x)
  {
    FlattenAnd<L, T, ()>(a, [b], [c], Lift(rule), x);
    assert [b] + [c] == [b, c];
    AgreesWithHolds<L, T, ()>(a.And(Some([b, c])).value, rule, x);
    AgreesWithHolds<L, T, ()>(a.And(Some([b])).value.And(Some([c])).value, rule, x);
  }

  /** `a.or(b, c)` agrees with `a.or(b).or(c)` on every subject. */
  lemma FlattenOrHolds<L, T>(a: Spec<L>, b: Spec<L>, c: Spec<L>, rule: (L, T) -> bool, x: T)
    ensures Holds(a.Or(Some([b, c])).value, rule, x) == Holds(a.Or(Some([b])).value.Or(Some([c])).value, rule, x)
  {
    FlattenOr<L, T, ()>(a, [b], [c], Lift(rule), x);
    assert [b] + [c] == [b, c];
    AgreesWithHolds<L, T, ()>(a.Or(Some([b, c])).value, rule, x);
    AgreesWithHolds<L, T, ()>(a.Or(Some([b])).value.Or(Some([c])).value, rule, x);
  }

  // ---------------------------------------------------------------- De Morgan

  lemma {:induction false} AnyOfNegated<L, T, E>(os: seq<Spec<L>>, judge: (L, T) -> Reply<E>, x: T)
    decreases |os|
    ensures EvaluateAny(NegateAll(os), judge, x) == NegatedTrace(EvaluateAll(os, judge, x))
  {
    if |os| > 0 {
      assert NegateAll(os)[0] == os[0].Not();
      assert NegateAll(os)[1..] == NegateAll(os[1..]);
      AnyOfNegated(os[1..], judge, x);
    }
  }

  lemma {:induction false} AllOfNegated<L, T, E>(os: seq<Spec<L>>, judge: (L, T) -> Reply<E>, x: T)
    decreases |os|
    ensures EvaluateAll(NegateAll(os), judge, x) == NegatedTrace(EvaluateAny(os, judge, x))
  {
    if |os| > 0 {
      assert NegateAll(os)[0] == os[0].Not();
      assert NegateAll(os)[1..] == NegateAll(os[1..]);
      AllOfNegated(os[1..], judge, x);
    }
  }

  /**
    `a.and(os).not()` is evaluated exactly like `a.not().or(os negated)`: same
    reply, same fault, same leaves invoked in the same order.
  */
  lemma DeMorganAnd<L, T, E>(a: Spec<L>, os: seq<Spec<L>>, judge: (L, T) -> Reply<E>, x: T)
    ensures Evaluate(a.And(Some(os)).value.Not(), judge, x)
         == Evaluate(a.Not().Or(Some(NegateAll(os))).value, judge, x)
  {
    AnyOfNegated(os, judge, x);
  }

  /** `a.or(os).not()` is evaluated exactly like `a.not().and(os negated)`. */
  lemma DeMorganOr<L, T, E>(a: Spec<L>, os: seq<Spec<L>>, judge: (L, T) -> Reply<E>, x: T)
    ensures Evaluate(a.Or(Some(os)).value.Not(), judge, x)
         == Evaluate(a.Not().And(Some(NegateAll(os))).value, judge, x)
  {
    AllOfNegated(os, judge, x);
  }

  /** `a.and(b).not()` agrees with `a.not().or(b.not())` on every subject. */
  lemma DeMorganHolds<L, T>(a: Spec<L>, b: Spec<L>, rule: (L, T) -> bool, x: T)
    ensures Holds(a.And(Some([b])).value.Not(), rule, x) == Holds(a.Not().Or(Some([b.Not()])).value, rule, x)
  {
    DeMorganAnd<L, T, ()>(a, [b], Lift(rule), x);
    assert NegateAll([b]) == [b.Not()];
    AgreesWithHolds<L, T, ()>(a.And(Some([b])).value.Not(), rule, x);
    AgreesWithHolds<L, T, ()>(a.Not().Or(Some([b.Not()])).value, rule, x);
  }

  // ---------------------------------------------------------------- short-circuit

  /** A receiver that does not answer true decides `and` alone; no operand is invoked. */
  lemma AndReceiverDecides<L, T, E>(recv: Spec<L>, os: seq<Spec<L>>, judge: (L, T) -> Reply<E>, x: T)
    requires !AnsweredTrue(Evaluate(recv, judge, x).reply)
    ensures Evaluate(recv.And(Some(os)).value, judge, x) == Evaluate(recv, judge, x)
  {
  }

  /** A receiver that does not answer false decides `or` alone; no operand is invoked. */
  lemma OrReceiverDecides<L, T, E>(recv: Spec<L>, os: seq<Spec<L>>, judge: (L, T) -> Reply<E>, x: T)
    requires !AnsweredFalse(Evaluate(recv, judge, x).reply)
    ensures Evaluate(recv.Or(Some(os)).value, judge, x) == Evaluate(recv, judge, x)
  {
  }

  /**
    The operands of `and` run in order up to the first one that does not
    answer true (false or fault); that one's reply is the reply and nothing
    after it is invoked.
  */
  lemma {:induction false} AndStopsAtFirstFailure<L, T, E>(os: seq<Spec<L>>, k: nat, judge: (L, T) -> Reply<E>, x: T)
    requires k < |os|
    requires forall i | 0 <= i < k :: AnsweredTrue(Evaluate(os[i], judge, x).reply)
    requires !AnsweredTrue(Evaluate(os[k], judge, x).reply)
    ensures AnsweredTrue(EvaluateAll(os[..k], judge, x).reply)
    ensures EvaluateAll(os, judge, x) == Then(EvaluateAll(os[..k], judge, x), Evaluate(os[k], judge, x))
  {
    AllTrueWhenEachTrue(os[..k], judge, x);
    assert os == os[..k] + os[k..];
    AllSplit(os[..k], os[k..], judge, x);
    assert os[k..][0] == os[k];
  }

  /**
    The operands of `or` run in order up to the first one that does not
    answer false (true or fault); that one's reply is the reply and nothing
    after it is invoked.
  */
  lemma {:induction false} OrStopsAtFirstSuccess<L, T, E>(os: seq<Spec<L>>, k: nat, judge: (L, T) -> Reply<E>, x: T)
    requires k < |os|
    requires forall i | 0 <= i < k :: AnsweredFalse(Evaluate(os[i], judge, x).reply)
    requires !AnsweredFalse(Evaluate(os[k], judge, x).reply)
    ensures AnsweredFalse(EvaluateAny(os[..k], judge, x).reply)
    ensures EvaluateAny(os, judge, x) == Then(EvaluateAny(os[..k], judge, x), Evaluate(os[k], judge, x))
  {
    AnyFalseWhenEachFalse(os[..k], judge, x);
    assert os == os[..k] + os[k..];
    AnySplit(os[..k], os[k..], judge, x);
    assert os[k..][0] == os[k];
  }

  lemma {:induction false} AllTrueWhenEachTrue<L, T, E>(os: seq<Spec<L>>, judge: (L, T) -> Reply<E>, x: T)
    decreases |os|
    requires forall i | 0 <= i < |os| :: AnsweredTrue(Evaluate(os[i], judge, x).reply)
    ensures AnsweredTrue(EvaluateAll(os, judge, x).reply)
  {
    if |os| > 0 {
      AllTrueWhenEachTrue(os[1..], judge, x);
    }
  }

  lemma {:induction false} AnyFalseWhenEachFalse<L, T, E>(os: seq<Spec<L>>, judge: (L, T) -> Reply<E>, x: T)
    decreases |os|
    requires forall i | 0 <= i < |os| :: AnsweredFalse(Evaluate(os[i], judge, x).reply)
    ensures AnsweredFalse(EvaluateAny(os, judge, x).reply)
  {
    if |os| > 0 {
      AnyFalseWhenEachFalse(os[1..], judge, x);
    }
  }

  /**
    Once the operands `decided` make `and` not true, whatever operands follow
    (including ones whose leaves would fault) change neither the reply nor
    the invoked leaves.
  */
  lemma AndIgnoresRest<L, T, E>(recv: Spec<L>, decided: seq<Spec<L>>, rest: seq<Spec<L>>, judge: (L, T) -> Reply<E>, x: T)
    requires !AnsweredTrue(EvaluateAll(decided, judge, x).reply)
    ensures Evaluate(recv.And(Some(decided + rest)).value, judge, x) == Evaluate(recv.And(Some(decided)).value, judge, x)
  {
    AllSplit(decided, rest, judge, x);
  }

  /** Once the operands `decided` make `or` not false, whatever follows is never invoked. */
  lemma OrIgnoresRest<L, T, E>(recv: Spec<L>, decided: seq<Spec<L>>, rest: seq<Spec<L>>, judge: (L, T) -> Reply<E>, x: T)
    requires !AnsweredFalse(EvaluateAny(decided, judge, x).reply)
    ensures Evaluate(recv.Or(Some(decided + rest)).value, judge, x) == Evaluate(recv.Or(Some(decided)).value, judge, x)
  {
    AnySplit(decided, rest, judge, x);
  }
}
