/**
  Evaluation of a specification when leaf rules may raise a fault. The
  evaluator follows the order of `&&` and `||` in `and`/`or`: the receiver
  first, then `allMatch`/`anyMatch` over the further operands left to right,
  stopping at the first operand that decides the result; a fault from a leaf
  ends the evaluation and reaches the caller unchanged. Besides the reply it
  records the leaves it invoked, in invocation order, so that short-circuiting
  can be stated.
*/
module Evaluation {
  import opened Specification

  /** What one `isSatisfiedBy` call produced: an answer or a fault of type `E`. */
  datatype Reply<+E> = Answer(holds: bool) | Fault(error: E)

  /** The reply of an evaluation together with the leaves it invoked, in order. */
  datatype Trace<L, +E> = Trace(reply: Reply<E>, invoked: seq<L>)

  predicate AnsweredTrue<E>(r: Reply<E>) {
    r.Answer? && r.holds
  }

  predicate AnsweredFalse<E>(r: Reply<E>) {
    r.Answer? && !r.holds
  }

  /** `!` applied to a reply: an answer is flipped, a fault passes through. */
  function Negated<E>(r: Reply<E>): Reply<E> {
    if r.Answer? then Answer(!r.holds) else r
  }

  function NegatedTrace<L, E>(t: Trace<L, E>): Trace<L, E> {
    Trace(Negated(t.reply), t.invoked)
  }

  /** Runs `rest` after `first`: the reply is the later one, the invocations accumulate. */
  function Then<L, E>(first: Trace<L, E>, rest: Trace<L, E>): Trace<L, E> {
    Trace(rest.reply, first.invoked + rest.invoked)
  }

  /** A leaf rule that always answers, seen as one that may fault. */
  function Lift<L, T, E>(rule: (L, T) -> bool): (L, T) -> Reply<E> {
    (l, x) => Answer(rule(l, x))
  }

  /**
    A fault stops evaluation where it arises and is passed on unchanged:
    every invoked leaf but the last one answered, and the reply is a fault
    exactly when the last invoked leaf faulted, in which case it is that fault.
  */
  ghost predicate FaultsOnlyAtEnd<L, T, E>(t: Trace<L, E>, judge: (L, T) -> Reply<E>, x: T) {
    && (forall i | 0 <= i < |t.invoked| - 1 :: judge(t.invoked[i], x).Answer?)
    && (|t.invoked| > 0 ==>
          && (t.reply.Fault? <==> judge(t.invoked[|t.invoked| - 1], x).Fault?)
          && (t.reply.Fault? ==> t.reply == judge(t.invoked[|t.invoked| - 1], x)))
  }

  /** `isSatisfiedBy(x)` when leaf rules may fault. */
  function Evaluate<L, T, E>(s: Spec<L>, judge: (L, T) -> Reply<E>, x: T): (r: Trace<L, E>)
    decreases s
    ensures |r.invoked| > 0
    ensures FaultsOnlyAtEnd(r, judge, x)
  {
    match s
    case Leaf(l) => Trace(judge(l, x), [l])
    case Negation(t) => NegatedTrace(Evaluate(t, judge, x))
    case Conjunction(recv, os) =>
      var first := Evaluate(recv, judge, x);
      if AnsweredTrue(first.reply) then Then(first, EvaluateAll(os, judge, x)) else first
    case Disjunction(recv, os) =>
      var first := Evaluate(recv, judge, x);
      if AnsweredFalse(first.reply) then Then(first, EvaluateAny(os, judge, x)) else first
  }

  /** `allMatch` over the further operands of a conjunction; true when there are none. */
  function EvaluateAll<L, T, E>(os: seq<Spec<L>>, judge: (L, T) -> Reply<E>, x: T): (r: Trace<L, E>)
    decreases os
    ensures |r.invoked| == 0 <==> |os| == 0
    ensures |os| == 0 ==> AnsweredTrue(r.reply)
    ensures FaultsOnlyAtEnd(r, judge, x)
  {
    if |os| == 0 then Trace(Answer(true), [])
    else
      var first := Evaluate(os[0], judge, x);
      if AnsweredTrue(first.reply) then Then(first, EvaluateAll(os[1..], judge, x)) else first
  }

  /** `anyMatch` over the further operands of a disjunction; false when there are none. */
  function EvaluateAny<L, T, E>(os: seq<Spec<L>>, judge: (L, T) -> Reply<E>, x: T): (r: Trace<L, E>)
    decreases os
    ensures |r.invoked| == 0 <==> |os| == 0
    ensures |os| == 0 ==> AnsweredFalse(r.reply)
    ensures FaultsOnlyAtEnd(r, judge, x)
  {
    if |os| == 0 then Trace(Answer(false), [])
    else
      var first := Evaluate(os[0], judge, x);
      if AnsweredFalse(first.reply) then Then(first, EvaluateAny(os[1..], judge, x)) else first
  }
}
