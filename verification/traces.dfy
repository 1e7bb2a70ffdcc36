/**
  What the invocation trace of an evaluation reveals: its answer is the pure
  one, it depends only on the leaves it invoked, and it invokes leaves in
  their left-to-right order, each occurrence at most once.
*/
module Traces {
  import opened Specification
  import opened Evaluation

  /**
    With rules that always answer, the faulting evaluator answers exactly what
    the pure query `Holds` answers.
  */
  lemma {:induction false} AgreesWithHolds<L, T, E>(s: Spec<L>, rule: (L, T) -> bool, x: T)
    decreases s
    ensures Evaluate<L, T, E>(s, Lift(rule), x).reply == Answer(Holds(s, rule, x))
  {
    match s
    case Leaf(l) =>
    case Negation(t) => AgreesWithHolds<L, T, E>(t, rule, x);
    case Conjunction(recv, os) =>
      AgreesWithHolds<L, T, E>(recv, rule, x);
      AllAgreesWithAllMatch<L, T, E>(os, rule, x);
    case Disjunction(recv, os) =>
      AgreesWithHolds<L, T, E>(recv, rule, x);
      AnyAgreesWithAnyMatch<L, T, E>(os, rule, x);
  }

  lemma {:induction false} AllAgreesWithAllMatch<L, T, E>(os: seq<Spec<L>>, rule: (L, T) -> bool, x: T)
    decreases os
    ensures EvaluateAll<L, T, E>(os, Lift(rule), x).reply == Answer(AllMatch(os, rule, x))
  {
    if |os| > 0 {
      AgreesWithHolds<L, T, E>(os[0], rule, x);
      AllAgreesWithAllMatch<L, T, E>(os[1..], rule, x);
    }
  }

  lemma {:induction false} AnyAgreesWithAnyMatch<L, T, E>(os: seq<Spec<L>>, rule: (L, T) -> bool, x: T)
    decreases os
    ensures EvaluateAny<L, T, E>(os, Lift(rule), x).reply == Answer(AnyMatch(os, rule, x))
  {
    if |os| > 0 {
      AgreesWithHolds<L, T, E>(os[0], rule, x);
      AnyAgreesWithAnyMatch<L, T, E>(os[1..], rule, x);
    }
  }

  /**
    Evaluation depends only on the leaves it invoked: two rule sets that agree
    on those leaves give the same reply and the same trace. In particular a
    leaf that is never reached may fault without the fault ever surfacing.
  */
  lemma {:induction false} OnlyInvokedLeavesMatter<L, T, E>(s: Spec<L>, judge: (L, T) -> Reply<E>, other: (L, T) -> Reply<E>, x: T)
    decreases s
    requires forall l | l in Evaluate(s, judge, x).invoked :: judge(l, x) == other(l, x)
    ensures Evaluate(s, other, x) == Evaluate(s, judge, x)
  {
    match s
    case Leaf(l) =>
    case Negation(t) => OnlyInvokedLeavesMatter(t, judge, other, x);
    case Conjunction(recv, os) =>
      OnlyInvokedLeavesMatter(recv, judge, other, x);
      if AnsweredTrue(Evaluate(recv, judge, x).reply) {
        AllOnlyInvokedLeavesMatter(os, judge, other, x);
      }
    case Disjunction(recv, os) =>
      OnlyInvokedLeavesMatter(recv, judge, other, x);
      if AnsweredFalse(Evaluate(recv, judge, x).reply) {
        AnyOnlyInvokedLeavesMatter(os, judge, other, x);
      }
  }

  lemma {:induction false} AllOnlyInvokedLeavesMatter<L, T, E>(os: seq<Spec<L>>, judge: (L, T) -> Reply<E>, other: (L, T) -> Reply<E>, x: T)
    decreases os
    requires forall l | l in EvaluateAll(os, judge, x).invoked :: judge(l, x) == other(l, x)
    ensures EvaluateAll(os, other, x) == EvaluateAll(os, judge, x)
  {
    if |os| > 0 {
      OnlyInvokedLeavesMatter(os[0], judge, other, x);
      if AnsweredTrue(Evaluate(os[0], judge, x).reply) {
        AllOnlyInvokedLeavesMatter(os[1..], judge, other, x);
      }
    }
  }

  lemma {:induction false} AnyOnlyInvokedLeavesMatter<L, T, E>(os: seq<Spec<L>>, judge: (L, T) -> Reply<E>, other: (L, T) -> Reply<E>, x: T)
    decreases os
    requires forall l | l in EvaluateAny(os, judge, x).invoked :: judge(l, x) == other(l, x)
    ensures EvaluateAny(os, other, x) == EvaluateAny(os, judge, x)
  {
    if |os| > 0 {
      OnlyInvokedLeavesMatter(os[0], judge, other, x);
      if AnsweredFalse(Evaluate(os[0], judge, x).reply) {
        AnyOnlyInvokedLeavesMatter(os[1..], judge, other, x);
      }
    }
  }

  /**
    When a faulting evaluation answers, its answer is the pure answer under
    any always-answering rule that agrees with it on the leaves it invoked.
  */
  lemma AnswerIsPure<L, T, E>(s: Spec<L>, judge: (L, T) -> Reply<E>, rule: (L, T) -> bool, x: T)
    requires forall l | l in Evaluate(s, judge, x).invoked :: judge(l, x) == Answer(rule(l, x))
    ensures Evaluate(s, judge, x).reply == Answer(Holds(s, rule, x))
  {
    OnlyInvokedLeavesMatter(s, judge, Lift(rule), x);
    AgreesWithHolds<L, T, E>(s, rule, x);
  }

  /** `a` can be obtained from `b` by deleting elements. */
  ghost predicate Subsequence<X>(a: seq<X>, b: seq<X>)
    decreases |b|
  {
    |a| == 0 || (|b| > 0 && (Subsequence(a, b[1..]) || (a[0] == b[0] && Subsequence(a[1..], b[1..]))))
  }

  lemma {:induction false} SubsequenceConcat<X>(a1: seq<X>, b1: seq<X>, a2: seq<X>, b2: seq<X>)
    decreases |b1|
    requires Subsequence(a1, b1) && Subsequence(a2, b2)
    ensures Subsequence(a1 + a2, b1 + b2)
  {
    if |b1| == 0 {
      assert a1 + a2 == a2;
      assert b1 + b2 == b2;
    } else if |a1| == 0 {
      assert a1 + a2 == a2;
      SubsequenceConcat(a1, b1[1..], a2, b2);
      assert (b1 + b2)[1..] == b1[1..] + b2;
    } else if Subsequence(a1, b1[1..]) {
      SubsequenceConcat(a1, b1[1..], a2, b2);
      assert (b1 + b2)[1..] == b1[1..] + b2;
    } else {
      SubsequenceConcat(a1[1..], b1[1..], a2, b2);
      assert (b1 + b2)[1..] == b1[1..] + b2;
      assert (a1 + a2)[1..] == a1[1..] + a2;
    }
  }

  lemma SubsequenceOfPrefix<X>(a: seq<X>, b: seq<X>, c: seq<X>)
    requires Subsequence(a, b)
    ensures Subsequence(a, b + c)
  {
    SubsequenceConcat(a, b, [], c);
    assert a + [] == a;
  }

  /**
    Leaves are invoked in their left-to-right order in the specification and
    no occurrence twice: the receiver before the others, the others in the
    order they were given.
  */
  lemma {:induction false} InvokesLeavesInOrder<L, T, E>(s: Spec<L>, judge: (L, T) -> Reply<E>, x: T)
    decreases s
    ensures Subsequence(Evaluate(s, judge, x).invoked, Leaves(s))
  {
    match s
    case Leaf(l) =>
      assert Subsequence<L>([], []);
    case Negation(t) => InvokesLeavesInOrder(t, judge, x);
    case Conjunction(recv, os) =>
      InvokesLeavesInOrder(recv, judge, x);
      var first := Evaluate(recv, judge, x);
      if AnsweredTrue(first.reply) {
        AllInvokesLeavesInOrder(os, judge, x);
        SubsequenceConcat(first.invoked, Leaves(recv), EvaluateAll(os, judge, x).invoked, LeavesAll(os));
      } else {
        SubsequenceOfPrefix(first.invoked, Leaves(recv), LeavesAll(os));
      }
    case Disjunction(recv, os) =>
      InvokesLeavesInOrder(recv, judge, x);
      var first := Evaluate(recv, judge, x);
      if AnsweredFalse(first.reply) {
        AnyInvokesLeavesInOrder(os, judge, x);
        SubsequenceConcat(first.invoked, Leaves(recv), EvaluateAny(os, judge, x).invoked, LeavesAll(os));
      } else {
        SubsequenceOfPrefix(first.invoked, Leaves(recv), LeavesAll(os));
      }
  }

  lemma {:induction false} AllInvokesLeavesInOrder<L, T, E>(os: seq<Spec<L>>, judge: (L, T) -> Reply<E>, x: T)
    decreases os
    ensures Subsequence(EvaluateAll(os, judge, x).invoked, LeavesAll(os))
  {
    if |os| > 0 {
      InvokesLeavesInOrder(os[0], judge, x);
      var first := Evaluate(os[0], judge, x);
      if AnsweredTrue(first.reply) {
        AllInvokesLeavesInOrder(os[1..], judge, x);
        SubsequenceConcat(first.invoked, Leaves(os[0]), EvaluateAll(os[1..], judge, x).invoked, LeavesAll(os[1..]));
      } else {
        SubsequenceOfPrefix(first.invoked, Leaves(os[0]), LeavesAll(os[1..]));
      }
    }
  }

  lemma {:induction false} AnyInvokesLeavesInOrder<L, T, E>(os: seq<Spec<L>>, judge: (L, T) -> Reply<E>, x: T)
    decreases os
    ensures Subsequence(EvaluateAny(os, judge, x).invoked, LeavesAll(os))
  {
    if |os| > 0 {
      InvokesLeavesInOrder(os[0], judge, x);
      var first := Evaluate(os[0], judge, x);
      if AnsweredFalse(first.reply) {
        AnyInvokesLeavesInOrder(os[1..], judge, x);
        SubsequenceConcat(first.invoked, Leaves(os[0]), EvaluateAny(os[1..], judge, x).invoked, LeavesAll(os[1..]));
      } else {
        SubsequenceOfPrefix(first.invoked, Leaves(os[0]), LeavesAll(os[1..]));
      }
    }
  }
}
