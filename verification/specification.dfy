/**
  The specification abstraction: a tree of caller-supplied leaf rules combined
  with negation, variadic conjunction and variadic disjunction, together with
  the builders `Not`, `And`, `Or` and the pure query `Holds` (`isSatisfiedBy`).

  A leaf is identified by a label of type `L`; what a label decides about a
  subject of type `T` is given by an interpretation `rule: (L, T) -> bool`,
  which stands for the anonymous implementation the caller wrote.
*/
module Specification {
  import opened Results

  /** Message of the invalid-argument fault raised when `others` is null. */
  const OperandsMessage: string := "Specification(s) needs to be set"

  /** The only error a builder reports: the array of further operands was null. */
  datatype BuildError = NullOperands(message: string)

  datatype Spec<L> =
    | Leaf(rule: L)
    | Negation(negated: Spec<L>)
    | Conjunction(receiver: Spec<L>, others: seq<Spec<L>>)
    | Disjunction(receiver: Spec<L>, others: seq<Spec<L>>)
  {
    /** `not()`: a new specification that negates this one; nothing is evaluated. */
    function Not(): Spec<L>
    {
      Negation(this)
    }

    /**
      `and(others...)`: fails with an invalid argument when the operand array is
      null; otherwise a new conjunction of this specification (first) and the
      operands (in the given order). Nothing is evaluated.
    */
    function And(operands: Option<seq<Spec<L>>>): (r: Result<Spec<L>, BuildError>)
      ensures r.Failure? <==> operands.None?
      ensures r.Failure? ==> r.error == NullOperands(OperandsMessage)
    {
      match operands
      case None => Failure(NullOperands(OperandsMessage))
      case Some(os) => Success(Conjunction(this, os))
    }

    /** `or(others...)`: as `And`, building a disjunction instead. */
    function Or(operands: Option<seq<Spec<L>>>): (r: Result<Spec<L>, BuildError>)
      ensures r.Failure? <==> operands.None?
      ensures r.Failure? ==> r.error == NullOperands(OperandsMessage)
    {
      match operands
      case None => Failure(NullOperands(OperandsMessage))
      case Some(os) => Success(Disjunction(this, os))
    }
  }

  /** The leaf labels of a specification, left to right. */
  function Leaves<L>(s: Spec<L>): seq<L>
    decreases s
  {
    match s
    case Leaf(l) => [l]
    case Negation(t) => Leaves(t)
    case Conjunction(recv, os) => Leaves(recv) + LeavesAll(os)
    case Disjunction(recv, os) => Leaves(recv) + LeavesAll(os)
  }

  function LeavesAll<L>(os: seq<Spec<L>>): seq<L>
    decreases os
  {
    if |os| == 0 then [] else Leaves(os[0]) + LeavesAll(os[1..])
  }

  /** `isSatisfiedBy(x)` for leaf rules that always answer. */
  function Holds<L, T>(s: Spec<L>, rule: (L, T) -> bool, x: T): bool
    decreases s
  {
    match s
    case Leaf(l) => rule(l, x)
    case Negation(t) => !Holds(t, rule, x)
    case Conjunction(recv, os) => Holds(recv, rule, x) && AllMatch(os, rule, x)
    case Disjunction(recv, os) => Holds(recv, rule, x) || AnyMatch(os, rule, x)
  }

  /** `stream(others).allMatch(o -> o.isSatisfiedBy(x))`, walked left to right. */
  function AllMatch<L, T>(os: seq<Spec<L>>, rule: (L, T) -> bool, x: T): (r: bool)
    decreases os
    ensures r <==> forall i | 0 <= i < |os| :: Holds(os[i], rule, x)
  {
    if |os| == 0 then true
    else Holds(os[0], rule, x) && AllMatch(os[1..], rule, x)
  }

  /** `stream(others).anyMatch(o -> o.isSatisfiedBy(x))`, walked left to right. */
  function AnyMatch<L, T>(os: seq<Spec<L>>, rule: (L, T) -> bool, x: T): (r: bool)
    decreases os
    ensures r <==> exists i | 0 <= i < |os| :: Holds(os[i], rule, x)
  {
    if |os| == 0 then false
    else Holds(os[0], rule, x) || AnyMatch(os[1..], rule, x)
  }
}
