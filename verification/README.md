# Specification pattern: a verified model

This project models `Specification<T>`, a Java interface that implements the
Specification Pattern of Evans and Fowler. A specification is a predicate over
a subject of type `T` (`isSatisfiedBy`). Three default methods combine
specifications into new ones without evaluating anything:

- `not()` negates a specification;
- the variadic `and(others...)` is satisfied when the receiver and all others are;
- the variadic `or(others...)` is satisfied when the receiver or one of the others is.

`and` and `or` refuse a null operand array with the message
"Specification(s) needs to be set". Evaluation goes receiver first, then the
others left to right. It stops as soon as the result is known (`&&` with
`allMatch`, `||` with `anyMatch`).

The Dafny model has six modules:

- `Results` holds the `Option` and `Result` wrappers.
- `Specification` holds the tree `Spec<L>` and its builders. The tree has
  leaves, negation, and conjunction or disjunction of a receiver with a
  sequence of others. The builders are `Not`, `And` and `Or`. A null array is
  modelled as `None`, and building then fails with `NullOperands`. It also
  holds `Holds`, the pure `isSatisfiedBy`, which interprets each leaf label
  with a rule `(L, T) -> bool`.
- `Evaluation` holds `Evaluate`, the evaluator used when a leaf rule may fault
  (`(L, T) -> Reply<E>`). It returns the reply together with the leaves it
  invoked, in order, so short-circuiting and fault propagation can be stated.
- `Traces` and `Laws` hold what the evaluator promises and the algebra of the
  builders. Most laws about `Evaluate` equate whole traces, so they also hold
  when leaves fault.
- `Scenarios` holds the data rows of the repository's parameterised test over
  strings. It also has an example showing that a false receiver shields a
  faulting operand.

## Model

| member | source | states |
|---|---|---|
| Specification.Spec.And | specification/src/main/java/io/datanerds/specification/Specification.java:35-38 | building fails exactly when the operand array is null, and then with the invalid-argument message; any non-null array, the empty one included, builds |
| Specification.Spec.Or | specification/src/main/java/io/datanerds/specification/Specification.java:48-51 | building fails exactly when the operand array is null, and then with the invalid-argument message; any non-null array, the empty one included, builds |
| Specification.Spec.Not | specification/src/main/java/io/datanerds/specification/Specification.java:24-26 | `not()` builds the negation without evaluating anything; it carries no contract of its own, and its meaning is stated by `Laws.NotNegates`, `Laws.DoubleNegation` and `Laws.DoubleNegationTrace` |
| Specification.Holds | specification/src/main/java/io/datanerds/specification/Specification.java:17-51 | the pure `isSatisfiedBy` of a tree whose leaf rules never fault; it carries no contract of its own, and `Traces.AgreesWithHolds` ties it to the faulting evaluator on all inputs |
| Specification.AllMatch | specification/src/main/java/io/datanerds/specification/Specification.java:37 | `allMatch` over the others is true exactly when every operand is satisfied, so it is true for no operands |
| Specification.AnyMatch | specification/src/main/java/io/datanerds/specification/Specification.java:50 | `anyMatch` over the others is true exactly when some operand is satisfied, so it is false for no operands |
| Evaluation.Evaluate | specification/src/main/java/io/datanerds/specification/Specification.java:24-51 | every evaluation invokes at least one leaf; a leaf fault ends evaluation at that leaf and reaches the caller unchanged, and every earlier leaf answered |
| Evaluation.EvaluateAll | specification/src/main/java/io/datanerds/specification/Specification.java:37 | the others of `and` invoke no leaf exactly when there are none, answer true when there are none, and a fault ends them where it arises |
| Evaluation.EvaluateAny | specification/src/main/java/io/datanerds/specification/Specification.java:50 | the others of `or` invoke no leaf exactly when there are none, answer false when there are none, and a fault ends them where it arises |
| Traces.AgreesWithHolds | specification/src/main/java/io/datanerds/specification/Specification.java:24-51 | with rules that never fault, the faulting evaluator answers exactly what the pure `isSatisfiedBy` answers |
| Traces.AllAgreesWithAllMatch | specification/src/main/java/io/datanerds/specification/Specification.java:37 | the short-circuiting walk over the others of `and` answers the `allMatch` value |
| Traces.AnyAgreesWithAnyMatch | specification/src/main/java/io/datanerds/specification/Specification.java:50 | the short-circuiting walk over the others of `or` answers the `anyMatch` value |
| Traces.OnlyInvokedLeavesMatter | specification/src/main/java/io/datanerds/specification/Specification.java:24-51 | the result depends only on the leaves invoked: rules that agree on them give the same reply and trace, so a fault in a leaf that is never reached never surfaces |
| Traces.AllOnlyInvokedLeavesMatter | specification/src/main/java/io/datanerds/specification/Specification.java:37 | the same for the others of `and` |
| Traces.AnyOnlyInvokedLeavesMatter | specification/src/main/java/io/datanerds/specification/Specification.java:50 | the same for the others of `or` |
| Traces.AnswerIsPure | specification/src/main/java/io/datanerds/specification/Specification.java:24-51 | when the invoked leaves all answered as some pure rule does, the reply is the pure `isSatisfiedBy` value under that rule |
| Traces.InvokesLeavesInOrder | specification/src/main/java/io/datanerds/specification/Specification.java:24-51 | leaves are invoked in their left-to-right order, receiver before others and others in the given order, with no leaf occurrence invoked twice |
| Traces.AllInvokesLeavesInOrder | specification/src/main/java/io/datanerds/specification/Specification.java:37 | the others of `and` are invoked in the order given, each at most once |
| Traces.AnyInvokesLeavesInOrder | specification/src/main/java/io/datanerds/specification/Specification.java:50 | the others of `or` are invoked in the order given, each at most once |
| Laws.NotNegates | specification/src/main/java/io/datanerds/specification/Specification.java:24-26 | `s.not()` is satisfied exactly when `s` is not |
| Laws.DoubleNegation | specification/src/main/java/io/datanerds/specification/Specification.java:25 | `s.not().not()` agrees with `s` on every subject |
| Laws.DoubleNegationTrace | specification/src/main/java/io/datanerds/specification/Specification.java:25 | `s.not().not()` gives the same reply, fault and invoked leaves as `s` |
| Laws.AndConjoins | specification/src/main/java/io/datanerds/specification/Specification.java:35-38 | `recv.and(os)` builds and is satisfied exactly when `recv` and every operand are |
| Laws.OrDisjoins | specification/src/main/java/io/datanerds/specification/Specification.java:48-51 | `recv.or(os)` builds and is satisfied exactly when `recv` or some operand is |
| Laws.NullOperandsRefused | specification/src/main/java/io/datanerds/specification/Specification.java:36-49 | a null operand array is refused at build time, by both `and` and `or`, with the invalid-argument message; no subject is involved |
| Laws.AndWithoutOthers | specification/src/main/java/io/datanerds/specification/Specification.java:37 | `recv.and()` is evaluated exactly like `recv` |
| Laws.OrWithoutOthers | specification/src/main/java/io/datanerds/specification/Specification.java:50 | `recv.or()` is evaluated exactly like `recv` |
| Laws.AllSplit | specification/src/main/java/io/datanerds/specification/Specification.java:37 | `allMatch` over `xs ++ ys` runs `xs`, and continues into `ys` only when `xs` answered true |
| Laws.AnySplit | specification/src/main/java/io/datanerds/specification/Specification.java:50 | `anyMatch` over `xs ++ ys` runs `xs`, and continues into `ys` only when `xs` answered false |
| Laws.FlattenAnd | specification/src/main/java/io/datanerds/specification/Specification.java:35-38 | `a.and(xs).and(ys)` is evaluated exactly like `a.and(xs ++ ys)`, faults and invoked leaves included |
| Laws.FlattenOr | specification/src/main/java/io/datanerds/specification/Specification.java:48-51 | `a.or(xs).or(ys)` is evaluated exactly like `a.or(xs ++ ys)`, faults and invoked leaves included |
| Laws.FlattenAndHolds | specification/src/test/java/io/datanerds/specification/SpecificationTest.java:23-24 | `a.and(b, c)` agrees with `a.and(b).and(c)` on every subject |
| Laws.FlattenOrHolds | specification/src/test/java/io/datanerds/specification/SpecificationTest.java:25-26 | `a.or(b, c)` agrees with `a.or(b).or(c)` on every subject |
| Laws.AnyOfNegated | specification/src/main/java/io/datanerds/specification/Specification.java:24-50 | `anyMatch` over the negated operands is the negated `allMatch` over the operands, with the same leaves invoked |
| Laws.AllOfNegated | specification/src/main/java/io/datanerds/specification/Specification.java:24-50 | `allMatch` over the negated operands is the negated `anyMatch` over the operands, with the same leaves invoked |
| Laws.DeMorganAnd | specification/src/main/java/io/datanerds/specification/Specification.java:24-51 | `a.and(os).not()` is evaluated exactly like `a.not().or(each of os negated)`, faults and invoked leaves included |
| Laws.DeMorganOr | specification/src/main/java/io/datanerds/specification/Specification.java:24-51 | `a.or(os).not()` is evaluated exactly like `a.not().and(each of os negated)`, faults and invoked leaves included |
| Laws.DeMorganHolds | specification/src/main/java/io/datanerds/specification/Specification.java:24-51 | `a.and(b).not()` agrees with `a.not().or(b.not())` on every subject |
| Laws.AndReceiverDecides | specification/src/main/java/io/datanerds/specification/Specification.java:37 | a receiver that answers false or faults decides `and` alone, and no operand is invoked |
| Laws.OrReceiverDecides | specification/src/main/java/io/datanerds/specification/Specification.java:50 | a receiver that answers true or faults decides `or` alone, and no operand is invoked |
| Laws.AndStopsAtFirstFailure | specification/src/main/java/io/datanerds/specification/Specification.java:37 | the others of `and` run in order up to the first one that is not true; its reply is the result and nothing after it runs |
| Laws.OrStopsAtFirstSuccess | specification/src/main/java/io/datanerds/specification/Specification.java:50 | the others of `or` run in order up to the first one that is not false; its reply is the result and nothing after it runs |
| Laws.AllTrueWhenEachTrue | specification/src/main/java/io/datanerds/specification/Specification.java:37 | when every operand answers true, `allMatch` answers true |
| Laws.AnyFalseWhenEachFalse | specification/src/main/java/io/datanerds/specification/Specification.java:50 | when every operand answers false, `anyMatch` answers false |
| Laws.AndIgnoresRest | specification/src/main/java/io/datanerds/specification/Specification.java:37 | once some operands make `and` not true, appending any operands (faulting ones included) changes neither the reply nor the trace |
| Laws.OrIgnoresRest | specification/src/main/java/io/datanerds/specification/Specification.java:50 | once some operands make `or` not false, appending any operands changes neither the reply nor the trace |
| Scenarios.DatanerdsOccurs | specification/src/test/java/io/datanerds/specification/SpecificationTest.java:17 | `containsDatanerds` holds of every string with "datanerds" inside |
| Scenarios.DatanerdsAbsent | specification/src/test/java/io/datanerds/specification/SpecificationTest.java:17 | `containsDatanerds` fails on strings without an 'n' or shorter than nine characters |
| Scenarios.StartsWithDMeans | specification/src/test/java/io/datanerds/specification/SpecificationTest.java:20 | `startsWithD` holds exactly when the first character is 'd' |
| Scenarios.AndFourMeaning | specification/src/test/java/io/datanerds/specification/SpecificationTest.java:39-41 | the four-operand `and` holds exactly when all four leaf rules hold |
| Scenarios.OrTwoMeaning | specification/src/test/java/io/datanerds/specification/SpecificationTest.java:42-43 | `containsDatanerds.or(startsWithD)` holds exactly when either rule holds |
| Scenarios.OrThreeMeaning | specification/src/test/java/io/datanerds/specification/SpecificationTest.java:46 | the three-operand `or` holds exactly when one of its rules holds |
| Scenarios.NestedMeaning | specification/src/test/java/io/datanerds/specification/SpecificationTest.java:48-51 | `containsDatanerdsAndIsShorterThan15.or(startsWithD)` holds exactly when both inner rules hold or the string starts with 'd' |
| Scenarios.NestedNegatedMeaning | specification/src/test/java/io/datanerds/specification/SpecificationTest.java:52 | the negated nested form holds exactly when the inner conjunction fails or the string starts with 'd' |
| Scenarios.ChainedAndMeaning | specification/src/test/java/io/datanerds/specification/SpecificationTest.java:23-24 | the chained `and` of three holds exactly when the string contains "datanerds", is not longer than 9 and does not start with 'd' |
| Scenarios.ChainedOrMeaning | specification/src/test/java/io/datanerds/specification/SpecificationTest.java:25-26 | the chained `or` of three holds exactly when one of the three negated rules holds |
| Scenarios.AndTwoStopsFirst | specification/src/test/java/io/datanerds/specification/SpecificationTest.java:38 | when `containsDatanerds` answers false, `containsDatanerds.and(startsWithD)` answers false and invokes only that leaf |
| Scenarios.AndFourStopsLast | specification/src/test/java/io/datanerds/specification/SpecificationTest.java:40-41 | when only the last rule fails, the four-operand `and` invokes all four leaves in order and answers false |
| Scenarios.OrTwoStopsLast | specification/src/test/java/io/datanerds/specification/SpecificationTest.java:42 | when the receiver fails and `startsWithD` holds, `or` invokes both leaves and answers true |
| Scenarios.OrFourStopsThird | specification/src/test/java/io/datanerds/specification/SpecificationTest.java:47 | when the third rule is the first to hold, the four-operand `or` never invokes the fourth |
| Scenarios.NotRows | specification/src/test/java/io/datanerds/specification/SpecificationTest.java:31-36 | the six `not()` rows have the expected results |
| Scenarios.AndTwoRows | specification/src/test/java/io/datanerds/specification/SpecificationTest.java:37-38 | the two rows of `containsDatanerds.and(startsWithD)`; on "atanerds" only the receiver is invoked |
| Scenarios.AndFourRowHolds | specification/src/test/java/io/datanerds/specification/SpecificationTest.java:39 | the four-operand `and` holds of "datanerdsss" |
| Scenarios.AndFourRowFails | specification/src/test/java/io/datanerds/specification/SpecificationTest.java:40-41 | the four-operand `and` fails on "datanerdsdatanerds" after invoking all four leaves |
| Scenarios.OrTwoRows | specification/src/test/java/io/datanerds/specification/SpecificationTest.java:42-43 | the two rows of `containsDatanerds.or(startsWithD)`, with the trace on "datafreaks" |
| Scenarios.OrPrefixOrLengthRows | specification/src/test/java/io/datanerds/specification/SpecificationTest.java:44-45 | the two rows of `startsWithD.or(isLongerThan9)` |
| Scenarios.OrManyRows | specification/src/test/java/io/datanerds/specification/SpecificationTest.java:46-47 | the three- and four-operand `or` rows on "1234567890"; the fourth operand is not invoked |
| Scenarios.NestedRowsHold | specification/src/test/java/io/datanerds/specification/SpecificationTest.java:48-50 | the nested form holds of "d" and "datafreaks" |
| Scenarios.NestedRowFails | specification/src/test/java/io/datanerds/specification/SpecificationTest.java:51 | the nested form fails on "atafreaksdatafreaks" |
| Scenarios.NestedNegatedRow | specification/src/test/java/io/datanerds/specification/SpecificationTest.java:52 | the negated nested form holds of "atafreaksdatafreaks" |
| Scenarios.ChainedAndRows | specification/src/test/java/io/datanerds/specification/SpecificationTest.java:53-55 | the chained `and` fails on its three test strings |
| Scenarios.ChainedOrRowFails | specification/src/test/java/io/datanerds/specification/SpecificationTest.java:56 | the chained `or` fails on "datanerdsdatanerds" |
| Scenarios.ChainedOrRowsHold | specification/src/test/java/io/datanerds/specification/SpecificationTest.java:57-59 | the chained `or` holds of "atanerdsdatanerds", "d" and "12345678" |
| Scenarios.GuardShieldsFault | specification/src/main/java/io/datanerds/specification/Specification.java:35-51 | on "", `nonEmpty.and(firstIsD)` answers false without invoking the faulting `firstIsD`; with the operands swapped the fault reaches the caller; `nonEmpty.not().or(firstIsD)` answers true without invoking it |

## Left out

- Null elements inside a non-null operand array are not modelled. In Java such an element throws only when evaluation reaches it, which is the behaviour of a faulting leaf; the model's operands are always specifications.
- The leaf rules are the caller's lambdas. Here they are the parameters `rule` (never faults) and `judge` (may fault), indexed by a leaf label, so that the invoked leaves can be compared.
- Leaf rules are assumed deterministic and stateless: a leaf's reply is a function of its label and the subject only. A Java `isSatisfiedBy` that keeps state and answers differently when the same leaf is reached twice in one evaluation (as in `a.and(a)`) is not represented; `FaultsOnlyAtEnd` and `Traces.AnswerIsPure` rely on this.
- Laziness of the returned closures is represented by the builders taking no subject. `Not`, `And` and `Or` construct a tree and evaluate nothing.
- Exceptions are represented as `Fault` replies of an arbitrary type `E`. Java's stack unwinding, `Error`s and exceptions raised in the stream machinery itself are not modelled.
- Generics, erasure, varargs array allocation and `java.util.stream` internals are not modelled. `others` is a sequence.
- The model copies the operands when building: `And` and `Or` store an immutable sequence, and every `Spec` is a finite tree. The Java closures keep the caller's `others` array itself and stream it again on every `isSatisfiedBy`, so later writes into that array change an already-built specification, and a cycle made through it (`arr[0] = a.and(arr)`) overflows the stack when evaluation reaches the cycle (for `and`, on a subject where `a` holds; where `a` answers false or faults, `&&` stops before `arr[0]`). Neither is represented.
- Thread safety is not modelled: the interface holds no state.
- The JUnit parameterised harness is not modelled; only its data rows are, as lemmas.
- `String.contains` and `String.startsWith` are modelled by simple sequence definitions over `seq<char>` (no UTF-16 surrogates). String length is sequence length.
