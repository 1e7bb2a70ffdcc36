/**
  The data rows of the repository's parameterised test, over strings, and a
  guard example showing that `and` never reaches an operand that would fault.
*/
module Scenarios {
  import opened Results
  import opened Specification
  import opened Evaluation
  import opened Laws

  /** `s` begins with `p` (`String.startsWith`). */
  predicate StartsWith(s: string, p: string) {
    |p| <= |s| && s[..|p|] == p
  }

  /** `p` occurs in `s` as a contiguous block (`String.contains`). */
  predicate Contains(s: string, p: string) {
    exists i | 0 <= i <= |s| - |p| :: StartsWith(s[i..], p)
  }

  /** A text made of `u`, then `p`, then `t` contains `p`. */
  lemma Occurs(u: string, p: string, t: string)
    ensures Contains(u + p + t, p)
  {
    var s := u + p + t;
    assert s[|u|..][..|p|] == p;
    assert StartsWith(s[|u|..], p);
  }

  /** A pattern holding a character the text lacks does not occur in it. */
  lemma MissingCharacter(s: string, p: string, c: char)
    requires c in p && c !in s
    ensures !Contains(s, p)
  {
  }

  /** Starting with a one-character string means having that first character. */
  lemma StartsWithCharacter(s: string, c: char)
    ensures StartsWith(s, [c]) <==> |s| > 0 && s[0] == c
  {
    if |s| > 0 {
      assert s[..1] == [s[0]];
    }
  }

  /** The four leaf rules of the test. */
  datatype StringRule = ContainsDatanerds | IsLongerThan9 | IsShorterThan15 | StartsWithD

  predicate Check(rule: StringRule, s: string) {
    match rule
    case ContainsDatanerds => Contains(s, "datanerds")
    case IsLongerThan9 => |s| > 9
    case IsShorterThan15 => |s| < 15
    case StartsWithD => |s| > 0 && StartsWith(s, "d")
  }

  /** The test's rules, which never fault, as seen by the faulting evaluator (fault type `()`). */
  const checking: (StringRule, string) -> Reply<()> := Lift(Check)

  lemma CheckingAnswers(rule: StringRule, s: string)
    ensures checking(rule, s) == Answer(Check(rule, s))
  {
  }

  const containsDatanerds: Spec<StringRule> := Leaf(ContainsDatanerds)
  const isLongerThan9: Spec<StringRule> := Leaf(IsLongerThan9)
  const isShorterThan15: Spec<StringRule> := Leaf(IsShorterThan15)
  const startsWithD: Spec<StringRule> := Leaf(StartsWithD)
  const containsDatanerdsAndIsShorterThan15: Spec<StringRule> :=
    containsDatanerds.And(Some([isShorterThan15])).value
  const contDNAndIsNotLTh9AndNotStartsWD: Spec<StringRule> :=
    containsDatanerds.And(Some([isLongerThan9.Not()])).value.And(Some([startsWithD.Not()])).value
  const contDNOrIsNotLTh9OrNotStartsWD: Spec<StringRule> :=
    containsDatanerds.Not().Or(Some([isLongerThan9.Not()])).value.Or(Some([startsWithD.Not()])).value

  // What the `containsDatanerds` leaf answers on the test's strings.

  lemma DatanerdsOccurs(u: string, t: string)
    ensures Check(ContainsDatanerds, u + "datanerds" + t)
  {
    Occurs(u, "datanerds", t);
  }

  /** What the `startsWithD` leaf answers: whether the first character is 'd'. */
  lemma StartsWithDMeans(s: string)
    ensures Check(StartsWithD, s) <==> |s| > 0 && s[0] == 'd'
  {
    StartsWithCharacter(s, 'd');
    assert "d" == ['d'];
  }

  lemma DatanerdsAbsent(s: string)
    requires 'n' !in s || |s| < 9
    ensures !Check(ContainsDatanerds, s)
  {
    if 'n' !in s {
      MissingCharacter(s, "datanerds", 'n');
    }
  }

  // The compound specifications of the test in terms of their leaves, for an
  // arbitrary subject and, for traces, arbitrary leaf rules.

  lemma AndTwoStopsFirst<E>(judge: (StringRule, string) -> Reply<E>, s: string)
    requires judge(ContainsDatanerds, s) == Answer(false)
    ensures Evaluate(containsDatanerds.And(Some([startsWithD])).value, judge, s)
         == Trace(Answer(false), [ContainsDatanerds])
  {
    assert Evaluate(containsDatanerds, judge, s) == Trace(Answer(false), [ContainsDatanerds]);
  }

  lemma AndFourMeaning(s: string)
    ensures Holds(containsDatanerds.And(Some([startsWithD, isLongerThan9, isShorterThan15])).value, Check, s)
        <==> Check(ContainsDatanerds, s) && Check(StartsWithD, s) && Check(IsLongerThan9, s) && Check(IsShorterThan15, s)
  {
    var os := [startsWithD, isLongerThan9, isShorterThan15];
    AndConjoins(containsDatanerds, os, Check, s);
    assert Holds(os[0], Check, s) == Check(StartsWithD, s);
    assert Holds(os[1], Check, s) == Check(IsLongerThan9, s);
    assert Holds(os[2], Check, s) == Check(IsShorterThan15, s);
  }

  lemma AndFourStopsLast<E>(judge: (StringRule, string) -> Reply<E>, s: string)
    requires judge(ContainsDatanerds, s) == Answer(true) && judge(StartsWithD, s) == Answer(true)
    requires judge(IsLongerThan9, s) == Answer(true) && judge(IsShorterThan15, s) == Answer(false)
    ensures Evaluate(containsDatanerds.And(Some([startsWithD, isLongerThan9, isShorterThan15])).value, judge, s)
         == Trace(Answer(false), [ContainsDatanerds, StartsWithD, IsLongerThan9, IsShorterThan15])
  {
    var os := [startsWithD, isLongerThan9, isShorterThan15];
    assert os[1..] == [isLongerThan9, isShorterThan15];
    assert os[1..][1..] == [isShorterThan15];
    assert Evaluate(isShorterThan15, judge, s) == Trace(Answer(false), [IsShorterThan15]);
    assert EvaluateAll(os[1..][1..], judge, s) == Trace(Answer(false), [IsShorterThan15]);
    assert Evaluate(isLongerThan9, judge, s) == Trace(Answer(true), [IsLongerThan9]);
    assert EvaluateAll(os[1..], judge, s) == Trace(Answer(false), [IsLongerThan9, IsShorterThan15]);
    assert Evaluate(startsWithD, judge, s) == Trace(Answer(true), [StartsWithD]);
    assert EvaluateAll(os, judge, s) == Trace(Answer(false), [StartsWithD, IsLongerThan9, IsShorterThan15]);
  }

  lemma OrTwoMeaning(s: string)
    ensures Holds(containsDatanerds.Or(Some([startsWithD])).value, Check, s)
        <==> Check(ContainsDatanerds, s) || Check(StartsWithD, s)
  {
    OrDisjoins(containsDatanerds, [startsWithD], Check, s);
  }

  lemma OrTwoStopsLast<E>(judge: (StringRule, string) -> Reply<E>, s: string)
    requires judge(ContainsDatanerds, s) == Answer(false) && judge(StartsWithD, s) == Answer(true)
    ensures Evaluate(containsDatanerds.Or(Some([startsWithD])).value, judge, s)
         == Trace(Answer(true), [ContainsDatanerds, StartsWithD])
  {
    assert Evaluate(startsWithD, judge, s) == Trace(Answer(true), [StartsWithD]);
    assert EvaluateAny([startsWithD], judge, s) == Trace(Answer(true), [StartsWithD]);
    assert Evaluate(containsDatanerds, judge, s) == Trace(Answer(false), [ContainsDatanerds]);
  }

  lemma OrThreeMeaning(s: string)
    ensures Holds(containsDatanerds.Or(Some([startsWithD, isLongerThan9])).value, Check, s)
        <==> Check(ContainsDatanerds, s) || Check(StartsWithD, s) || Check(IsLongerThan9, s)
  {
    var os := [startsWithD, isLongerThan9];
    OrDisjoins(containsDatanerds, os, Check, s);
    assert Holds(os[0], Check, s) == Check(StartsWithD, s);
    assert Holds(os[1], Check, s) == Check(IsLongerThan9, s);
  }

  lemma OrFourStopsThird<E>(judge: (StringRule, string) -> Reply<E>, s: string)
    requires judge(ContainsDatanerds, s) == Answer(false) && judge(StartsWithD, s) == Answer(false)
    requires judge(IsLongerThan9, s) == Answer(true)
    ensures Evaluate(containsDatanerds.Or(Some([startsWithD, isLongerThan9, isShorterThan15])).value, judge, s)
         == Trace(Answer(true), [ContainsDatanerds, StartsWithD, IsLongerThan9])
  {
    var os := [startsWithD, isLongerThan9, isShorterThan15];
    assert os[1..] == [isLongerThan9, isShorterThan15];
    assert Evaluate(isLongerThan9, judge, s) == Trace(Answer(true), [IsLongerThan9]);
    assert EvaluateAny(os[1..], judge, s) == Trace(Answer(true), [IsLongerThan9]);
    assert Evaluate(startsWithD, judge, s) == Trace(Answer(false), [StartsWithD]);
    assert EvaluateAny(os, judge, s) == Trace(Answer(true), [StartsWithD, IsLongerThan9]);
    assert Evaluate(containsDatanerds, judge, s) == Trace(Answer(false), [ContainsDatanerds]);
  }

  lemma NestedMeaning(s: string)
    ensures Holds(containsDatanerdsAndIsShorterThan15.Or(Some([startsWithD])).value, Check, s)
        <==> (Check(ContainsDatanerds, s) && Check(IsShorterThan15, s)) || Check(StartsWithD, s)
  {
    AndConjoins(containsDatanerds, [isShorterThan15], Check, s);
    OrDisjoins(containsDatanerdsAndIsShorterThan15, [startsWithD], Check, s);
  }

  lemma NestedNegatedMeaning(s: string)
    ensures Holds(containsDatanerdsAndIsShorterThan15.Not().Or(Some([startsWithD])).value, Check, s)
        <==> !(Check(ContainsDatanerds, s) && Check(IsShorterThan15, s)) || Check(StartsWithD, s)
  {
    AndConjoins(containsDatanerds, [isShorterThan15], Check, s);
    OrDisjoins(containsDatanerdsAndIsShorterThan15.Not(), [startsWithD], Check, s);
  }

  lemma ChainedAndMeaning(s: string)
    ensures Holds(contDNAndIsNotLTh9AndNotStartsWD, Check, s)
        <==> Check(ContainsDatanerds, s) && !Check(IsLongerThan9, s) && !Check(StartsWithD, s)
  {
    AndConjoins(containsDatanerds, [isLongerThan9.Not()], Check, s);
    AndConjoins(containsDatanerds.And(Some([isLongerThan9.Not()])).value, [startsWithD.Not()], Check, s);
  }

  lemma ChainedOrMeaning(s: string)
    ensures Holds(contDNOrIsNotLTh9OrNotStartsWD, Check, s)
        <==> !Check(ContainsDatanerds, s) || !Check(IsLongerThan9, s) || !Check(StartsWithD, s)
  {
    OrDisjoins(containsDatanerds.Not(), [isLongerThan9.Not()], Check, s);
    OrDisjoins(containsDatanerds.Not().Or(Some([isLongerThan9.Not()])).value, [startsWithD.Not()], Check, s);
  }

  // The test rows, one lemma per specification under test.

  /** Rows for `containsDatanerds.not()`, `isLongerThan9.not()` and `startsWithD.not()`. */
  lemma NotRows()
    ensures Holds(containsDatanerds.Not(), Check, "datafreaks")
    ensures !Holds(containsDatanerds.Not(), Check, "datanerds")
    ensures !Holds(isLongerThan9.Not(), Check, "datanerdss")
    ensures Holds(isLongerThan9.Not(), Check, "data")
    ensures !Holds(startsWithD.Not(), Check, "datanerds")
    ensures Holds(startsWithD.Not(), Check, "atanerds")
  {
    DatanerdsAbsent("datafreaks");
    DatanerdsOccurs("", "");
    assert "" + "datanerds" + "" == "datanerds";
    StartsWithDMeans("datanerds");
    StartsWithDMeans("atanerds");
  }

  /** Rows for `containsDatanerds.and(startsWithD)`; a false receiver is the only leaf invoked. */
  lemma AndTwoRows()
    ensures Holds(containsDatanerds.And(Some([startsWithD])).value, Check, "datanerds")
    ensures Evaluate(containsDatanerds.And(Some([startsWithD])).value, checking, "atanerds")
         == Trace(Answer(false), [ContainsDatanerds])
  {
    DatanerdsOccurs("", "");
    assert "" + "datanerds" + "" == "datanerds";
    AndConjoins(containsDatanerds, [startsWithD], Check, "datanerds");
    DatanerdsAbsent("atanerds");
    AndTwoStopsFirst(checking, "atanerds");
  }

  /** Row: `containsDatanerds.and(startsWithD, isLongerThan9, isShorterThan15)` holds of "datanerdsss". */
  lemma AndFourRowHolds()
    ensures Holds(containsDatanerds.And(Some([startsWithD, isLongerThan9, isShorterThan15])).value, Check, "datanerdsss")
  {
    DatanerdsOccurs("", "ss");
    assert "" + "datanerds" + "ss" == "datanerdsss";
    AndFourMeaning("datanerdsss");
  }

  /** Row: the same fails on "datanerdsdatanerds", after invoking all four leaves. */
  lemma AndFourRowFails()
    ensures Evaluate(containsDatanerds.And(Some([startsWithD, isLongerThan9, isShorterThan15])).value, checking, "datanerdsdatanerds")
         == Trace(Answer(false), [ContainsDatanerds, StartsWithD, IsLongerThan9, IsShorterThan15])
  {
    DatanerdsOccurs("", "datanerds");
    assert "" + "datanerds" + "datanerds" == "datanerdsdatanerds";
    StartsWithDMeans("datanerdsdatanerds");
    var s := "datanerdsdatanerds";
    assert |s| == 18;
    CheckingAnswers(IsLongerThan9, s);
    CheckingAnswers(IsShorterThan15, s);
    AndFourStopsLast(checking, s);
  }

  /** Rows for `containsDatanerds.or(startsWithD)`. */
  lemma OrTwoRows()
    ensures Evaluate(containsDatanerds.Or(Some([startsWithD])).value, checking, "datafreaks")
         == Trace(Answer(true), [ContainsDatanerds, StartsWithD])
    ensures !Holds(containsDatanerds.Or(Some([startsWithD])).value, Check, "atafreaks")
  {
    DatanerdsAbsent("datafreaks");
    DatanerdsAbsent("atafreaks");
    StartsWithDMeans("datafreaks");
    StartsWithDMeans("atafreaks");
    OrTwoStopsLast(checking, "datafreaks");
    OrTwoMeaning("atafreaks");
  }

  /** Rows for `startsWithD.or(isLongerThan9)`. */
  lemma OrPrefixOrLengthRows()
    ensures Holds(startsWithD.Or(Some([isLongerThan9])).value, Check, "1234567890")
    ensures !Holds(startsWithD.Or(Some([isLongerThan9])).value, Check, "1")
  {
    OrDisjoins(startsWithD, [isLongerThan9], Check, "1234567890");
    OrDisjoins(startsWithD, [isLongerThan9], Check, "1");
    StartsWithDMeans("1");
  }

  /** Rows for `or` with three and four operands; the fourth is never invoked. */
  lemma OrManyRows()
    ensures Holds(containsDatanerds.Or(Some([startsWithD, isLongerThan9])).value, Check, "1234567890")
    ensures Evaluate(containsDatanerds.Or(Some([startsWithD, isLongerThan9, isShorterThan15])).value, checking, "1234567890")
         == Trace(Answer(true), [ContainsDatanerds, StartsWithD, IsLongerThan9])
  {
    DatanerdsAbsent("1234567890");
    StartsWithDMeans("1234567890");
    OrThreeMeaning("1234567890");
    OrFourStopsThird(checking, "1234567890");
  }

  /** Rows: `containsDatanerdsAndIsShorterThan15.or(startsWithD)` holds of "d" and "datafreaks". */
  lemma NestedRowsHold()
    ensures Holds(containsDatanerdsAndIsShorterThan15.Or(Some([startsWithD])).value, Check, "d")
    ensures Holds(containsDatanerdsAndIsShorterThan15.Or(Some([startsWithD])).value, Check, "datafreaks")
  {
    NestedMeaning("d");
    NestedMeaning("datafreaks");
  }

  /** Row: the same fails on "atafreaksdatafreaks". */
  lemma NestedRowFails()
    ensures !Holds(containsDatanerdsAndIsShorterThan15.Or(Some([startsWithD])).value, Check, "atafreaksdatafreaks")
  {
    DatanerdsAbsent("atafreaksdatafreaks");
    StartsWithDMeans("atafreaksdatafreaks");
    NestedMeaning("atafreaksdatafreaks");
  }

  /** Row: `containsDatanerdsAndIsShorterThan15.not().or(startsWithD)` holds of "atafreaksdatafreaks". */
  lemma NestedNegatedRow()
    ensures Holds(containsDatanerdsAndIsShorterThan15.Not().Or(Some([startsWithD])).value, Check, "atafreaksdatafreaks")
  {
    DatanerdsAbsent("atafreaksdatafreaks");
    NestedNegatedMeaning("atafreaksdatafreaks");
  }

  /** Rows for the chained `containsDatanerds.and(isLongerThan9.not()).and(startsWithD.not())`. */
  lemma ChainedAndRows()
    ensures !Holds(contDNAndIsNotLTh9AndNotStartsWD, Check, "datanerdsdatanerds")
    ensures !Holds(contDNAndIsNotLTh9AndNotStartsWD, Check, "atanerdsdatanerds")
    ensures !Holds(contDNAndIsNotLTh9AndNotStartsWD, Check, "datanerds")
  {
    ChainedAndMeaning("datanerdsdatanerds");
    ChainedAndMeaning("atanerdsdatanerds");
    ChainedAndMeaning("datanerds");
  }

  /** Row: the chained `containsDatanerds.not().or(isLongerThan9.not()).or(startsWithD.not())` fails on "datanerdsdatanerds". */
  lemma ChainedOrRowFails()
    ensures !Holds(contDNOrIsNotLTh9OrNotStartsWD, Check, "datanerdsdatanerds")
  {
    DatanerdsOccurs("", "datanerds");
    assert "" + "datanerds" + "datanerds" == "datanerdsdatanerds";
    ChainedOrMeaning("datanerdsdatanerds");
  }

  /** Rows: the same holds of "atanerdsdatanerds", "d" and "12345678". */
  lemma ChainedOrRowsHold()
    ensures Holds(contDNOrIsNotLTh9OrNotStartsWD, Check, "atanerdsdatanerds")
    ensures Holds(contDNOrIsNotLTh9OrNotStartsWD, Check, "d")
    ensures Holds(contDNOrIsNotLTh9OrNotStartsWD, Check, "12345678")
  {
    StartsWithDMeans("atanerdsdatanerds");
    ChainedOrMeaning("atanerdsdatanerds");
    ChainedOrMeaning("d");
    ChainedOrMeaning("12345678");
  }

  /** Leaf rules for the guard example: reading the first character of "" faults. */
  datatype Probe = NonEmpty | FirstIsD
  datatype StringFault = IndexOutOfBounds

  function Probing(p: Probe, s: string): Reply<StringFault> {
    match p
    case NonEmpty => Answer(|s| > 0)
    case FirstIsD => if |s| == 0 then Fault(IndexOutOfBounds) else Answer(s[0] == 'd')
  }

  /**
    A false receiver shields a faulting operand: `nonEmpty.and(firstIsD)` on ""
    answers false and never invokes `firstIsD`; with the operands swapped the
    fault reaches the caller unchanged; a true receiver of `or` shields it too.
  */
  lemma GuardShieldsFault()
    ensures Evaluate(Leaf(NonEmpty).And(Some([Leaf(FirstIsD)])).value, Probing, "")
         == Trace(Answer(false), [NonEmpty])
    ensures Evaluate(Leaf(FirstIsD).And(Some([Leaf(NonEmpty)])).value, Probing, "")
         == Trace(Fault(IndexOutOfBounds), [FirstIsD])
    ensures Evaluate(Leaf(NonEmpty).Not().Or(Some([Leaf(FirstIsD)])).value, Probing, "")
         == Trace(Answer(true), [NonEmpty])
  {
  }
}
