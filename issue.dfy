/**
 * The drop notification of the reassembler: an issue kind, the cursor value
 * at the time the issue was raised, and an underlying cause.
 */
module Issues {

  /** An issue kind; the original declares it as an unsigned machine integer. */
  newtype IssueType = x: int | 0 <= x < 0x1_0000_0000_0000_0000

  /** The three kinds, numbered consecutively from zero. */
  const Unknown: IssueType := 0
  const PackageLessThanNextSeq: IssueType := 1
  const PanicOccurred: IssueType := 2

  /** An issue over cursor values of type S and causes of type E. */
  datatype Issue<S, E> = Issue(id: IssueType, nextSeq: S, err: E)
  {
    /** Two issues are "the same issue" when they have the same kind. */
    predicate Is(issue: Issue<S, E>) {
      id == issue.id
    }
  }

  /** Builds an issue from its three parts. */
  function NewIssue<S, E>(id: IssueType, nextSeq: S, err: E): (i: Issue<S, E>)
    ensures i.id == id && i.nextSeq == nextSeq && i.err == err
  {
    Issue(id, nextSeq, err)
  }

  /** The kinds are 0, 1 and 2, in declaration order, hence pairwise distinct. */
  lemma KindValues()
    ensures Unknown as int == 0 && PackageLessThanNextSeq as int == 1 && PanicOccurred as int == 2
    ensures Unknown != PackageLessThanNextSeq && PackageLessThanNextSeq != PanicOccurred && Unknown != PanicOccurred
  {
  }

  /** `Is` compares kinds only: the cursor value and the cause play no part. */
  lemma IsComparesKindOnly<S, E>(i: Issue<S, E>, j: Issue<S, E>, nextSeq: S, err: E)
    ensures i.Is(j) <==> i.id == j.id
    ensures i.Is(NewIssue(i.id, nextSeq, err)) && NewIssue(i.id, nextSeq, err).Is(i)
  {
  }

  /** `Is` is an equivalence relation on issues. */
  lemma IsEquivalence<S, E>(i: Issue<S, E>, j: Issue<S, E>, k: Issue<S, E>)
    ensures i.Is(i)
    ensures i.Is(j) <==> j.Is(i)
    ensures i.Is(j) && j.Is(k) ==> i.Is(k)
  {
  }

  /** Issues of different kinds never match, in either direction, whatever else they carry. */
  lemma DistinctKindsDoNotMatch<S, E>(i: Issue<S, E>, j: Issue<S, E>)
    requires i.id != j.id
    ensures !i.Is(j) && !j.Is(i)
  {
  }
}
