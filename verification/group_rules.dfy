/** The tag-group cardinality rule. Four parts of the system classify a
    group by how many of its tags are selected: the review page's group
    panel, the server's content validation, the server's assignment
    pre-check and the snapshot's completion figures. They all use one
    min/max rule, defined once here as `Status`. They differ in how an
    unlimited maximum is written down, which this module also models. */
module GroupRules {
  import opened Common

  /** The upper limit of a group once its stored form has been read. */
  datatype Bound = Unlimited | AtMost(limit: int)

  /** "ok", "missing", and "over" (the server spells it "over_limit"). */
  datatype GroupStatus = Ok | Missing | Over

  /** `count` respects the upper limit. */
  predicate Within(count: int, max: Bound) {
    max.Unlimited? || count <= max.limit
  }

  /** The shared rule: a count below the minimum makes the group missing,
      whatever the maximum. Otherwise a count above a finite maximum makes
      it over. Anything else is ok. */
  function Status(count: int, min: int, max: Bound): (s: GroupStatus)
    ensures s == Missing <==> count < min
    ensures s == Over <==> min <= count && !Within(count, max)
    ensures s == Ok <==> min <= count && Within(count, max)
  {
    if count < min then Missing
    else if max.AtMost? && count > max.limit then Over
    else Ok
  }

  /** The client's `maxReached`: a finite maximum that the count has reached. */
  predicate MaxReached(count: int, max: Bound) {
    max.AtMost? && count >= max.limit
  }

  /** Adding one tag when the maximum has not been reached cannot exceed it. */
  lemma AddBelowMaxStaysWithin(count: int, max: Bound)
    requires !MaxReached(count, max)
    ensures Within(count + 1, max)
  {
  }

  /** Once the maximum is reached, one more tag makes the group over
      (unless it is still missing). */
  lemma MaxReachedThenOneMoreIsOver(count: int, min: int, max: Bound)
    requires MaxReached(count, max) && min <= count + 1
    ensures Status(count + 1, min, max) == Over
  {
  }

  /** Removing tags never repairs a missing group. */
  lemma StatusMonotoneInMissing(c1: int, c2: int, min: int, max: Bound)
    requires c1 <= c2 && Status(c2, min, max) == Missing
    ensures Status(c1, min, max) == Missing
  {
  }

  // ---------------------------------------------------------------
  // How an unlimited maximum is stored, and how each reader reads it
  // ---------------------------------------------------------------

  /** The `max_count` column of `tag_group`: SQL NULL or an integer. */
  datatype StoredMax = NullMax | IntMax(n: int)

  /** The value the config parser without normalisation writes for an
      absent `max` key. */
  const UnlimitedSentinel: int := -1

  /** The normalising loader's rule: -1 (also the default for an absent
      key) becomes NULL, and any other integer is kept. */
  function NormaliseMax(max: int): (m: StoredMax)
    ensures m.NullMax? <==> max == UnlimitedSentinel
    ensures m.IntMax? ==> m.n == max
  {
    if max == UnlimitedSentinel then NullMax else IntMax(max)
  }

  /** Content validation's reading: -1 means unlimited, and any other
      integer is a limit. NULL has no reading (`None`): comparing a count
      with it raises a type error. */
  function ContentValidationBound(m: StoredMax): Option<Bound> {
    match m
    case NullMax => None
    case IntMax(n) => if n == UnlimitedSentinel then Some(Unlimited) else Some(AtMost(n))
  }

  /** The assignment pre-check's reading: NULL means unlimited, and any
      integer is a limit, -1 included. */
  function AssignmentBound(m: StoredMax): Bound {
    match m
    case NullMax => Unlimited
    case IntMax(n) => AtMost(n)
  }

  /** The review panel's reading of `max?: number | null` (default null). */
  function ClientBound(max: Option<int>): Bound {
    match max
    case None => Unlimited
    case Some(n) => AtMost(n)
  }

  /** Where the two server readings agree: on every stored integer except
      the sentinel. */
  lemma ReadingsAgreeOffSentinel(n: int)
    requires n != UnlimitedSentinel
    ensures ContentValidationBound(IntMax(n)) == Some(AssignmentBound(IntMax(n)))
  {
  }

  /** Where they disagree. A stored -1 is unlimited to content validation,
      but to the assignment pre-check it is a limit that every count of
      zero or more exceeds. A stored NULL is unlimited to the pre-check,
      but content validation has no reading for it. */
  lemma ReadingsDisagreeOnSentinels(count: nat, min: int)
    requires min <= count
    ensures ContentValidationBound(IntMax(UnlimitedSentinel)) == Some(Unlimited)
    ensures Status(count, min, AssignmentBound(IntMax(UnlimitedSentinel))) == Over
    ensures AssignmentBound(NullMax) == Unlimited
    ensures ContentValidationBound(NullMax) == None
  {
  }

  /** The normalising loader never stores the sentinel. So the assignment
      pre-check reads every loaded maximum as the configuration meant it,
      and content validation reads none of the unlimited ones. */
  lemma LoadedMaxReadings(max: int)
    ensures AssignmentBound(NormaliseMax(max))
         == (if max == UnlimitedSentinel then Unlimited else AtMost(max))
    ensures ContentValidationBound(NormaliseMax(max)).None? <==> max == UnlimitedSentinel
  {
  }
}
