/** Server-side validation of the tags stored for one content item: every
    tag group is classified by how many of its tags the item carries, and
    the classifications are summed into a single `valid` flag. The per-group
    counts come from an SQL aggregate; they are this model's input. */
module ContentValidation {
  import opened Common
  import opened GroupRules

  /** One row of the count query: a tag group (in position order) and the
      number of its tags assigned to the content item. */
  datatype CountRow = CountRow(groupId: string, required: bool, min: int, max: StoredMax, count: nat)

  /** One entry of the `groups` list in the response. */
  datatype GroupEntry = GroupEntry(
    id: string, required: bool, min: int, max: StoredMax, count: nat, status: GroupStatus)

  datatype Summary = Summary(missingRequired: nat, overLimit: nat)

  datatype Validation = Validation(contentId: string, valid: bool, summary: Summary, groups: seq<GroupEntry>)

  /** Validation either returns a result or raises: a group whose stored
      maximum is NULL and whose count is not below its minimum reaches the
      comparison `count > None`, which Python rejects with a type error. */
  datatype Outcome = Validated(validation: Validation) | NullMaxTypeError(groupId: string)

  predicate RequiredMissing(e: GroupEntry) { e.required && e.status == Missing }

  predicate OverLimit(e: GroupEntry) { e.status == Over }

  /** The row makes validation raise. */
  predicate Raises(r: CountRow) { r.max.NullMax? && r.count >= r.min }

  /** `e` is the entry for row `r`: it echoes the row and carries the status
      of the shared rule under content validation's reading of the maximum
      (a NULL maximum can only appear here on a missing group). */
  predicate Classified(r: CountRow, e: GroupEntry) {
    && e.id == r.groupId && e.required == r.required && e.min == r.min
    && e.max == r.max && e.count == r.count
    && (r.count < r.min ==> e.status == Missing)
    && (ContentValidationBound(r.max).Some? ==>
          e.status == Status(r.count, r.min, ContentValidationBound(r.max).value))
  }

  /** The entry of a row that does not raise, as a reference definition:
      the status is the shared rule's, or missing when the maximum is NULL. */
  function Classify(r: CountRow): (e: GroupEntry)
    requires !Raises(r)
    ensures Classified(r, e)
  {
    var status := match ContentValidationBound(r.max)
      case None => Missing
      case Some(b) => Status(r.count, r.min, b);
    GroupEntry(r.groupId, r.required, r.min, r.max, r.count, status)
  }

  /** A row that does not raise has exactly one entry. */
  lemma ClassifiedUnique(r: CountRow, e: GroupEntry)
    requires !Raises(r) && Classified(r, e)
    ensures e == Classify(r)
  {
  }

  /** `validate_content`: one entry per group row in order, the two summary
      counters, and `valid` exactly when no required group is missing and no
      group is over its limit; or the type error of the first row that
      compares a count with a NULL maximum. */
  method ValidateContent(contentId: string, rows: seq<CountRow>) returns (out: Outcome)
    ensures out.NullMaxTypeError? <==> exists k :: 0 <= k < |rows| && Raises(rows[k])
    ensures out.NullMaxTypeError? ==>
      exists k :: 0 <= k < |rows| && Raises(rows[k]) && out.groupId == rows[k].groupId
        && forall j :: 0 <= j < k ==> !Raises(rows[j])
    ensures out.Validated? ==>
      && out.validation.contentId == contentId
      && |out.validation.groups| == |rows|
      && (forall k :: 0 <= k < |rows| ==> Classified(rows[k], out.validation.groups[k]))
      && out.validation.summary.missingRequired == CountIf(out.validation.groups, RequiredMissing)
      && out.validation.summary.overLimit == CountIf(out.validation.groups, OverLimit)
      && (out.validation.valid <==>
            forall k :: 0 <= k < |rows| ==>
              !RequiredMissing(out.validation.groups[k]) && !OverLimit(out.validation.groups[k]))
  {
    var groups: seq<GroupEntry> := [];
    var missingRequired := 0;
    var overLimit := 0;
    var i := 0;
    while i < |rows|
      invariant 0 <= i <= |rows|
      invariant forall k :: 0 <= k < i ==> !Raises(rows[k])
      invariant |groups| == i
      invariant forall k :: 0 <= k < i ==> Classified(rows[k], groups[k])
      invariant missingRequired == CountIf(groups, RequiredMissing)
      invariant overLimit == CountIf(groups, OverLimit)
    {
      var row := rows[i];
      var status := RowStatus(row);
      if status.None? {
        return NullMaxTypeError(row.groupId);
      }
      var entry := GroupEntry(row.groupId, row.required, row.min, row.max, row.count, status.value);
      if RequiredMissing(entry) {
        missingRequired := missingRequired + 1;
      }
      if OverLimit(entry) {
        overLimit := overLimit + 1;
      }
      CountIfAppend(groups, [entry], RequiredMissing);
      CountIfAppend(groups, [entry], OverLimit);
      groups := groups + [entry];
      i := i + 1;
    }
    CountIfZero(groups, RequiredMissing);
    CountIfZero(groups, OverLimit);
    var valid := missingRequired == 0 && overLimit == 0;
    return Validated(Validation(contentId, valid, Summary(missingRequired, overLimit), groups));
  }

  /** The status branch of the loop for one row: below the minimum is
      missing; otherwise, unless the maximum is the -1 sentinel, the count is
      compared with the maximum, which raises (None) when it is NULL. */
  method RowStatus(row: CountRow) returns (status: Option<GroupStatus>)
    ensures status.None? <==> Raises(row)
    ensures status.Some? ==> Classified(row, GroupEntry(row.groupId, row.required, row.min, row.max, row.count, status.value))
  {
    if row.count < row.min {
      status := Some(Missing);
    } else if row.max != IntMax(UnlimitedSentinel) {
      match row.max {
        case NullMax =>
          return None;
        case IntMax(m) =>
          if row.count > m {
            status := Some(Over);
          } else {
            status := Some(Ok);
          }
      }
    } else {
      status := Some(Ok);
    }
  }

  /** A group that is missing but not required never makes content invalid:
      only the other entries decide `valid`. */
  lemma OptionalMissingNeverInvalidates(groups: seq<GroupEntry>, k: nat)
    requires k < |groups| && !groups[k].required && groups[k].status == Missing
    ensures !RequiredMissing(groups[k]) && !OverLimit(groups[k])
  {
  }
}
