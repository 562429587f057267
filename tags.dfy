/**
 * The evaluation-tag entity and the persistence rules the service relies on:
 * the stored record, the create/update request shapes, the unsaved record,
 * not-null validation on save, the partial-update merge and the listing of a
 * table in primary-key order. Wall-clock dates are natural-number instants.
 */
module Tags {
  import opened Wrappers

  /** A stored evaluation tag: a key/value annotation attached to one evaluation. */
  datatype EvaluationTag = EvaluationTag(
    id: nat,
    key: string,
    value: string,
    evaluationId: nat,
    createdAt: nat,
    updatedAt: nat)

  /** The create request: either field may be missing from the body. */
  datatype CreateEvaluationTagDto = CreateEvaluationTagDto(key: Option<string>, value: Option<string>)

  /** The partial-update request: only the fields present are changed. */
  datatype UpdateEvaluationTagDto = UpdateEvaluationTagDto(key: Option<string>, value: Option<string>)

  /** An unsaved record: no id, no timestamps, and any column may still be null. */
  datatype Draft = Draft(key: Option<string>, value: Option<string>, evaluationId: Option<nat>)

  /** The non-null columns that save validates. */
  datatype Column = KeyColumn | ValueColumn | EvaluationIdColumn

  /** The ways a service call rejects. */
  datatype Error =
    | NotNullViolation(columns: set<Column>)
    | NotFound(message: string)

  const NotFoundMessage := "EvaluationTag with given id not found"

  /** The columns of `d` that are still null. */
  function NullColumns(d: Draft): set<Column>
  {
    (if d.key.None? then {KeyColumn} else {})
    + (if d.value.None? then {ValueColumn} else {})
    + (if d.evaluationId.None? then {EvaluationIdColumn} else {})
  }

  /**
   * Saving a new record: validation rejects every null column at once;
   * otherwise the row gets the primary key `id` and both timestamps `now`.
   */
  function Save(d: Draft, id: nat, now: nat): (r: Result<EvaluationTag, Error>)
    ensures r.Success? <==> d.key.Some? && d.value.Some? && d.evaluationId.Some?
    ensures r.Failure? ==>
      && r.error.NotNullViolation?
      && (KeyColumn in r.error.columns <==> d.key.None?)
      && (ValueColumn in r.error.columns <==> d.value.None?)
      && (EvaluationIdColumn in r.error.columns <==> d.evaluationId.None?)
    ensures r.Success? ==>
      && r.value.id == id
      && Some(r.value.key) == d.key
      && Some(r.value.value) == d.value
      && Some(r.value.evaluationId) == d.evaluationId
      && r.value.createdAt == r.value.updatedAt == now
  {
    var missing := NullColumns(d);
    if missing != {} then
      Failure(NotNullViolation(missing))
    else
      Success(EvaluationTag(id, d.key.value, d.value.value, d.evaluationId.value, now, now))
  }

  /**
   * `tag.update(dto)` at instant `now`: a supplied field replaces the stored one,
   * an absent field keeps it, and updatedAt becomes `now`.
   */
  function Merge(t: EvaluationTag, dto: UpdateEvaluationTagDto, now: nat): (u: EvaluationTag)
    ensures u.id == t.id && u.evaluationId == t.evaluationId && u.createdAt == t.createdAt
    ensures dto.key.Some? ==> u.key == dto.key.value
    ensures dto.key.None? ==> u.key == t.key
    ensures dto.value.Some? ==> u.value == dto.value.value
    ensures dto.value.None? ==> u.value == t.value
    ensures u.updatedAt == now
  {
    t.(key := dto.key.GetOr(t.key), value := dto.value.GetOr(t.value), updatedAt := now)
  }

  /** The update whose effect is `first` followed by `second`: the later field wins. */
  function Overlay(first: UpdateEvaluationTagDto, second: UpdateEvaluationTagDto): UpdateEvaluationTagDto
  {
    UpdateEvaluationTagDto(
      if second.key.Some? then second.key else first.key,
      if second.value.Some? then second.value else first.value)
  }

  /** Two successive partial updates have the effect of one update with the later fields winning. */
  lemma MergeCompose(t: EvaluationTag, first: UpdateEvaluationTagDto, second: UpdateEvaluationTagDto, n1: nat, n2: nat)
    ensures Merge(Merge(t, first, n1), second, n2) == Merge(t, Overlay(first, second), n2)
  {
  }

  /** Repeating a partial update changes only the timestamp. */
  lemma MergeIdempotent(t: EvaluationTag, dto: UpdateEvaluationTagDto, n1: nat, n2: nat)
    ensures Merge(Merge(t, dto, n1), dto, n2) == Merge(t, dto, n2)
  {
  }

  /** An update that supplies neither field changes nothing but updatedAt. */
  lemma MergeEmpty(t: EvaluationTag, now: nat)
    ensures Merge(t, UpdateEvaluationTagDto(None, None), now) == t.(updatedAt := now)
  {
  }

  /** Every row is stored under its own primary key. */
  ghost predicate WellKeyed(rows: map<nat, EvaluationTag>)
  {
    forall k :: k in rows ==> rows[k].id == k
  }

  /** The primary keys in use below `n`. */
  function KeysBelow(rows: map<nat, EvaluationTag>, n: nat): set<nat>
  {
    set k | k in rows && k < n
  }

  /** The rows with primary key below `n`, in ascending key order (what `findAll` returns). */
  function Listing(rows: map<nat, EvaluationTag>, n: nat): seq<EvaluationTag>
  {
    if n == 0 then []
    else Listing(rows, n - 1) + (if n - 1 in rows then [rows[n - 1]] else [])
  }

  /** The listing has exactly one entry per stored key below `n`. */
  lemma {:induction false} ListingLength(rows: map<nat, EvaluationTag>, n: nat)
    ensures |Listing(rows, n)| == |KeysBelow(rows, n)|
  {
    if n > 0 {
      ListingLength(rows, n - 1);
      if n - 1 in rows {
        assert KeysBelow(rows, n) == KeysBelow(rows, n - 1) + {n - 1};
      } else {
        assert KeysBelow(rows, n) == KeysBelow(rows, n - 1);
      }
    }
  }

  /** A tag is listed exactly when it is the row stored under its own key, below `n`. */
  lemma {:induction false} ListingMembers(rows: map<nat, EvaluationTag>, n: nat, t: EvaluationTag)
    requires WellKeyed(rows)
    ensures t in Listing(rows, n) <==> t.id < n && t.id in rows && rows[t.id] == t
  {
    if n > 0 {
      ListingMembers(rows, n - 1, t);
    }
  }

  /** Listed tags appear in strictly ascending id order, so no row is listed twice. */
  lemma {:induction false} ListingAscending(rows: map<nat, EvaluationTag>, n: nat)
    requires WellKeyed(rows)
    ensures forall i, j :: 0 <= i < j < |Listing(rows, n)| ==> Listing(rows, n)[i].id < Listing(rows, n)[j].id
    ensures forall i :: 0 <= i < |Listing(rows, n)| ==> Listing(rows, n)[i].id < n
  {
    if n > 0 {
      ListingAscending(rows, n - 1);
    }
  }

  /** Once every key is below `n`, the listing covers the whole table. */
  lemma ListingCoversTable(rows: map<nat, EvaluationTag>, n: nat)
    requires forall k :: k in rows ==> k < n
    ensures |Listing(rows, n)| == |rows|
  {
    ListingLength(rows, n);
    assert KeysBelow(rows, n) == rows.Keys;
  }
}
