/**
 * The evaluation-tag service over an in-memory tag table. The table maps a
 * primary key to its row; `clock` is the last instant handed out and `nextId`
 * the next auto-increment key. Every call is one sequential step.
 */
module TagsService {
  import opened Wrappers
  import opened Tags

  class EvaluationTagsService {
    var rows: map<nat, EvaluationTag>
    var clock: nat
    var nextId: nat

    /** Rows sit under their own positive key below `nextId`, and no timestamp lies in the future. */
    ghost predicate Valid()
      reads this
    {
      && 0 < nextId
      && WellKeyed(rows)
      && (forall k :: k in rows ==> 0 < k < nextId)
      && (forall k :: k in rows ==> rows[k].createdAt <= rows[k].updatedAt <= clock)
    }

    /** An empty table; auto-increment keys start at 1. */
    constructor ()
      ensures Valid()
      ensures rows == map[] && clock == 0 && nextId == 1
    {
      rows := map[];
      clock := 0;
      nextId := 1;
    }

    /** Every row, one entry each, in ascending primary-key order. */
    function FindAll(): (r: seq<EvaluationTag>)
      reads this
      requires Valid()
      ensures |r| == |rows|
      ensures forall t :: t in r <==> t.id in rows && rows[t.id] == t
      ensures forall i, j :: 0 <= i < j < |r| ==> r[i].id < r[j].id
    {
      var r := Listing(rows, nextId);
      ListingCoversTable(rows, nextId);
      ListingAscending(rows, nextId);
      forall t ensures t in r <==> t.id in rows && rows[t.id] == t {
        ListingMembers(rows, nextId, t);
      }
      r
    }

    /** The row stored under `id`, or NotFound. */
    function FindByPkBang(id: nat): (r: Result<EvaluationTag, Error>)
      reads this
      ensures r.Success? <==> id in rows
      ensures r.Success? ==> r.value == rows[id]
      ensures r.Failure? ==> r.error == NotFound(NotFoundMessage)
    {
      if id in rows then Success(rows[id]) else Failure(NotFound(NotFoundMessage))
    }

    /** A copy of the row stored under `id`, or NotFound. */
    function FindById(id: nat): (r: Result<EvaluationTag, Error>)
      reads this
      ensures r.Success? <==> id in rows
      ensures r.Success? ==> r.value == rows[id]
      ensures r.Failure? ==> r.error == NotFound(NotFoundMessage)
    {
      FindByPkBang(id)
    }

    /**
     * Inserts a tag bound to `evaluationId`. With key and value both present the
     * table gains exactly one row under the next auto-increment key, which no
     * earlier create has issued; otherwise save rejects with the null columns and
     * nothing changes.
     */
    method Create(evaluationId: nat, dto: CreateEvaluationTagDto) returns (r: Result<EvaluationTag, Error>)
      requires Valid()
      modifies this
      ensures Valid()
      ensures r.Success? <==> dto.key.Some? && dto.value.Some?
      ensures r.Failure? ==>
        && r.error.NotNullViolation?
        && (KeyColumn in r.error.columns <==> dto.key.None?)
        && (ValueColumn in r.error.columns <==> dto.value.None?)
        && EvaluationIdColumn !in r.error.columns
        && rows == old(rows) && clock == old(clock) && nextId == old(nextId)
      ensures r.Success? ==>
        && r.value.id == old(nextId) && nextId == old(nextId) + 1
        && r.value.id !in old(rows)
        && Some(r.value.key) == dto.key
        && Some(r.value.value) == dto.value
        && r.value.evaluationId == evaluationId
        && old(clock) < r.value.createdAt == r.value.updatedAt == clock
        && rows == old(rows)[r.value.id := r.value]
        && |rows| == |old(rows)| + 1
    {
      var draft := Draft(dto.key, dto.value, Some(evaluationId));
      var saved := Save(draft, nextId, clock + 1);
      if saved.Success? {
        clock := clock + 1;
        rows := rows[nextId := saved.value];
        nextId := nextId + 1;
      }
      r := saved;
    }

    /**
     * Merges the supplied fields into the row stored under `id` and advances its
     * updatedAt; every other row is unchanged. NotFound leaves the table as it was.
     */
    method Update(id: nat, dto: UpdateEvaluationTagDto) returns (r: Result<EvaluationTag, Error>)
      requires Valid()
      modifies this
      ensures Valid()
      ensures nextId == old(nextId)
      ensures r.Success? <==> id in old(rows)
      ensures r.Failure? ==>
        r.error == NotFound(NotFoundMessage) && rows == old(rows) && clock == old(clock)
      ensures r.Success? ==>
        && var before := old(rows)[id];
        && r.value.id == id
        && r.value.key == dto.key.GetOr(before.key)
        && r.value.value == dto.value.GetOr(before.value)
        && r.value.evaluationId == before.evaluationId
        && r.value.createdAt == before.createdAt
        && before.updatedAt < r.value.updatedAt
        && rows == old(rows)[id := r.value]
      ensures r.Success? ==> r.value == Merge(old(rows)[id], dto, clock)
      ensures r.Success? ==> clock == old(clock) + 1
    {
      var found := FindByPkBang(id);
      if found.Failure? {
        return found;
      }
      clock := clock + 1;
      var updated := Merge(found.value, dto, clock);
      rows := rows[id := updated];
      r := Success(updated);
    }

    /**
     * Deletes the row stored under `id` and returns its pre-deletion snapshot;
     * every other row is unchanged. NotFound leaves the table as it was.
     */
    method Remove(id: nat) returns (r: Result<EvaluationTag, Error>)
      requires Valid()
      modifies this
      ensures Valid()
      ensures clock == old(clock) && nextId == old(nextId)
      ensures r.Success? <==> id in old(rows)
      ensures r.Failure? ==> r.error == NotFound(NotFoundMessage) && rows == old(rows)
      ensures r.Success? ==> r.value == old(rows)[id] && rows == old(rows) - {id}
      ensures r.Success? ==> id !in rows && |rows| == |old(rows)| - 1
    {
      var found := FindByPkBang(id);
      if found.Failure? {
        return found;
      }
      rows := rows - {id};
      r := Success(found.value);
    }

    /**
     * The unsaved record for `dto`; the table is not touched. It has no parent
     * yet, so it cannot be saved as it stands.
     */
    function ObjectFromDto(dto: CreateEvaluationTagDto): (d: Draft)
      ensures d.key == dto.key && d.value == dto.value && d.evaluationId.None?
      ensures forall id, now :: Save(d, id, now).Failure?
    {
      Draft(dto.key, dto.value, None)
    }
  }
}
