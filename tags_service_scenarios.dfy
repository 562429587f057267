/**
 * Client scenarios of the tag service, each on a fresh empty table, showing what a
 * caller can conclude from the service's contracts alone.
 */
module TagsServiceScenarios {
  import opened Wrappers
  import opened Tags
  import opened TagsService

  /** A created tag carries the dto's fields and its parent, and is then found by its id. */
  method CreateThenFind(evaluationId: nat, key: string, value: string)
    returns (created: Result<EvaluationTag, Error>, found: Result<EvaluationTag, Error>)
    ensures created.Success? && found == created
    ensures created.value.key == key && created.value.value == value
    ensures created.value.evaluationId == evaluationId
    ensures created.value.createdAt == created.value.updatedAt
  {
    var service := new EvaluationTagsService();
    created := service.Create(evaluationId, CreateEvaluationTagDto(Some(key), Some(value)));
    found := service.FindById(created.value.id);
  }

  /** A create without a key, or without a value, is rejected for that column alone and stores nothing. */
  method CreateWithMissingField(evaluationId: nat, present: string)
    returns (missingKey: Result<EvaluationTag, Error>, missingValue: Result<EvaluationTag, Error>, stored: nat)
    ensures missingKey == Failure(NotNullViolation({KeyColumn}))
    ensures missingValue == Failure(NotNullViolation({ValueColumn}))
    ensures stored == 0
  {
    var service := new EvaluationTagsService();
    missingKey := service.Create(evaluationId, CreateEvaluationTagDto(None, Some(present)));
    ColumnsOfViolation(missingKey.error.columns, true, false);
    missingValue := service.Create(evaluationId, CreateEvaluationTagDto(Some(present), None));
    ColumnsOfViolation(missingValue.error.columns, false, true);
    stored := |service.FindAll()|;
  }

  /** A set of columns pinned down by which of key and value it holds, and not holding the parent column. */
  lemma ColumnsOfViolation(columns: set<Column>, hasKey: bool, hasValue: bool)
    requires KeyColumn in columns <==> hasKey
    requires ValueColumn in columns <==> hasValue
    requires EvaluationIdColumn !in columns
    ensures columns == (if hasKey then {KeyColumn} else {}) + (if hasValue then {ValueColumn} else {})
  {
    forall c: Column
      ensures c in columns <==> c in (if hasKey then {KeyColumn} else {}) + (if hasValue then {ValueColumn} else {})
    {
      match c
      case KeyColumn =>
      case ValueColumn =>
      case EvaluationIdColumn =>
    }
  }

  /** findAll lists nothing on an empty table, one row after a create, and two after an identical second create. */
  method FindAllCounts(evaluationId: nat, key: string, value: string)
    returns (none: nat, one: nat, two: nat)
    ensures none == 0 && one == 1 && two == 2
  {
    var service := new EvaluationTagsService();
    var dto := CreateEvaluationTagDto(Some(key), Some(value));
    none := |service.FindAll()|;
    var _ := service.Create(evaluationId, dto);
    one := |service.FindAll()|;
    var _ := service.Create(evaluationId, dto);
    two := |service.FindAll()|;
  }

  /** Updating only the key keeps the value, and updatedAt changes. */
  method UpdateOnlyKey(evaluationId: nat, key: string, value: string, newKey: string)
    returns (created: Result<EvaluationTag, Error>, updated: Result<EvaluationTag, Error>)
    ensures created.Success? && updated.Success?
    ensures updated.value.key == newKey && updated.value.value == value
    ensures updated.value.updatedAt != created.value.updatedAt
  {
    var service := new EvaluationTagsService();
    created := service.Create(evaluationId, CreateEvaluationTagDto(Some(key), Some(value)));
    updated := service.Update(created.value.id, UpdateEvaluationTagDto(Some(newKey), None));
  }

  /** Updating only the value keeps the key, and updatedAt changes. */
  method UpdateOnlyValue(evaluationId: nat, key: string, value: string, newValue: string)
    returns (created: Result<EvaluationTag, Error>, updated: Result<EvaluationTag, Error>)
    ensures created.Success? && updated.Success?
    ensures updated.value.key == key && updated.value.value == newValue
    ensures updated.value.updatedAt != created.value.updatedAt
  {
    var service := new EvaluationTagsService();
    created := service.Create(evaluationId, CreateEvaluationTagDto(Some(key), Some(value)));
    updated := service.Update(created.value.id, UpdateEvaluationTagDto(None, Some(newValue)));
  }

  /** An update is stamped later than every earlier write, including another tag's creation. */
  method UpdateIsLatest(evaluationId: nat, key: string, value: string, newKey: string)
    returns (first: Result<EvaluationTag, Error>, second: Result<EvaluationTag, Error>, updated: Result<EvaluationTag, Error>)
    ensures first.Success? && second.Success? && updated.Success?
    ensures first.value.createdAt < second.value.createdAt < updated.value.updatedAt
  {
    var service := new EvaluationTagsService();
    var dto := CreateEvaluationTagDto(Some(key), Some(value));
    first := service.Create(evaluationId, dto);
    second := service.Create(evaluationId, dto);
    updated := service.Update(first.value.id, UpdateEvaluationTagDto(Some(newKey), None));
  }

  /**
   * Removing returns the stored key and value; the id is then NotFound, for lookup
   * and removal alike, and stays NotFound after a later create, which issues a new id.
   */
  method RemoveThenFind(evaluationId: nat, key: string, value: string)
    returns (removed: Result<EvaluationTag, Error>, found: Result<EvaluationTag, Error>, again: Result<EvaluationTag, Error>,
             recreated: Result<EvaluationTag, Error>, stillGone: Result<EvaluationTag, Error>)
    ensures removed.Success? && removed.value.key == key && removed.value.value == value
    ensures found == Failure(NotFound(NotFoundMessage))
    ensures again == Failure(NotFound(NotFoundMessage))
    ensures recreated.Success? && recreated.value.id != removed.value.id
    ensures stillGone == Failure(NotFound(NotFoundMessage))
  {
    var service := new EvaluationTagsService();
    var created := service.Create(evaluationId, CreateEvaluationTagDto(Some(key), Some(value)));
    removed := service.Remove(created.value.id);
    found := service.FindById(created.value.id);
    again := service.Remove(created.value.id);
    recreated := service.Create(evaluationId, CreateEvaluationTagDto(Some(key), Some(value)));
    stillGone := service.FindById(created.value.id);
  }
}
