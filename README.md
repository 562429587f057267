# Evaluation tags: a verified model of the tag lifecycle

This project models the evaluation-tag service of the Heimdall backend
(`EvaluationTagsService`). An evaluation tag is a key/value annotation attached
to one evaluation. The service creates a tag bound to a parent evaluation id,
lists all tags, looks one up by primary key (rejecting an unknown key with
NotFound), merges a partial change into a tag, removes a tag and returns its
pre-deletion snapshot, and builds an unsaved tag record from a create request.

In the source the table lives in a relational database behind an ORM. Here it
is an in-memory table owned by the service object:

- `rows: map<nat, EvaluationTag>` maps a primary key to its row;
- `clock: nat` is the last instant handed out, standing in for `Date` values;
- `nextId: nat` is the next auto-increment key, starting at 1.

The ORM behaviour the service relies on is written out explicitly in module
`Tags`. `Save` rejects null `key`, `value` or `evaluationId` columns, reporting
every null column at once; otherwise it assigns the key and sets both
timestamps. `Merge` applies a partial update. `Listing` gives the table in
ascending key order. The service class (`TagsService.EvaluationTagsService`)
changes its table step by step. Its invariant `Valid()` says each row sits under
its own positive key below `nextId`, and no timestamp is later than `clock`.
Module `TagsServiceScenarios` restates the service's own test cases as verified
client scenarios that rely only on the service's contracts.

Files: `wrappers.dfy` (Option, Result), `tags.dfy` (entity and ORM rules),
`tags_service.dfy` (the service), `tags_service_scenarios.dfy` (client scenarios).

## Model

| member | source | states |
|---|---|---|
| `Tags.Save` | apps/backend/src/evaluation-tags/evaluation-tags.service.ts:31-35 | saving succeeds exactly when key, value and evaluationId are all present; a failure is a not-null violation naming exactly the null columns; a saved row carries the given key, value and parent, the assigned id, and createdAt = updatedAt = the save instant |
| `Tags.Merge` | apps/backend/src/evaluation-tags/evaluation-tags.service.ts:43 | a supplied key or value replaces the stored one, an absent one is kept; id, parent and createdAt never change; updatedAt becomes the update instant |
| `Tags.MergeCompose` | apps/backend/src/evaluation-tags/dto/update-evaluation-tag.dto.ts:10-16 | two successive partial updates equal one update in which the later supplied fields win |
| `Tags.MergeIdempotent` | apps/backend/src/evaluation-tags/evaluation-tags.service.ts:43 | repeating the same partial update changes nothing but updatedAt |
| `Tags.MergeEmpty` | apps/backend/src/evaluation-tags/dto/update-evaluation-tag.dto.ts:10-16 | an update supplying neither key nor value leaves the tag as it was except for updatedAt |
| `Tags.ListingLength` | apps/backend/src/evaluation-tags/evaluation-tags.service.ts:15-20 | the listing up to a bound has exactly one entry per stored key below that bound |
| `Tags.ListingMembers` | apps/backend/src/evaluation-tags/evaluation-tags.service.ts:15-20 | a tag is listed if and only if it is the row stored under its own key |
| `Tags.ListingAscending` | apps/backend/src/evaluation-tags/evaluation-tags.service.ts:15-20 | listed tags have strictly ascending ids below the bound, so no row is listed twice |
| `Tags.ListingCoversTable` | apps/backend/src/evaluation-tags/evaluation-tags.service.ts:15-20 | once every key lies below the bound, the listing has as many entries as the table has rows |
| `TagsService.EvaluationTagsService.constructor` | apps/backend/src/evaluation-tags/evaluation-tags.service.ts:10-13 | the service starts with an empty table, clock 0 and next key 1, and its invariant holds |
| `TagsService.EvaluationTagsService.FindAll` | apps/backend/src/evaluation-tags/evaluation-tags.service.ts:15-20 | returns one entry per stored row and nothing else, in ascending id order |
| `TagsService.EvaluationTagsService.FindByPkBang` | apps/backend/src/evaluation-tags/evaluation-tags.service.ts:56-67 | succeeds exactly when the key is stored, returning that row; otherwise fails NotFound with the source's message |
| `TagsService.EvaluationTagsService.FindById` | apps/backend/src/evaluation-tags/evaluation-tags.service.ts:22-25 | same outcome as the primary-key lookup: the stored row, or NotFound |
| `TagsService.EvaluationTagsService.Create` | apps/backend/src/evaluation-tags/evaluation-tags.service.ts:27-36 | succeeds exactly when key and value are both present; then exactly one row is added, under the next auto-increment key (so no id is ever issued twice, even after a removal), with the dto's key and value, the given parent and fresh equal timestamps; otherwise fails naming the missing columns and changes nothing |
| `TagsService.EvaluationTagsService.Update` | apps/backend/src/evaluation-tags/evaluation-tags.service.ts:38-44 | on an unknown id fails NotFound and changes nothing; otherwise the row becomes the merge of the old row and the dto, its updatedAt strictly increases to the next clock instant (later than every earlier write), and every other row is unchanged |
| `TagsService.EvaluationTagsService.Remove` | apps/backend/src/evaluation-tags/evaluation-tags.service.ts:46-50 | on an unknown id fails NotFound and changes nothing; otherwise returns the stored row as it was, the id is gone, and every other row is unchanged |
| `TagsService.EvaluationTagsService.ObjectFromDto` | apps/backend/src/evaluation-tags/evaluation-tags.service.ts:52-54 | the unsaved record carries the dto's key and value and no parent, so saving it as it stands is always rejected |
| `TagsServiceScenarios.CreateThenFind` | apps/backend/src/evaluation-tags/evaluation-tags.service.spec.ts:69-80 | a created tag has the given key, value and parent and equal timestamps, and looking up its id returns it |
| `TagsServiceScenarios.CreateWithMissingField` | apps/backend/src/evaluation-tags/evaluation-tags.service.spec.ts:83-105 | a create without a key is rejected for the key column alone, one without a value for the value column alone, and nothing is stored |
| `TagsServiceScenarios.FindAllCounts` | apps/backend/src/evaluation-tags/evaluation-tags.service.spec.ts:110-129 | findAll has 0 entries on an empty table, 1 after one create and 2 after a second identical create |
| `TagsServiceScenarios.UpdateOnlyKey` | apps/backend/src/evaluation-tags/evaluation-tags.service.spec.ts:151-165 | updating only the key installs the new key, keeps the value and changes updatedAt |
| `TagsServiceScenarios.UpdateOnlyValue` | apps/backend/src/evaluation-tags/evaluation-tags.service.spec.ts:167-183 | updating only the value installs the new value, keeps the key and changes updatedAt |
| `TagsServiceScenarios.UpdateIsLatest` | apps/backend/src/evaluation-tags/evaluation-tags.service.ts:38-44 | after creating two tags and updating the first, the instants are strictly ordered: first creation, second creation, then the update |
| `TagsServiceScenarios.RemoveThenFind` | apps/backend/src/evaluation-tags/evaluation-tags.service.spec.ts:187-202 | removal returns the stored key and value; afterwards both lookup and a second removal of that id fail NotFound, and a later create issues a different id, so the removed id stays NotFound |

## Left out

- Persistence, async and concurrency: every call is one sequential step on an in-memory table. Lost updates between concurrent `update` calls are not modelled.
- Dates: `createdAt` and `updatedAt` are instants of a natural-number clock. Each create or update advances the clock by one.
- Parent existence: `create` does not check that the evaluation exists, and neither does the model. Foreign-key rejection by the database is not modelled, and `evaluationId` is any natural number.
- Identifiers: the source passes a string, number, Buffer or `undefined` id unchanged to the primary-key lookup. The model takes natural-number ids only; an id the store cannot compare with its numeric key (a non-numeric string, a Buffer), which the database may reject with its own error, is not modelled.
- The `id` field of the update request: the service passes it to the ORM with the rest of the request. The model treats the path id as the row key, and `id` is never updatable.
- TagsService.EvaluationTagsService.Update: always advances updatedAt on success; the service's tests (apps/backend/src/evaluation-tags/evaluation-tags.service.spec.ts:146-148, 162-164, 180-182) require updatedAt to change, though they only update with changed fields. The ORM's `instance.update(dto)` writes only supplied fields that differ from the stored ones, so in the source an empty update, an update with the same key and value, or a repeated update (the second step of `Tags.MergeIdempotent`) issues no write and leaves updatedAt unchanged. An explicit null key or value in the update request is not modelled either: it passes the request's optional-field validation and is rejected by the not-null check on save, whereas the model's `None` keeps the stored field and the update succeeds.
- Column rules: `key`, `value` and `evaluationId` are treated as non-null columns. `evaluation-tag.model.ts` is not part of this model, and no length or emptiness rule on key and value is modelled. A missing field is `None`; an empty string is accepted.
- Response DTO: `EvaluationTagDto` is not part of this model. Responses are the stored record itself.
- Listing order: the database gives no order for `findAll`. The model lists rows in ascending key order, which is one of the orders the source allows.
- Authentication, the OAuth callback, session issuance, bootstrap middleware (security headers, body limit, rate limiting, validation pipe) and module wiring: these are framework wiring or calls into code not shown, with no tag-lifecycle logic.
