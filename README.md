# uvaGPT Cloud Functions — a Dafny model

This project models the core of `functions/src/index.ts`, the Firebase Cloud
Functions behind uvaGPT. Three HTTP handlers search a vector index:
`search_classes`, `search_clubs` and `find_professors`. A fourth handler,
`get_upcoming_events`, reads upcoming events from Firestore. A scheduled job,
`getevents`, copies the events dashboard into Firestore every hour.

The model covers:

- **The request guard of the three search handlers.** A non-POST request gets
  400 "Invalid method". Otherwise a request whose `body.query` is `undefined`
  gets 400 "No query provided".
- **The projection of a stored document into a response record.** There is one
  projector per domain: courses, clubs, professors and events. Each is written
  assignment by assignment, as the handler does it. A generic definition,
  `Projection.Shape`, describes each record independently: copied fields,
  fields copied only when defined, URL templates, and the match score. Each
  projector is proved equal to its instance of that definition.
- **Hydration.** Each nearest-neighbour match becomes its projected document, or
  `null` when the document is missing. The matches and their order are an
  input. When the embedding call, the index query or a document read throws,
  the handler sends nothing.
- **The upcoming-events query.** The handler applies the `startDateTimeUtc >
  now` filter and the `TOPK` limit. Firestore answers the earliest such events
  in ascending start order. The handler then projects each event.
- **The ingestion run.** It builds the record sequence from the two lists. It
  cuts each record down to `EVENT_KEYS`. It collects one whole-document `set`
  per record in a batch and commits the batch at once. A record whose id `doc`
  refuses, or whose cut-down copy holds `undefined`, makes the run throw
  before the commit. `Ingestion.EventStore` holds the `events` collection. Its
  `Ingest` method runs the loop `Ingestion.FillBatch`, which calls the
  `EVENT_KEYS` copy loop (`Projectors.CopyKeys`) for each record, then commits.

Files:

- `JsValues.dfy`: JavaScript values and objects, property reads, template
  rendering, and prefix and split helpers.
- `Projection.dfy`: the generic projection.
- `Projectors.dfy`: the four projectors and the whitelist copy loop.
- `Search.dfy`: the guard, hydration and the search handler.
- `Upcoming.dfy`: the upcoming-events handler.
- `Ingestion.dfy`: the scheduled ingestion.

JavaScript objects are `map<string, Option<Value>>`. A key mapped to `None` is a
property that holds `undefined`. This distinguishes `return_data.title =
data.title`, which creates the property even when the value is `undefined`, from
the conditional copies of `cover`, `headshot`, `googleScholar` and `email`. A
template literal renders a missing field as the text `undefined`. The model
reproduces this. `Projectors.CourseMissingFieldsRenderUndefined` states it
for the course URL and reference.

Two behaviours of the handlers are easy to misread:

- Hydration keeps a `null` entry for each match whose document is missing. It
  does not drop such matches. `Search.HydrateKeepsNulls` counts the nulls. It
  also proves that the non-null entries number exactly the matches minus the
  missing documents.
- The guard rejects only an `undefined` query. The empty string and `null` are
  accepted, as `Search.GuardAcceptsEmptyAndNull` states.

## Model

| member | source | states |
|---|---|---|
| Projectors.Whitelist | functions/src/index.ts:151-153 | the copied object has exactly the listed keys, and each holds the source's value for that key, `undefined` included |
| Projectors.CopyKeys | functions/src/index.ts:328-330 | the copy loop produces exactly the whitelist of the keys from the source object |
| Projection.ProjectFields | functions/src/index.ts:149-169 | a generic projection has each copied field with the document's value, each optional field exactly when the document defines it, each template field as its filled template, the score exactly when scored, and no other key |
| Projection.ProjectCharacterised | functions/src/index.ts:149-169 | any record with the shape's keys and the shape's value under each key is the projection: the generic definition determines the record |
| Projectors.ProjectCourse | functions/src/index.ts:75-85 | a course record has exactly the keys title, description, score, avg_rating, url and ref, whatever the document holds |
| Projectors.CourseFields | functions/src/index.ts:77-83 | title, description and avg_rating are the document's values, score is the match score, url and ref are the two templates over mnemonic and number |
| Projectors.CourseUrlRoundTrip | functions/src/index.ts:81 | the course URL parses back to the document's mnemonic and number when the mnemonic has no slash |
| Projectors.CourseRefRoundTrip | functions/src/index.ts:82 | the course reference splits at its first space back into mnemonic and number when the mnemonic has no space |
| Projectors.CourseMissingFieldsRenderUndefined | functions/src/index.ts:81-82 | a document without a mnemonic, or without a number, still yields a URL and a reference, with the text "undefined" in place of the missing field |
| Projectors.CourseIsShape | functions/src/index.ts:75-85 | the course projector equals the generic projection with the three copied fields, two templates and the score |
| Projectors.ProjectClub | functions/src/index.ts:149-169 | a club record has the six CLUB_KEYS, photo, url and score, and cover exactly when the document defines it |
| Projectors.ClubFields | functions/src/index.ts:151-167 | every CLUB_KEYS field and a present cover hold the document's values; photo and url are the two templates; score is the match score |
| Projectors.ClubUrlsRoundTrip | functions/src/index.ts:160-165 | removing the organisation prefix from the club URL gives back the club's uri, and removing the photo prefix from the photo URL gives back its photoUri |
| Projectors.ClubIsShape | functions/src/index.ts:149-169 | the club projector equals the generic projection with CLUB_KEYS copied, cover optional, two templates and the score |
| Projectors.ProjectProfessor | functions/src/index.ts:276-297 | a professor record always has name, credentials, title, bio and score, and no key outside those plus headshot, googleScholar and email |
| Projectors.ProfessorFields | functions/src/index.ts:278-296 | headshot, googleScholar and email are present exactly when the document defines them; every field but score holds the document's value; score is the match score |
| Projectors.ProfessorIsShape | functions/src/index.ts:276-297 | the professor projector equals the generic projection with four copied fields, three optional fields and the score |
| Projectors.ProjectEvent | functions/src/index.ts:209-221 | an event record has exactly the six copied event fields plus org_url and photo |
| Projectors.EventFields | functions/src/index.ts:211-216 | the six copied event fields hold the document's values |
| Projectors.EventLinks | functions/src/index.ts:218-221 | org_url and photo are the two templates over organizationUri and photoUri, and the record has no score |
| Projectors.EventUrlsRoundTrip | functions/src/index.ts:218-219 | removing each prefix from the event links gives back the organizationUri and the photoUri |
| Projectors.EventIsShape | functions/src/index.ts:209-221 | the event projector equals the unscored generic projection with six copied fields and two templates |
| Search.Guard | functions/src/index.ts:31-39 | the request is rejected exactly when the method is not POST or the query is undefined; the method check comes first; an accepted query is the body's query value |
| Search.GuardAcceptsEmptyAndNull | functions/src/index.ts:36-39 | a POST whose query is the empty string or null passes the guard |
| Search.Hydrate | functions/src/index.ts:64-87 | there is one entry per match, in match order; it is null exactly when the document is missing, and otherwise the domain's projection of the document with the match score |
| Search.HydrateAppend | functions/src/index.ts:64-65 | hydrating a concatenation of match lists is the concatenation of the hydrations, so hydration works match by match |
| Search.HydrateKeepsNulls | functions/src/index.ts:69-73 | the nulls are exactly as many as the missing documents, and the non-null entries as many as the matches minus the missing ones |
| Search.SearchHandler | functions/src/index.ts:28-92 | a rejected request gets 400 with the guard's reason as body; an accepted one sends nothing exactly when the embedding, the index query or a read of a matched document fails, and otherwise gets 200 with the hydration of the index's matches for the query, MODEL and TOPK |
| Search.BadRequestIffRejected | functions/src/index.ts:31-39 | a 400 response is sent exactly when the guard rejects; every other response sent is a 200 with a list of records |
| Search.RejectionPrecedesSearch | functions/src/index.ts:31-61 | a rejected request's response does not depend on the embedding call, the vector index or the document store |
| Search.ResponseWithinTopK | functions/src/index.ts:58-61 | when the index returns at most TOPK matches, the response holds at most TOPK entries |
| Search.DefaultsListAtMostThree | functions/src/index.ts:23-26 | with the default MODEL and TOPK, and an index that honours TOPK, a response holds at most three entries |
| Upcoming.StrLessIrreflexive | functions/src/index.ts:200 | no timestamp string comes after itself |
| Upcoming.StrLessTransitive | functions/src/index.ts:200 | the string order used by the filter is transitive |
| Upcoming.StrLessTotal | functions/src/index.ts:200 | any two distinct strings are ordered one way or the other |
| Upcoming.StrLessCommonPrefix | functions/src/index.ts:200 | a shared prefix, such as a shared date, does not change the order of two timestamps |
| Upcoming.StrLessProperPrefix | functions/src/index.ts:200 | a string comes strictly before every longer string it is a prefix of, and not before itself |
| Upcoming.NotBeforeTransitive | functions/src/index.ts:199-202 | "does not start earlier" is transitive, so the query's ordering is consistent |
| Upcoming.AscendingPairwise | functions/src/index.ts:199-202 | in an answer whose neighbouring start times ascend, every later start time is no earlier than every earlier one |
| Upcoming.FilterStrictAndTyped | functions/src/index.ts:200 | an event starting exactly at now does not pass the filter, nor one whose start time is missing or not a string |
| Upcoming.OmittedNotEarlier | functions/src/index.ts:199-202 | no qualifying event the query leaves out starts before any event it answers |
| Upcoming.UpcomingEvents | functions/src/index.ts:198-222 | the response holds at most TOPK records; each still starts strictly after now as a string, has exactly the six copied fields plus org_url and photo, has no score, and is the projection of the answered document |
| Upcoming.UpcomingInStartOrder | functions/src/index.ts:199-222 | the response records come in ascending start order, and no qualifying event left out starts before any of them |
| Upcoming.SingleQualifierAnswered | functions/src/index.ts:199-202 | when exactly one stored event passes the filter and TOPK is at least one, the query answers that event alone |
| Upcoming.OnlyFutureEventReturned | functions/src/index.ts:199-202 | with one event an hour before now and one an hour after, and TOPK 3, the only possible answer is the later event |
| Ingestion.CollectedOrder | functions/src/index.ts:317-319 | the records are all of upcomingEvents in order, then all of currentEvents in order; an absent list contributes nothing |
| Ingestion.IdOfAccepts | functions/src/index.ts:325 | `doc` accepts a record's id exactly when eventNoSqlId is a non-empty string without a slash, and the document id is that string |
| Ingestion.NoUndefinedIffComplete | functions/src/index.ts:327-332 | the cut-down copy that `set` receives is free of `undefined` exactly when the record defines every EVENT_KEYS field |
| Ingestion.BatchWrites | functions/src/index.ts:324-333 | when every record is accepted, the batch holds one write per record, in record order, of the record cut down to EVENT_KEYS under its id |
| Ingestion.BatchCompletes | functions/src/index.ts:324-333 | the loop gets through the records exactly when `doc` accepts every id and `set` every cut-down copy |
| Ingestion.BatchStopsAtFirst | functions/src/index.ts:324-333 | when the loop throws, it throws at the first record that `doc` or `set` refuses |
| Ingestion.BuildBatchSpec | functions/src/index.ts:324-333 | the whole loop yields one write per record, in order, of its EVENT_KEYS under its id, exactly when every record is accepted; otherwise it throws at the first refused record |
| Ingestion.FillBatch | functions/src/index.ts:324-333 | the looping method builds exactly the batch, or stops at exactly the record, that the loop's definition gives |
| Ingestion.CommitKeys | functions/src/index.ts:335 | a commit keeps every stored document and adds exactly the ids the writes name |
| Ingestion.CommitLookup | functions/src/index.ts:332-335 | after the commit, a document holds what the last write to its id set, or its old value when no write names it |
| Ingestion.CommitIdempotent | functions/src/index.ts:332-335 | committing the same writes twice leaves the same store as committing them once |
| Ingestion.Ingested | functions/src/index.ts:317-335 | a run commits exactly when every record is accepted; otherwise the store is unchanged and the outcome names the first refused record, as a bad id when `doc` refused it and as an undefined field when `set` refused it |
| Ingestion.LastRecordStored | functions/src/index.ts:324-335 | a record that no later record with the same id follows is stored under its eventNoSqlId as its EVENT_KEYS fields |
| Ingestion.StoredDocsNormalised | functions/src/index.ts:327-332 | every document a committed run writes has exactly the EVENT_KEYS keys, none of them undefined |
| Ingestion.CurrentOverridesUpcoming | functions/src/index.ts:317-319 | the records of currentEvents come after those of upcomingEvents, so a current record overrides every upcoming record with the same id |
| Ingestion.OthersUnchanged | functions/src/index.ts:324-335 | a document that no record names keeps its presence and content |
| Ingestion.WholeDocumentReplaced | functions/src/index.ts:332 | what a committed run stores under a written id does not depend on what was stored there before |
| Ingestion.IngestIdempotent | functions/src/index.ts:317-335 | ingesting the same payload twice gives the same store and outcome as ingesting it once |
| Ingestion.EventStore.Ingest | functions/src/index.ts:317-335 | the looping ingestion method leaves exactly the store and outcome of one run of `Ingested` over the old store |

## Left out

- The OpenAI embedding call and the Pinecone query (functions/src/index.ts:47-61) are foreign services. Together they are the `neighbours` parameter of `Search.SearchHandler`, which returns the matches for a namespace, model, query and TOPK, or `None` when one of them throws.
- Search.SearchHandler: when the handler's promise rejects, the model says only that nothing is sent (`Failed`); what the platform then answers the client is not modelled. Which read failed, and the error text, are not modelled either.
- Firestore reads are a map from collection name to documents, plus the set of ids whose read fails.
- Upcoming.UpcomingEvents: events with equal start times may come in either order, and the limit may cut either of them; Firestore breaks such ties by document id, which the model leaves open.
- Search.Hydrate: `Promise.all` runs the lookups concurrently; the model runs them in sequence, which yields the same ordered result.
- Match scores are floating-point numbers; the model carries them as opaque values and never computes on them. A missing score is not modelled: every match has one.
- Upcoming.UpcomingEvents: the current time is a parameter, not a clock read. A negative TOPK is not modelled, since TOPK is a natural number here.
- JSON parsing and serialisation are not modelled, nor the response headers. A property holding `undefined` is kept in the model, while JSON output omits it.
- Logging and the `render_event` handler are not part of this model. Neither is anything that draws images, nor the scheduler that triggers `getevents`.
- The dashboard fetch is the `Payload` parameter of `Ingestion.EventStore.Ingest`. A list property that is truthy but not an array is not modelled, nor a record that is not an object.
- Ingestion.IdOf: treats every id containing '/' as refused by `doc`, although Firestore accepts some multi-segment paths. The reserved ids `.`, `..` and `__…__` are not modelled either, nor the same checks in the lookups of Search.Hydrate.
- Ingestion.Ingested: a commit failure in transport, and Firestore's limit on the number of writes in one batch, are not modelled. The commit is one atomic map update.
- Ingestion.Ingested: the Firestore setting `ignoreUndefinedProperties` is taken at its default, under which `set` refuses `undefined`. An `undefined` nested inside an object or array value is not seen, because field values are opaque here.
- Search.SearchHandler: a request without a parsed body is not modelled; the body is always an object.
