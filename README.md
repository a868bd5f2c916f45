# Reviews service: a Dafny model

This project models the core of a small Go microservice that stores
product reviews and is driven over RabbitMQ. The model covers these parts:

- **Router** (`MessageRouter`, router.dfy). It decodes each delivery's JSON
  envelope `{pattern, data}` and dispatches on the pattern (`get-review`,
  `get-reviews`, `create-review`, `update-review`, `delete-review`). It
  calls the service, answers the two reads with a reply correlated to the
  request, and acknowledges the delivery. For a known pattern each failed
  step is Nacked and the handler carries on, so the delivery is finally
  Acked as well; an unknown pattern is only Nacked. The router is a class whose
  `log` field records every action in order.
- **Service** (`MessageService`, service.dfy). It forwards to the store's
  review repository. Update and Delete also apply the zero-rows rule.
- **In-memory store** (`TestingStorage`, testingstorage.dfy). It has a
  `Store` whose repository is created lazily. The `ReviewRepository` keeps
  a map from id to review; it validates, assigns ids, merges updates
  field by field, and lists records by key.
- **Review model** (`ReviewModel`, model.dfy). `Validate` trims the text
  fields in place, then checks the tag rules (`required_without=ID`,
  email, and the 1..10, 3..50 and 3..500 ranges).
- **Store errors** (`StoreErrors`, errors.dfy). These are the two shared
  error singletons: `AddFields` appends to one and `Record` overwrites the
  other.
- **Provider client** (`Provider`, provider.dfy). It builds a
  `get-reviews` request with a correlation id and a reply queue. It then
  waits for the first reply that carries that id.

What lies outside the model becomes an input:

- the result of JSON decoding and encoding;
- whether a service call, a publish or a marshal fails;
- the correlation id;
- the stream of deliveries.

Each state-changing operation is a method. Its result and new state are
tied to a pure step function (`CreateStep`, `UpdateStep`, `DeleteStep`,
`Lookup`, `CallLog`, `FirstMatch`). The properties are proved about those
functions.

The repository does not type-check as it stands, so three of its lines
are resolved as follows:

- service.go:34 and :42 read `(rowCnt, err)` from `Update` and `Delete`.
  The repository interface (`internal/store/reviewrepository.go`) and the
  in-memory store return only an error. The model follows the interface
  and keeps the zero-rows rule as a function over an abstract
  `(rows, error)` pair. `RowsAffected` gives the in-memory store's count:
  1 on success, 0 on error.
- `testingstorage/store.go:20` builds a `map[uint]` for an `int`-keyed
  field. The model uses `int` keys.
- `handler.go:48` names an undefined `Server`. That file is not part of
  this model.

## Model

| member | source | states |
|---|---|---|
| ReviewModel.Trim | internal/model/review.go:14-17 | trimming never lengthens a field, and a non-empty result neither starts nor ends with white space |
| ReviewModel.IsSpace | internal/model/review.go:22 | the white space that trimming removes (Go's `unicode.IsSpace`) never includes a letter, a digit, '@', '.', '_' or '-' |
| ReviewModel.TrimIsInfix | internal/model/review.go:22 | the trimmed field is the original with only white space removed from its two ends |
| ReviewModel.BlankTrimsToEmpty | internal/model/review.go:22 | a field of white space only trims to the empty string |
| ReviewModel.TrimKeeps | internal/model/review.go:22 | a field without white space at either end is left unchanged |
| ReviewModel.TrimIdempotent | internal/model/review.go:22 | trimming twice is trimming once |
| ReviewModel.Conform | internal/model/review.go:14-22 | conform.Strings trims only the three `conform:"trim"` fields, so the id and the rating pass through unchanged |
| ReviewModel.ConformIdempotent | internal/model/review.go:22 | a second conform.Strings leaves the trimmed review as it is |
| ReviewModel.IsEmail | internal/model/review.go:14 | an address accepted by the model's email predicate has at least five characters and contains '@', but neither starts nor ends with it |
| ReviewModel.Acceptable | internal/model/review.go:13-17 | a review that meets the tag rules has rating 0..10, a title of at most 50 and a description of at most 500 characters; with id 0 it also has rating at least 1 and title and description of at least 3 |
| ReviewModel.AuthorError | internal/model/review.go:14 | at most one Author error; none exactly when the author is present and an address, or absent with a non-zero id; required_without exactly when it is absent with id 0 |
| ReviewModel.RatingError | internal/model/review.go:15 | at most one Rating error; none exactly when the rating is in 1..10, or zero with a non-zero id; required_without exactly when it is zero with id 0 |
| ReviewModel.LengthError | internal/model/review.go:16-17 | at most one error, for the named field; none exactly when the text is present within lo..hi, or absent with a non-zero id; required_without exactly when it is absent with id 0 |
| ReviewModel.Violations | internal/model/review.go:13-17 | the tag check reports no error exactly when the review meets every rule; at most four errors, only for the four tagged fields |
| ReviewModel.ViolationsInFieldOrder | internal/model/review.go:13-17 | the error list names each field at most once, in the order Author, Rating, Title, Description |
| ReviewModel.Validate | internal/model/review.go:20-27 | validation keeps id and rating, and fails exactly when the trimmed review breaks a rule |
| ReviewModel.ValidateIdempotent | internal/model/review.go:20-27 | validating the trimmed review again gives the same result |
| ReviewModel.RequiredWithoutId | internal/model/review.go:14-17 | with id 0, an empty author, zero rating, or blank title or description each gives a required_without error |
| ReviewModel.OptionalWithId | internal/model/review.go:14-17 | with a non-zero id, all four fields may be empty or zero |
| ReviewModel.BlankTitleIsEmpty | internal/model/review.go:16 | a title of white space only becomes empty and, with id 0, is reported as missing |
| ReviewModel.BlankDescriptionIsEmpty | internal/model/review.go:17 | a description of white space only becomes empty and, with id 0, is reported as missing |
| ReviewModel.PresentFieldBounds | internal/model/review.go:14-17 | a valid review has rating 1..10 when non-zero, title 3..50 and description 3..500 when present, and an email-shaped author when present |
| ReviewModel.Fixture | internal/model/testing.go:8-13 | the test review has id 0, a present author, rating 1..10, and title and description within their length bounds |
| ReviewModel.AddressIsEmail | internal/model/review.go:14 | the model's email predicate (an approximation of the validator's email tag) accepts local@host.tld whenever the three parts are non-empty and free of '@' |
| ReviewModel.FixtureAuthorIsEmail | internal/model/testing.go:8-13 | the fixture's author is an email address |
| ReviewModel.ConformKeeps | internal/model/review.go:22 | trimming leaves a review with already-trimmed text fields unchanged |
| ReviewModel.FixtureValid | internal/model/review_test.go:33-37 | the fixture passes validation and trimming leaves it unchanged |
| ReviewModel.NoAtIsNotEmail | internal/model/review.go:14 | a string without '@' is not an email address |
| ReviewModel.AuthorWithoutAtRejected | internal/model/review.go:14 | replacing the author of a valid review by a non-empty word without '@' gives exactly one error, the email tag on Author |
| ReviewModel.InvalidIsBareWord | internal/model/review_test.go:49-56 | "invalid" is unchanged by trimming and has no '@' |
| ReviewModel.InvalidAuthorRejected | internal/model/review_test.go:49-56 | the fixture with author "invalid" fails only on the email tag |
| StoreErrors.NotFoundTextInjective | internal/store/errors.go:35-37 | "record X not found" determines X |
| StoreErrors.Join | internal/store/errors.go:23 | strings.Join of no names is empty; otherwise its length is the names' total length plus one separator between each two neighbours |
| StoreErrors.FieldsMissingText | internal/store/errors.go:22-24 | the message always starts with "fields missing: ", is just that with no fields, and names the one field when there is one |
| StoreErrors.NotFoundText | internal/store/errors.go:35-37 | the message is "record ", the record, then " not found", and the record can be read back from it |
| StoreErrors.RepeatedNameJoin | internal/store/errors.go:22-24 | joining k+1 copies of a name with ", " is the name followed by k times ", name" |
| StoreErrors.RepeatedIdText | internal/store/errors.go:17-24 | after k+1 "id"s accumulate, the message reads "fields missing: id" then k times ", id" |
| StoreErrors.RequiredFieldMissing.constructor | internal/store/errors.go:10 | the singleton starts with no fields |
| StoreErrors.RequiredFieldMissing.AddFields | internal/store/errors.go:17-20 | appends the names in order to the existing list and returns the same instance |
| StoreErrors.RecordNotFound.constructor | internal/store/errors.go:9 | the singleton starts with an empty record name |
| StoreErrors.RecordNotFound.Record | internal/store/errors.go:30-33 | overwrites the record name and returns the same instance |
| StoreErrors.ErrorValues.constructor | internal/store/errors.go:8-11 | the two singletons are distinct new objects in their zero state |
| StoreErrors.ValidationTexts | internal/model/review.go:26 | one line per failed tag, in order, each "Key: 'Review.F' Error:Field validation for 'F' failed on the 'T' tag" for field F and tag T |
| StoreErrors.InvalidText | internal/model/review.go:26 | the text of a validation error is empty exactly when no tag failed, and otherwise opens with the line for the first failed tag |
| TestingStorage.Decimal | internal/store/testingstorage/reviewrepository.go:44 | the decimal text of an id is non-empty and starts with '-' exactly for negative ids |
| TestingStorage.DigitsDenote | internal/store/testingstorage/reviewrepository.go:44 | the decimal digits of a natural number stand for that number |
| TestingStorage.DecimalInjective | internal/store/testingstorage/reviewrepository.go:44 | different ids have different decimal texts |
| TestingStorage.NotFoundNamesId | internal/store/testingstorage/reviewrepository.go:44 | the not-found message written for an id determines that id |
| TestingStorage.BoundedKeysAreDense | internal/store/testingstorage/reviewrepository.go:27-35 | a map whose keys all lie in 1..size has exactly the keys 1..size |
| TestingStorage.CreateStep | internal/store/testingstorage/reviewrepository.go:15-25 | create succeeds exactly when validation passes; on success the trimmed review gets id size+1 and is stored under it; on failure the map is unchanged and the validation error is returned |
| TestingStorage.UpdateStep | internal/store/testingstorage/reviewrepository.go:50-86 | id 0 gives field-missing, failed validation gives its error, an absent id gives not-found, each with the map unchanged; otherwise only the record under the id changes; the key set never changes |
| TestingStorage.DeleteStep | internal/store/testingstorage/reviewrepository.go:88-101 | id 0 gives field-missing and an absent id gives not-found, with the map unchanged; otherwise exactly that key is removed |
| TestingStorage.Lookup | internal/store/testingstorage/reviewrepository.go:37-48 | id 0 gives field-missing, an absent id gives not-found, and a present id gives the stored record |
| TestingStorage.CreateKeepsDense | internal/store/testingstorage/reviewrepository.go:20-22 | when the keys are exactly 1..n, a create keeps them exactly 1..size, and a successful create adds one record |
| TestingStorage.UpdateKeepsDense | internal/store/testingstorage/reviewrepository.go:59-85 | an update keeps the keys exactly 1..size |
| TestingStorage.StepsKeepIds | internal/store/testingstorage/reviewrepository.go:20-22 | create and update keep every record's id equal to its key |
| TestingStorage.CreatesStayDense | internal/store/testingstorage/reviewrepository.go:20-22 | after n valid creates on a map keyed 1..m, the keys are exactly 1..m+n |
| TestingStorage.UpdateMerges | internal/store/testingstorage/reviewrepository.go:64-85 | each non-empty or non-zero request field overwrites the stored one, and each empty or zero field is taken from it; afterwards the request equals the stored record and keeps its id |
| TestingStorage.EmptyUpdateIsNoop | internal/store/testingstorage/reviewrepository.go:64-85 | an update carrying only an id leaves the map unchanged and returns the stored record |
| TestingStorage.UpdateIdempotent | internal/store/testingstorage/reviewrepository.go:50-86 | applying the same update twice is applying it once |
| TestingStorage.CreateThenLookup | internal/store/testingstorage/reviewrepository.go:20-24 | after a valid create, looking up size+1 gives the created record |
| TestingStorage.DeleteThenLookup | internal/store/testingstorage/reviewrepository.go:88-101 | after a delete the id is not found; Delete(0) leaves every record readable |
| TestingStorage.DeleteCanBreakDense | internal/store/testingstorage/reviewrepository.go:98 | deleting id 1 of {1,2} leaves keys that are no longer 1..size |
| TestingStorage.CreateOverwritesTakenId | internal/store/testingstorage/reviewrepository.go:20-22 | when key size+1 is already taken, create overwrites that record and the map does not grow |
| TestingStorage.DeleteFirstOfTwo | internal/store/testingstorage/reviewrepository.go:98 | deleting id 1 from {1,2} leaves only record 2 |
| TestingStorage.CreateAfterDeleteOverwrites | internal/store/testingstorage/reviewrepository.go:20-22 | after deleting id 1 from {1,2}, a create takes id 2 and replaces the record stored there |
| TestingStorage.CollectedInOrder | internal/store/testingstorage/reviewrepository.go:28-32 | a list of the map's size with record k at position k-1 exists only when the keys are 1..size |
| TestingStorage.OutOfRangeKey | internal/store/testingstorage/reviewrepository.go:31 | a key outside 1..size means the keys are not 1..size |
| TestingStorage.ListByKey | internal/store/testingstorage/reviewrepository.go:27-35 | the listing succeeds exactly when the keys are 1..size, with record k at position k-1; otherwise it panics on a key outside that range |
| TestingStorage.InOrderIds | internal/store/testingstorage/reviewrepository.go:27-35 | in a successful listing the record at position i has id i+1 |
| TestingStorage.MergeFields | internal/store/testingstorage/reviewrepository.go:64-83 | the merged record and the request both end up equal to the field-by-field patch |
| TestingStorage.Patch | internal/store/testingstorage/reviewrepository.go:64-83 | the merge keeps the stored id; a request with every field empty leaves the stored record, and one with every field present replaces all of it |
| TestingStorage.ReviewRepository.constructor | internal/store/testingstorage/store.go:18-21 | a new repository has an empty map and points back to its store |
| TestingStorage.ReviewRepository.Create | internal/store/testingstorage/reviewrepository.go:15-25 | the new map, the caller's record and the error are those of the create step; the returned id is the new id, or 0 on error |
| TestingStorage.ReviewRepository.FindAll | internal/store/testingstorage/reviewrepository.go:27-35 | lists the records in key order when the keys are 1..size, and panics on a key outside that range otherwise |
| TestingStorage.ReviewRepository.FindOne | internal/store/testingstorage/reviewrepository.go:37-48 | returns the lookup result; id 0 appends "id" to the field-missing singleton and an absent id writes its decimal text into the not-found singleton |
| TestingStorage.ReviewRepository.Update | internal/store/testingstorage/reviewrepository.go:50-86 | the new map, the caller's record and the error are those of the update step; id 0 appends "id" to the field-missing singleton |
| TestingStorage.ReviewRepository.Delete | internal/store/testingstorage/reviewrepository.go:88-101 | the new map and the error are those of the delete step, with the same singleton effects as FindOne |
| TestingStorage.Store.New | internal/store/testingstorage/store.go:12-14 | a new store has no repository and no records |
| TestingStorage.Store.Review | internal/store/testingstorage/store.go:16-25 | the first call creates an empty repository; later calls return the same one, and the records are never changed |
| MessageService.ZeroRowRule | internal/messagehandler/service.go:33-48 | no error exactly when rows were affected and the repository reported none; a repository error passes through; zero rows without an error become "record not found" |
| MessageService.RowsAffected | internal/store/testingstorage/reviewrepository.go:50-101 | the model's stand-in for the row count the repository does not return: 0 exactly when the in-memory repository returns an error, 1 otherwise |
| MessageService.ZeroRowRuleKeepsRepositoryError | internal/messagehandler/service.go:33-48 | over the in-memory store, the zero-rows rule returns the repository's own error unchanged |
| MessageService.Service.constructor | internal/messagehandler/service.go:22-26 | the service wraps the given store |
| MessageService.Service.Create | internal/messagehandler/service.go:28-31 | forwards to the repository, creating it on first use; the new records and the error are those of the create step |
| MessageService.Service.Update | internal/messagehandler/service.go:33-39 | the new records and the error are those of the update step |
| MessageService.Service.Delete | internal/messagehandler/service.go:41-48 | the new records and the error are those of the delete step |
| MessageService.Service.ReadOne | internal/messagehandler/service.go:50-52 | returns the lookup result and leaves the records unchanged |
| MessageService.Service.ReadAll | internal/messagehandler/service.go:54-56 | returns the by-key listing and leaves the records unchanged |
| MessageService.NewTestService | internal/messagehandler/service_test.go:13 | a service over a new, empty store that shares the process's error singletons, whatever they hold |
| MessageService.CreateOnFreshStore | internal/messagehandler/service_test.go:27-66 | on a fresh store a valid create gets id 1 and keeps the trimmed fields; an invalid one returns its validation error and keeps its id |
| MessageService.CreateFixtureOnFreshStore | internal/messagehandler/service_test.go:27-66 | creating the fixture on a fresh store succeeds with id 1 and no other change |
| MessageService.UpdateScenarios | internal/messagehandler/service_test.go:125-165 | Update with id 0 fails with field-missing and adds one more "id" to the shared singleton; an update carrying only the id leaves the stored record as created and makes the request equal to it |
| MessageService.DeleteScenarios | internal/messagehandler/service_test.go:183-215 | Delete(0) fails, adding one "id" to the shared singleton, and the record stays readable; after Delete(1), ReadOne(1) is not found and the not-found singleton names "1" |
| MessageService.CreateAppends | internal/store/testingstorage/reviewrepository.go:20-22 | a valid create on a map keyed 1..n by earlier creates stores the new record under n+1 |
| MessageService.InOrderOfKeyed | internal/store/testingstorage/reviewrepository.go:27-35 | the by-key listing of records created in sequence is that sequence |
| MessageService.CreateEach | internal/messagehandler/service.go:28-31 | n valid creates on a fresh store leave n records keyed 1..n, the i-th created under key i+1 |
| MessageService.ReadAllAfterCreates | internal/messagehandler/service_test.go:276-315 | after n valid creates of separate records on a fresh store, ReadAll lists n records, the i-th being the i-th trimmed review with id i+1 (the test creates one shared pointer n times; that aliasing is not modelled) |
| MessageService.RepeatedMissingId | internal/store/errors.go:8-20 | when k+1 services, each over its own store, read id 0 once, the process-wide field-missing list gains k+1 "id"s after what it already held; starting from an unused singleton the message is "fields missing: id" followed by k times ", id" |
| MessageRouter.RouteOf | internal/messagehandler/router.go:13-19 | each branch is taken exactly when the pattern equals its constant |
| MessageRouter.Decoded | internal/messagehandler/router.go:37-38 | a body that decodes gives its envelope; one that does not leaves the zero envelope, whose empty pattern selects no branch |
| MessageRouter.CallOf | internal/messagehandler/router.go:41-85 | no service call exactly when the pattern is none of the five; the call is a read exactly for the two get patterns |
| MessageRouter.Nacks | internal/messagehandler/router.go:89-94 | rejectOnError contributes one Nack(false,false) on failure and nothing otherwise |
| MessageRouter.Reply | internal/messagehandler/router.go:96-111 | the reply goes to exchange "" under the delivery's ReplyTo, with its correlation id, the JSON content type and the given body, and sets neither ReplyTo nor a delivery mode |
| MessageRouter.CallLog | internal/messagehandler/router.go:42-80 | a known pattern's actions start with the service call and end with the Ack; there are two plus one per failed step, plus the reply for a read |
| MessageRouter.DeliveryLog | internal/messagehandler/router.go:41-85 | one delivery causes at least one action, and the last one is an Ack exactly when the pattern is known |
| MessageRouter.Log | internal/messagehandler/router.go:35-86 | a stream causes at least one action per delivery |
| MessageRouter.UndecodableIsRejected | internal/messagehandler/router.go:37-38 | a body that does not decode takes the default branch: one Nack without requeue, no service call, no publish, no Ack |
| MessageRouter.UnknownPatternIsRejected | internal/messagehandler/router.go:82-84 | any other pattern gets one Nack without requeue and nothing else |
| MessageRouter.CallCarriesData | internal/messagehandler/router.go:41-80 | a known pattern calls the service with the envelope's data, or its id, and is a read exactly for the two get patterns |
| MessageRouter.MutationsNeverPublish | internal/messagehandler/router.go:65-80 | create, update and delete call the service once, never publish, and end with the Ack, with a Nack before it when the call failed |
| MessageRouter.NacksCount | internal/messagehandler/router.go:89-94 | rejectOnError adds one Nack(false,false) per failure and nothing else |
| MessageRouter.ReadCount | internal/messagehandler/router.go:42-63 | a read's actions hold one service call, one publish, one Ack, and one Nack per failed step |
| MessageRouter.MutationCount | internal/messagehandler/router.go:65-80 | a mutation's actions hold one service call, one Ack, no publish, and a Nack only when the call failed |
| MessageRouter.ReadsPublishOnce | internal/messagehandler/router.go:96-111 | a read publishes exactly one reply, whether or not a step failed: to exchange "" with the delivery's ReplyTo as routing key, its correlation id, and the JSON content type |
| MessageRouter.AckIsLast | internal/messagehandler/router.go:43-52 | the service call comes first and the Ack last, each once; the Nacks count the failed steps |
| MessageRouter.LogConcat | internal/messagehandler/router.go:35-36 | the log of a stream is the per-delivery logs concatenated in arrival order |
| MessageRouter.AcksCountKnownPatterns | internal/messagehandler/router.go:35-86 | a stream gets exactly one Ack per delivery with a known pattern |
| MessageRouter.Router.constructor | internal/messagehandler/router.go:27-33 | a new router has taken no action |
| MessageRouter.Router.RejectOnError | internal/messagehandler/router.go:89-94 | adds one Nack without requeue only on failure, and returns either way |
| MessageRouter.Router.RpcResponse | internal/messagehandler/router.go:96-111 | publishes one reply and reports the publish error |
| MessageRouter.Router.HandleMessage | internal/messagehandler/router.go:37-85 | the log grows by exactly the delivery's actions |
| MessageRouter.Router.HandleMessages | internal/messagehandler/router.go:35-86 | the log grows by the stream's actions, one delivery after another |
| Provider.MakeRequest | cmd/provider/main.go:67-73 | the request goes to exchange "" under "reviews_queue", persistent, with the correlation id, the reply queue, the JSON content type and the encoded body |
| Provider.RequestMessage | cmd/provider/main.go:58-61 | the request envelope selects the router's get-reviews branch and carries the zero review |
| Provider.FirstMatch | cmd/provider/main.go:77-84 | finds the first delivery whose correlation id matches; every earlier one differs; there is none exactly when no delivery matches |
| Provider.ReplyOutcome | cmd/provider/main.go:79-81 | a matched reply that decodes gives its reviews; one that does not is the fatal decode error |
| Provider.Awaited | cmd/provider/main.go:77-84 | the wait ends with the stream exactly when no delivery carries the id, and is never an encode or publish failure |
| Provider.Consumed | cmd/provider/main.go:77-84 | the wait takes at most the whole stream; if it stops early, the last delivery taken carries the id and every one before it carries another |
| Provider.AwaitReply | cmd/provider/main.go:77-85 | the loop stops at the first match, decodes it, and consumes it with every skipped delivery before it; with no match it consumes the whole stream |
| Provider.RequestReviews | cmd/provider/main.go:58-85 | a failed encode or publish is fatal before anything is read; otherwise the outcome is that of the first match |
| Provider.RequestIsAnswered | cmd/provider/main.go:58-73 | the service reads the request as get-reviews and publishes one reply, to the caller's reply queue under its correlation id |
| Provider.ReplyAfterOthersIsTaken | cmd/provider/main.go:77-84 | a reply after deliveries for other callers is the one taken, with the others consumed before it |
| Provider.DistinctIdsNeverCross | cmd/provider/main.go:78 | two different correlation ids never pick the same delivery |
| Provider.SkippedAreLost | cmd/provider/main.go:77-78 | every delivery consumed before the match carries another id |

## Left out

- JSON encoding and decoding are inputs. A decoded envelope is `Option<Message>`, and a marshalled reply is `Option<seq<byte>>`. A body that fails to decode is treated as the zero envelope; a body that decodes only partly is not modelled.
- The email check of the validator library is approximated. The model accepts a string with exactly one '@', not at the start, followed by a domain of at least three characters that has a '.' strictly inside it. The model proves properties of this predicate, not of the library's full address grammar.
- Trimming removes the white space of Go's `unicode.IsSpace`. Unicode normalisation is not modelled.
- Pointer aliasing is not modelled. The Go repository stores the caller's pointer, so a later change to that review would show up in the store. The model uses values, and each method returns the caller's record as it is after the call. In particular, creating the same pointer n times, as internal/messagehandler/service_test.go:276-315 does, leaves n keys that all point to one record whose id is n; the model's ReadAllAfterCreates speaks of n separate records.
- `int` is unbounded. Go's 64-bit `int` cannot overflow at any size a map can reach. `int8` is modelled as a subset type.
- The broker connection, queue declarations, configuration, logging and the five-second publish contexts are not part of this model. Neither is the Postgres store, which merges updates the same way as the in-memory one.
- The FindAll panic (an index out of range) is an `IndexPanic` outcome. The model does not stop the program there.
- MessageService.Service.Update, MessageService.Service.Delete: these follow the repository interface, which returns only an error. The `rowCnt` they read at service.go:34,42 comes from `RowsAffected`, which derives it from that error. As a result, the zero-rows error "record not found" never arises over the in-memory store. `ZeroRowRule` states the rule for any row count.
- Provider.RequestReviews: the uuid generator is a parameter, so fresh ids are not guaranteed. Fatal errors become outcomes instead of exiting.
- StoreErrors.RequiredFieldMissing.Error, StoreErrors.RecordNotFound.Error: these carry no contract of their own. Each applies `FieldsMissingText` or `NotFoundText` to the singleton's field as it stands when the message is printed, and those two functions carry the contracts on the texts.
- Provider.Delivered: the service is taken to decode the published body as the "get-reviews" envelope, whatever bytes the JSON encoder produced. The JSON round trip from the provider's encoding to the router's decoding is assumed, not proved, so `RequestIsAnswered` rests on it.
