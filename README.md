# axum-boilerplate, modelled in Dafny

This project models the self-contained logic of the axum-boilerplate web
service: its parts that decide something rather than glue frameworks
together.

- **WebSocket pub/sub registry** (`app/src/ws/pubsub.rs`):
  - the shared map from topic name to subscribers;
  - one connection's read loop, with its subscribe, publish, cancel, ping/pong, close and error handling;
  - the cleanup that runs when the loop ends.

  `PubSubSpec` states all of this as functions over values: `Step` is one turn of the loop and `Run` is the loop over a whole frame sequence. `PubSub` is the imperative form: a `PubSubState` class whose `topics` map its methods update in place, and a `Sinks` object holding each connection's outbox. `PubSubState.Serve` is proved to end in exactly the state `Run` followed by `Disconnect` describes.
- **In-memory sample repositories and the use-case layer.**
  - The `SampleRepositoryMap` test store of `src/tests/sample_usecase_test.rs` implements the `BasicRepository` contract. Its default `delete` is included.
  - The older `save`-based store of `app/src/tests/sample_usecase_test.rs`.
  - `BasicSampleUsecase`, which passes calls through to its repository.
  - The `sample_usecase` test scenario.

  Both stores share `RowTable`: max+1 id allocation and the unordered listing of a `HashMap`.
- **REST/gRPC multiplexer** (`src/proto/mod.rs`): the readiness flags driven by `poll_ready`, required and cleared by `call`, and routing on the Content-Type prefix `application/grpc` described in the "Requests" section of the gRPC over HTTP/2 protocol document.
- **Pure decisions:**
  - the vote service;
  - the rendering of both diagnostics `Error` enums as HTTP responses (statuses 400, 401 and 404 of sections 15.5.1, 15.5.2 and 15.5.5 of RFC 9110);
  - the error-normalising `response_map` middleware, for the 4xx and 5xx classes of sections 15.5 and 15.6 of RFC 9110. Its `std::str::from_utf8` is modelled by an RFC 3629 UTF-8 decoder, proved to be the inverse of the encoder;
  - the tracing configuration strings and the `app_only` target filter.

Source paths below are relative to the repository root.

## Model

| member | source | states |
|---|---|---|
| Utf8.Encode | app/src/util/middleware.rs:20 | The UTF-8 encoding of a text takes between one and four bytes per scalar value. |
| Utf8.DecodeChar | app/src/util/middleware.rs:20 | The first scalar value of a well-formed input and its length of one to four bytes, by the RFC 3629 table: overlong forms, surrogates and values above U+10FFFF are rejected. Its inverse property is `Utf8.EncodeDecode`. |
| Utf8.Decode | app/src/util/middleware.rs:20 | `std::str::from_utf8`: the text, or `None` when the bytes are not well-formed UTF-8. Decoding is characterised by `Utf8.DecodesTo`: a result `s` comes back exactly for the bytes `Encode(s)`. |
| Utf8.DecodeEncode | app/src/util/middleware.rs:20 | Decoding the encoding of any text gives that text back. |
| Utf8.EncodeDecode | app/src/util/middleware.rs:20 | Any byte string that decodes is exactly the encoding of the text it decodes to. |
| Utf8.DecodesTo | app/src/util/middleware.rs:19-21 | A body decodes to text `s` if and only if it is `s` encoded. |
| Utf8.AsciiIsUtf8 | src/proto/mod.rs:114 | An ASCII literal's bytes are its UTF-8 encoding. |
| Diagnostics.FromSqlx | src/diagnostics.rs:66-73 | sqlx `RowNotFound` becomes `RowNotFound`, and exactly that. Every other sqlx error is wrapped as `SqlXError`. |
| Diagnostics.IntoResponse | src/diagnostics.rs:75-103 | `JsonResponse` keeps its code and body. Json/Path rejections are 400 with `{"message": …}`. `NotFound` is 404 and `Unauthorized` is 401, both with no body. Every other variant is 400 with `{"message": <Debug text>}`. The diagnostics header is "true" on every response. |
| Diagnostics.RenderedStatus | src/diagnostics.rs:77-96 | Apart from `JsonResponse`: status 404 iff `NotFound`, 401 iff `Unauthorized`, 400 iff neither. |
| Diagnostics.MissingRowIsBadRequest | src/diagnostics.rs:68-95 | A missing sqlx row renders as 400, not 404. |
| AppDiagnostics.FromSqlx | app/src/diagnostics.rs:56-63 | sqlx `RowNotFound` becomes `RowNotFound`, and exactly that. Every other sqlx error is wrapped as `SqlXError`. |
| AppDiagnostics.IntoResponse | app/src/diagnostics.rs:65-92 | The same rendering as the service crate, with no 401 arm. The diagnostics header is "true" on every response. |
| AppDiagnostics.RenderedStatus | app/src/diagnostics.rs:67-85 | Apart from `JsonResponse`: status 404 iff `NotFound`, and 400 otherwise. |
| Middleware.ResponseMap | app/src/util/middleware.rs:9-28 | The status is preserved. A non-error status is returned unchanged. An error response that carries the diagnostics header is returned unchanged. Any other error response loses the header and gets a JSON or empty body. |
| Middleware.IsErrorStatus | app/src/util/middleware.rs:10 | A client-error or server-error status: the status lies in 400-599 (sections 15.5 and 15.6 of RFC 9110). `Middleware.ResponseMap` states what the middleware does on either side of this test. |
| Middleware.WrapsUtf8Body | app/src/util/middleware.rs:18-21 | An unmarked error response becomes `{"error": text}` with the same status if and only if its body read yields the UTF-8 encoding of `text`. |
| Middleware.DropsUnreadableBody | app/src/util/middleware.rs:19-24 | An unmarked error response becomes the bare status with an empty body if and only if its body cannot be read or is not UTF-8. |
| Middleware.EmptyBodyBecomesEmptyError | app/src/util/middleware.rs:19-21 | An empty body becomes `{"error": ""}`. |
| Middleware.RenderedErrorsPassThrough | app/src/util/middleware.rs:11-16 | Every response rendered from a diagnostics error passes through unchanged. |
| Voting.Vote | app/src/proto/voting.rs:14-31 | The result is `Ok` iff the vote is 0 or 1. Vote 0 gives the upvote confirmation plus the url. Vote 1 gives the downvote confirmation plus the url. Any other vote gives `OutOfRange` with "Invalid vote provided". |
| Voting.ConfirmationIdentifiesVote | app/src/proto/voting.rs:19-25 | Equal confirmations come from the same vote and url. |
| Tracing.IntoRotation | app/src/utils/tracing.rs:13-20 | "MINUTELY", "HOURLY" and "NEVER" give their rotations, and every other string gives DAILY (both directions). |
| Tracing.IntoLevel | app/src/utils/tracing.rs:22-30 | "TRACE", "DEBUG", "INFO" and "WARN" give their levels, and every other string gives ERROR (both directions). |
| Tracing.RotationNames | app/src/utils/tracing.rs:13-20 | The name of each rotation maps back to it. |
| Tracing.LevelNames | app/src/utils/tracing.rs:22-30 | The name of each level maps back to it. |
| Tracing.CaseSensitive | app/src/utils/tracing.rs:14-28 | "debug" maps to ERROR and "hourly" to DAILY. |
| Tracing.FirstSegment | app/src/utils/tracing.rs:34 | The result is the longest prefix of the path before the first "::", or the whole path when it has none. |
| Tracing.AppName | app/src/utils/tracing.rs:34 | The app name contains no "::" separator. |
| Tracing.FirstSegmentUnique | app/src/utils/tracing.rs:34 | Only one prefix meets that description. |
| Tracing.AppNameOfModule | app/src/utils/tracing.rs:34 | The app name of `crate::rest` is `crate`, for a crate name without "::". |
| Tracing.Admits | app/src/utils/tracing.rs:54-60 | With `app_only` off every target passes. With it on, exactly the targets starting with the app name pass. |
| Tracing.AdmitsLongerCrateNames | app/src/utils/tracing.rs:56 | The prefix test also admits a target of another crate whose name extends the app name. |
| Entity.WithName | src/entity/sample.rs:12-17 | The result has id 0 (through `get_id`) and the given name. |
| Entity.Sample.GetId | src/entity/sample.rs:27-29 | `get_id` returns the `id` field. `SampleStore.SampleRepositoryMap.Delete` uses it to state the default `delete`. |
| RowTable.NextId | src/tests/sample_usecase_test.rs:32-36 | The id is 0 for an empty table and otherwise one more than a stored key, and it exceeds every stored key. |
| RowTable.MaxKey | src/tests/sample_usecase_test.rs:35 | The scan returns the largest key, which is one less than `NextId`. |
| RowTable.Collect | src/tests/sample_usecase_test.rs:41-47 | The listing has one sample per stored pair, nothing else, and distinct ids. |
| RowTable.ListingsArePermutations | src/tests/sample_usecase_test.rs:43-46 | Any two listings of the same table are permutations of each other. |
| RowTable.ListingSize | src/tests/sample_usecase_test.rs:43-46 | A listing has exactly as many entries as the table. |
| SampleStore.Select | src/tests/sample_usecase_test.rs:85-93 | The selection holds exactly the stored samples whose ids are listed, and is never longer than the id list. |
| SampleStore.SelectAppend | src/tests/sample_usecase_test.rs:85-93 | Selection distributes over concatenation of the id list, so input order and repeats are kept. |
| SampleStore.SampleRepositoryMap.constructor | src/tests/sample_usecase_test.rs:20-24 | A new store is empty. |
| SampleStore.SampleRepositoryMap.FromRef | src/tests/sample_usecase_test.rs:139-143 | Every `from_ref` builds a new, empty store. |
| SampleStore.SampleRepositoryMap.Create | src/tests/sample_usecase_test.rs:29-39 | The incoming id is ignored. The new id is `NextId` of the old table and is fresh. Exactly that entry is added. The result is `Ok(Sample(id, name))`. |
| SampleStore.SampleRepositoryMap.FindAll | src/tests/sample_usecase_test.rs:41-47 | `Ok` with a listing of the table. |
| SampleStore.SampleRepositoryMap.FindById | src/tests/sample_usecase_test.rs:49-56 | `Ok(Sample(id, name))` when stored, `Err(RowNotFound)` otherwise. |
| SampleStore.SampleRepositoryMap.FindAllById | src/tests/sample_usecase_test.rs:79-95 | `Ok` of the selection of the ids in input order, with missing ids skipped. |
| SampleStore.SampleRepositoryMap.Update | src/tests/sample_usecase_test.rs:58-63 | Upsert: the id maps to the name afterwards, nothing else changes, and the entity is returned. |
| SampleStore.SampleRepositoryMap.Delete | src/repository/basic_repository.rs:22-27 | The same effect and result as `DeleteById(entity.GetId())`. |
| SampleStore.SampleRepositoryMap.DeleteAll | src/tests/sample_usecase_test.rs:65-70 | The store is empty, and the result is `Ok`. |
| SampleStore.SampleRepositoryMap.DeleteById | src/tests/sample_usecase_test.rs:72-77 | The id is gone, nothing else changes, and the result is `Ok` whether or not it was stored. |
| SampleStore.SampleRepositoryMap.DeleteAllById | src/tests/sample_usecase_test.rs:97-108 | Every listed id is removed, nothing else changes, and the result is `Ok`. |
| AppSampleStore.SampleRepositoryMap.constructor | app/src/tests/sample_usecase_test.rs:14-16 | The pool is ignored, and the store starts empty. |
| AppSampleStore.SampleRepositoryMap.Save | app/src/tests/sample_usecase_test.rs:22-36 | A new sample gets `NextId`, a fresh id. Any other sample is upserted at its own id and returned unchanged. No key is ever removed. The size grows by one, or by nothing on an upsert of a stored id. |
| AppSampleStore.SampleRepositoryMap.FindAll | app/src/tests/sample_usecase_test.rs:38-46 | `Ok` with a listing of the table. |
| SampleUsecase.BasicSampleUsecase.constructor | app/src/usecase/sample_usecase.rs:13-15 | The given repository is kept as is. |
| SampleUsecase.BasicSampleUsecase.FromRef | app/src/usecase/sample_usecase.rs:28-34 | The use case wraps the new, empty repository the state yields. |
| SampleUsecase.BasicSampleUsecase.FindAll | app/src/usecase/sample_usecase.rs:17-20 | The repository's listing, passed on. |
| SampleUsecase.BasicSampleUsecase.Create | app/src/usecase/sample_usecase.rs:22-25 | The repository's create result and effect, passed on. |
| SampleUsecase.ScenarioLookup | src/tests/sample_usecase_test.rs:162-163 | Looking up ids 0 to 3 in {0: "s", 1: "s1"} yields exactly those two samples, in order. |
| SampleUsecase.SingleRowListing | src/tests/sample_usecase_test.rs:167 | The only listing of a one-row table is that row. |
| SampleUsecase.SampleUsecaseScenario | src/tests/sample_usecase_test.rs:145-168 | The creates give ids 0 and 1. The lookup gives both samples. After deleting id 0, the listing is `[Sample(1, "s1")]`. |
| Multiplex.IsGrpcRequest | src/proto/mod.rs:110-116 | True iff a Content-Type header is present and its bytes start with "application/grpc". |
| Multiplex.RoutingExamples | src/proto/mod.rs:110-116 | "application/grpc+proto" routes to gRPC. "application/json" and a missing header do not. |
| Multiplex.MultiplexService.constructor | src/proto/mod.rs:21-28 | Keeps both inner services, and neither is ready. |
| Multiplex.MultiplexService.Clone | src/proto/mod.rs:36-43 | A new service with the same inner services, and neither is ready. |
| Multiplex.MultiplexService.PollReady | src/proto/mod.rs:59-76 | Rest is driven first, then gRPC. A flag once set stays set. The result is `Ready(Ok)` iff both flags are set. A gRPC error is returned with its flag still clear. Pending is returned iff a service that is not yet ready is pending. |
| Multiplex.MultiplexService.Call | src/proto/mod.rs:78-107 | Requires both flags. The request goes to gRPC iff `IsGrpcRequest`, and only the chosen side's flag is cleared. |
| PubSubSpec.AddSubscriber | app/src/ws/pubsub.rs:129-136 | Afterwards `u` is subscribed to `t`. The topic set grows by `t` only, other topics are untouched, and `t`'s subscribers are the old ones plus `u`. |
| PubSubSpec.RemoveSubscriber | app/src/ws/pubsub.rs:173-182 | `u` leaves `t`. `t` is dropped exactly when that empties it. It is a no-op when `t` is absent. Other topics and other subscribers are untouched. |
| PubSubSpec.Disconnect | app/src/ws/pubsub.rs:208-219 | `u` is in no topic. Every other connection's memberships are unchanged, and no topic is empty. |
| PubSubSpec.Strip | app/src/ws/pubsub.rs:210-217 | The first cleanup loop: every topic without `u`, and no topic dropped. `PubSub.PubSubState.Cleanup` is proved to compute it by the `iter_mut` loop. |
| PubSubSpec.Prune | app/src/ws/pubsub.rs:218 | `retain`: exactly the topics with subscribers. `PubSubSpec.Disconnect` states the properties of `Prune` after `Strip`. |
| PubSubSpec.Send | app/src/ws/pubsub.rs:83-92 | One frame is appended to the receiver's outbox, and nobody else's changes. |
| PubSubSpec.Fanout | app/src/ws/pubsub.rs:150-160 | The outboxes after one send of the frame to each recipient. `PubSubSpec.FanoutDelivers` states that each recipient gets it exactly once and nobody else gets anything. |
| PubSubSpec.ErrorFrame | app/src/ws/pubsub.rs:83-92 | `on_error`: the text frame `error : ` followed by the error's `Debug` text. `PubSubSpec.UnknownOpMessage` states the frame for an unknown op. |
| PubSubSpec.Step | app/src/ws/pubsub.rs:109-206 | One turn of the dispatch `match`: the frame's effect on the registry, the outboxes and whether the loop goes on. `PubSubSpec.PublishFansOut`, `PubSubSpec.BadInputEndsLoop`, `PubSubSpec.PingPongReplies`, `PubSubSpec.EndsAndIgnores`, `PubSubSpec.StepKeepsOthers` and `PubSubSpec.StepKeepsInvariant` state it arm by arm. |
| PubSubSpec.Run | app/src/ws/pubsub.rs:108-207 | The `while let` loop: the turns over the frames in order, with frames after the loop has ended ignored. `PubSubSpec.RunKeepsInvariant`, `PubSubSpec.RunKeepsOthers` and `PubSubSpec.RunAfterEnd` state its properties. |
| PubSubSpec.FanoutDelivers | app/src/ws/pubsub.rs:148-162 | Every recipient gets the frame once more, and no one else gets anything. |
| PubSubSpec.EmptyRegistry | app/src/ws/pubsub.rs:27-31 | A new registry satisfies the invariants. |
| PubSubSpec.SubscribeIdempotent | app/src/ws/pubsub.rs:130-136 | Subscribing again changes nothing. |
| PubSubSpec.OperationsKeepInvariant | app/src/ws/pubsub.rs:128-182 | Subscribe and cancel keep the registry well formed and free of empty topics. |
| PubSubSpec.DisconnectWellFormed | app/src/ws/pubsub.rs:208-219 | The cleanup keeps the registry well formed. |
| PubSubSpec.StepKeepsOthers | app/src/ws/pubsub.rs:108-206 | One turn of the loop changes only the connection's own memberships. |
| PubSubSpec.StepKeepsInvariant | app/src/ws/pubsub.rs:108-206 | One turn keeps the registry invariants. |
| PubSubSpec.RunKeepsOthers | app/src/ws/pubsub.rs:108-207 | The whole loop changes only the connection's own memberships. |
| PubSubSpec.RunKeepsInvariant | app/src/ws/pubsub.rs:108-207 | The invariants hold after every turn of the loop. |
| PubSubSpec.RunAfterEnd | app/src/ws/pubsub.rs:108-207 | After the loop has ended, no further frame is read. |
| PubSubSpec.ConnectionLifecycle | app/src/ws/pubsub.rs:104-220 | After the loop and the cleanup, the connection is in no topic, others keep exactly their memberships, and no topic is empty. |
| PubSubSpec.PublishFansOut | app/src/ws/pubsub.rs:139-164 | Each subscriber of the topic gets `{topic, message}` exactly once, and no one else gets anything. The registry is unchanged, and the loop goes on. |
| PubSubSpec.BadInputEndsLoop | app/src/ws/pubsub.rs:112-191 | A malformed packet, malformed op data or an unknown op sends one error frame to the sender and ends the loop. The registry is unchanged. |
| PubSubSpec.UnknownOpMessage | app/src/ws/pubsub.rs:184-191 | An unknown op is answered with `error : Message("Unknown message")`. |
| PubSubSpec.PingPongReplies | app/src/ws/pubsub.rs:198-205 | A Ping is answered with Pong "Pong" and a Pong with Pong "ping". Neither echoes the payload (RFC 6455 section 5.5.3), and the registry is untouched. |
| PubSubSpec.EndsAndIgnores | app/src/ws/pubsub.rs:194-197 | Close and stream errors end the loop with nothing sent, and binary frames change nothing. |
| PubSubSpec.SubscribeThenPublish | app/src/ws/pubsub.rs:128-163 | A connection that subscribes to `t` and then publishes `m` to it receives `{t, m}` exactly once. |
| PubSubSpec.PublishIsolation | app/src/ws/pubsub.rs:148-162 | A publish never reaches a connection not subscribed to its topic. |
| PubSubSpec.LastCancelDropsTopic | app/src/ws/pubsub.rs:176-179 | After the last subscriber cancels, the topic is gone and has no recipients. |
| PubSub.Sinks.Send | app/src/ws/pubsub.rs:87-91 | The connection's outbox gains exactly that frame. |
| PubSub.PubSubState.constructor | app/src/ws/pubsub.rs:27-31 | The registry is empty and valid. |
| PubSub.PubSubState.Subscribe | app/src/ws/pubsub.rs:128-137 | The registry becomes `AddSubscriber` of the old one, and stays valid. |
| PubSub.PubSubState.Cancel | app/src/ws/pubsub.rs:173-182 | The registry becomes `RemoveSubscriber` of the old one, and stays valid. |
| PubSub.PubSubState.Publish | app/src/ws/pubsub.rs:147-163 | Sending to each subscriber in turn leaves the outboxes as `Fanout` to the topic's subscribers describes. |
| PubSub.PubSubState.Cleanup | app/src/ws/pubsub.rs:208-219 | The two loops leave exactly `Disconnect` of the old registry, which is valid. |
| PubSub.PubSubState.Serve | app/src/ws/pubsub.rs:104-220 | The loop and the cleanup leave the registry and outboxes that `Run` then `Disconnect` describe. |

## Left out

- Locks, `async` and concurrency are not modelled. Each registry or store operation is one atomic step, and interleavings of several connections are not modelled. Lock poisoning, which `save` and `find_all` of the app store map to `Message`, cannot occur in the model.
- A subscriber send that fails panics through `.unwrap()` at app/src/ws/pubsub.rs:159. In the model, sends always succeed.
- serde is not modelled. A text frame arrives already parsed as a `Packet` or as serde's error text, and a packet's `data` carries its parse as `{topic}` and as `{topic, message}`. This also covers the borrowed-`&str` fields, which fail on escaped strings.
- Published frames are the pair `(topic, message)`, not the JSON text `json!` prints.
- Connection uuids are parameters, not generated.
- `Diagnostics.IntoResponse`: the `Debug` text of an error is a parameter `debug`, because derived `Debug` output of foreign error types is not part of this model.
- `Middleware.ResponseMap`: the awaited body read is an input, either the bytes or a failure. axum's other headers, such as content-length, are not modelled.
- The diagnostics header's name is a constant in a `define` module that is not part of this model, so the header is a distinct name of its own. Header maps hold one value per name.
- JSON numbers are integers. Floating-point JSON values are not modelled.
- `SampleStore.SampleRepositoryMap.Create`: requires that no stored id is `i64::MAX`, because max+1 would then overflow. That state is reachable through `update`, and the source does not say what happens then.
- `SampleUsecase.BasicSampleUsecase.Create`: has the same `i64::MAX` precondition as the repository's create.
- `AppSampleStore.SampleRepositoryMap.Save`: has the same `i64::MAX` precondition on the new-sample path. `Entity::is_new` is only declared (app/src/entity/mod.rs:7-9), so whether the sample is new is a parameter.
- The app store's `Sample` is the same value type as the service crate's `Sample`. Their fields agree, and `from_name` and `with_name` both use id 0. The app's `NEW_REDORD_ID` of -1 is not used by any code in this model.
- The use case is modelled against the `create` signature of `BasicRepository` in src/repository/basic_repository.rs:10. app/src/repository/sample_repository.rs declares only `save` and `find_all`.
- `BasicRepository` is a trait. Its contract, including the default `delete`, is modelled on the one implementation shown, because this model has no traits.
- The multiplexer's inner services are not modelled: their `poll_ready` results are inputs, and `call` returns only which service the request goes to, not its response future.
- The SQL-backed repositories, the Redis session store, the session and cookie extractors, the routers and handlers, config loading, tracing initialisation, `main` and the build script are not part of this model. They are framework and database glue, with no local logic beyond what is modelled here.
