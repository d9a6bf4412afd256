# websocket-eventbus: envelopes, correlation store and responders in Dafny

This project models the protocol core of the Kotlin websocket event bus. It covers four parts.

- **The envelope codecs.**
  - `EBMessageHeader2` has six fields. It is written as `["header", "body", "errorMessage", isResponse, "responseId", json = …]`.
  - `DoubleMessageHeader` has seven fields, one more serial name. It is written with one blank fewer.
  - Both are read back by one chain of `HeaderParser` steps: cut the brackets, take a quoted field, drop a comma, take a bare field, take the payload.
  - The legacy `EBMessageHeader` is written `[header, body, json]` and read by splitting at commas.
- **The correlation store.**
  - `IDGenerator.getId` appends `-1` to a candidate id until the id is unused.
  - `ResponseStore` keeps the waiters of outstanding requests under their ids. Its actor stores a waiter under a fresh id, and `removeId` hands a waiter out and removes it.
- **The responder chain of a websocket endpoint.**
  - `ResponseStorable` hands a response to its waiter.
  - `AnswerOnRequest` answers a request with exactly one reply, or one error reply.
  - `WSResponseAble` runs the first handler that takes a one-way message.
  - `MessageReceiver2.onMessage` runs the first handler of the chain that takes the message and catches what it throws. `WebsocketBuilder` fixes the order of the chain.
  - The modules also cover the two message factories, the entries keyed by serial names and the two senders.
- **The legacy name-correlated dispatcher.**
  - `Translater.call` takes an envelope whose body names its type.
  - `TranslaterBuilder.next` appends a translater.
  - `EBDataHandler.send`, `run` and `receive` cover the rest. A pending response translater for the body's type takes priority. Otherwise the first static or current translater for it takes the envelope.

Modules, in dependency order:

- `Wrappers` (Option, Result)
- `Lists` (`find`, `takeWhile`/`dropWhile`, `remove`)
- `Text` (Kotlin's `trim`, `split`, `joinToString`, `replaceFirst`, `toBoolean`)
- `Exceptions`
- `HeaderParsing`, `QuoteScan`, `ParseSteps` (the scanner, and what each step does on a text of a known shape)
- `HeaderCodec` (EBMessageHeader2)
- `DoubleHeader`
- `LegacyHeader`
- `Store`
- `Responders` (the handlers as functions of the store's contents)
- `Session` (the builder's chain, and a `Websocket` class that carries the handlers out on its store and its trace)
- `Ebm2Protocol` and `DmhProtocol` (factories, entries, handlers and senders of the two envelope types)
- `LegacyDispatch`

Effects are recorded, in order, in a `trace` sequence. They are sends to the transport, reports to the error logger, waiter calls, and the error records of the logger. Kotlin exceptions are returned `Failure`/`Some` values.

Three behaviours of the code are easy to miss:

- `toBoolean()` in Kotlin compares without regard to case, so `TRUE` reads back as true. `Text.ToBoolean` models that.
- The round trips of the two quoted envelopes hold exactly only for a payload that does not end in a blank. `takeAll` trims the payload's end. An empty payload, as every error reply has, comes back as the text `json =`. This is because trimming removes the blank that `replaceFirst("json = ", "")` would need.
- The legacy envelope's payload comes back with the blank that `serialize` put before it.

## Model

| member | source | states |
|---|---|---|
| `Text.ToBoolean` | src/commonMain/kotlin/org/daiv/websocket/mh2/RequestResponse.kt:121 | `true` reads as true and `false` as false; anything read as true has four characters (case is ignored) |
| `Text.JoinSplit` | src/commonMain/kotlin/org/daiv/websocket/EBMessageHeader.kt:84-87 | joining the pieces of a split with the same separator gives the text back, which is why commas inside a legacy payload survive |
| `Text.IndexesOfComplete` | src/commonMain/kotlin/org/daiv/websocket/mh2/RequestResponse.kt:38-39 | every position holding the character appears in `indexesOf`, which lists no other position |
| `Lists.FindFirst` | src/commonMain/kotlin/org/daiv/websocket/mh2/RequestHolder.kt:102 | Kotlin `find`: the index found satisfies the test and no earlier element does; nothing is found exactly when no element satisfies it |
| `HeaderParsing.HeaderParsed` | src/commonMain/kotlin/org/daiv/websocket/mh2/RequestResponse.kt:75 | succeeds exactly when the trimmed text has at least two characters; then the rest is the trimmed text without its first and last character, whatever they are; otherwise StringIndexOutOfBounds |
| `QuoteScan.ParseNextStringSpec` | src/commonMain/kotlin/org/daiv/websocket/mh2/RequestResponse.kt:48-62 | the index-list scan equals taking the text between the first quote and the next quote not preceded by a backslash, with the scan resuming after it; no quote fails with IndexOutOfBounds, no closing quote with NoSuchElement |
| `HeaderParsing.ParseNextString` | src/commonMain/kotlin/org/daiv/websocket/mh2/RequestResponse.kt:48-62 | no contract of its own: the scan over the lists of quote and backslash positions. QuoteScan.ParseNextStringSpec equates it with FirstQuotedField, and ParseSteps.QuotedFieldBack states what it does to a quoted field |
| `ParseSteps.QuotedFieldBack` | src/commonMain/kotlin/org/daiv/websocket/mh2/RequestResponse.kt:48-62 | a quoted field followed by any text comes back exactly, with the scan resuming right after its closing quote, if and only if every quote in it has a backslash right before it and it does not end in a backslash |
| `ParseSteps.QuotedFieldBackOnlyIf` | src/commonMain/kotlin/org/daiv/websocket/mh2/RequestResponse.kt:53-54 | a field the scan gives back with the text after it must be quotable: the closing quote found is the one right after the field |
| `HeaderParsing.NextUnescapedQuote` | src/commonMain/kotlin/org/daiv/websocket/mh2/RequestResponse.kt:53-54 | finds the first unescaped quote at or after a position, and finds none only when there is none |
| `HeaderParsing.ParseNoString` | src/commonMain/kotlin/org/daiv/websocket/mh2/RequestResponse.kt:43-46 | the new rest is a suffix that is empty or starts at the first comma, nothing before it is a comma, and the list gains the trimmed text before it |
| `HeaderParsing.RemoveComma` | src/commonMain/kotlin/org/daiv/websocket/mh2/RequestResponse.kt:64-72 | never changes the list |
| `ParseSteps.RemoveCommaAfterBlanks` | src/commonMain/kotlin/org/daiv/websocket/mh2/RequestResponse.kt:71 | after blanks and a comma, the blanks and the comma are dropped and the rest is end-trimmed: blanks right after the comma stay |
| `ParseSteps.RemoveCommaRejects` | src/commonMain/kotlin/org/daiv/websocket/mh2/RequestResponse.kt:65-70 | a first non-blank character other than a comma fails with "impossible value", carrying that character and the untrimmed rest |
| `ParseSteps.RemoveCommaBlank` | src/commonMain/kotlin/org/daiv/websocket/mh2/RequestResponse.kt:65 | a blank rest fails with NoSuchElement (`first()` of an empty text) |
| `Text.ReplaceFirstCases` | src/commonMain/kotlin/org/daiv/websocket/mh2/RequestResponse.kt:41 | `replaceFirst` leaves the text as it is when the target does not occur, and otherwise cuts the target out at its first occurrence |
| `HeaderParsing.TakeAll` | src/commonMain/kotlin/org/daiv/websocket/mh2/RequestResponse.kt:41 | the rest becomes empty and exactly one field is appended, earlier fields kept. The field is the trimmed rest when "json = " does not occur in it. Otherwise it is the trimmed rest with its first "json = " cut out, so a rest starting with it loses the first seven characters |
| `HeaderParsing.ToNull` | src/commonMain/kotlin/org/daiv/websocket/mh2/RequestResponse.kt:111 | absent exactly for the text "null", otherwise the text itself |
| `ParseSteps.ReceivedPayloadValue` | src/commonMain/kotlin/org/daiv/websocket/mh2/RequestResponse.kt:107 | a serialised payload comes back with its trailing blanks removed, and a blank payload as "json =" |
| `ParseSteps.ReceivedPayloadBlank` | src/commonMain/kotlin/org/daiv/websocket/mh2/RequestResponse.kt:41 | a blank payload comes back as "json =" |
| `ParseSteps.HeaderParsedBracketed` | src/commonMain/kotlin/org/daiv/websocket/mh2/RequestResponse.kt:75 | on a bracketed text the cut-off characters are exactly the brackets |
| `HeaderCodec.FromFields` | src/commonMain/kotlin/org/daiv/websocket/mh2/RequestResponse.kt:117-124 | the error and the id are absent exactly when their field is "null", the flag is `toBoolean` of its field, and the other fields are copied |
| `HeaderCodec.Serialize` | src/commonMain/kotlin/org/daiv/websocket/mh2/RequestResponse.kt:107 | no contract of its own: the quoted six-field text. HeaderCodec.ParseSerializeAny, ParseSerialize and ParseSerializeEmptyPayload state what parse gives back from it |
| `HeaderCodec.Parse` | src/commonMain/kotlin/org/daiv/websocket/mh2/RequestResponse.kt:113-125 | no contract of its own: the fixed scan chain, then FromFields. Its contract on serialised envelopes is HeaderCodec.ParseSerializeAny and ParseSerialize |
| `HeaderCodec.ParseSerializeAny` | src/commonMain/kotlin/org/daiv/websocket/mh2/RequestResponse.kt:107-125 | for quotable names and ids (not the text "null"), parsing a serialised envelope succeeds and gives every field back, the payload as ReceivedPayload describes |
| `HeaderCodec.ParseSerialize` | src/commonMain/kotlin/org/daiv/websocket/mh2/RequestResponse.kt:113-125 | the round trip is exact for a payload that does not end in a blank, request or response alike |
| `HeaderCodec.ParseSerializeEmptyPayload` | src/commonMain/kotlin/org/daiv/websocket/mh2/RequestResponse.kt:107 | an empty payload comes back as "json =", every other field exact |
| `DoubleHeader.Make` | src/commonMain/kotlin/org/daiv/websocket/mh2/DoubleMessageHeader.kt:257-264 | the six-argument constructor always sets the tag "DMH" and copies the other arguments |
| `DoubleHeader.Serialize` | src/commonMain/kotlin/org/daiv/websocket/mh2/DoubleMessageHeader.kt:266-267 | no contract of its own: the quoted seven-field text, with no blank before the error field. DoubleHeader.ParseSerializeAny, ParseSerialize and ParseSerializeEmptyPayload state what parse gives back from it |
| `DoubleHeader.Parse` | src/commonMain/kotlin/org/daiv/websocket/mh2/DoubleMessageHeader.kt:272-286 | no contract of its own: the fixed scan chain, then the primary constructor. Its contract on serialised envelopes is DoubleHeader.ParseSerializeAny and ParseSerialize |
| `DoubleHeader.Check` | src/commonMain/kotlin/org/daiv/websocket/mh2/DoubleMessageHeader.kt:59-62 | no contract of its own: both serial names match. DmhProtocol.SentRouting states that after the wire it holds exactly for the names sent |
| `DoubleHeader.ParseSerializeAny` | src/commonMain/kotlin/org/daiv/websocket/mh2/DoubleMessageHeader.kt:266-286 | parsing a serialised envelope gives all seven fields back, the payload as ReceivedPayload describes |
| `DoubleHeader.ParseSerialize` | src/commonMain/kotlin/org/daiv/websocket/mh2/DoubleMessageHeader.kt:272-286 | exact round trip over all seven fields for a payload not ending in a blank |
| `DoubleHeader.ParseSerializeEmptyPayload` | src/commonMain/kotlin/org/daiv/websocket/mh2/DoubleMessageHeader.kt:266-267 | an empty payload comes back as "json =" |
| `LegacyHeader.Parse` | src/commonMain/kotlin/org/daiv/websocket/EBMessageHeader.kt:78-83 | fails with StringIndexOutOfBounds exactly when the trimmed text is shorter than two characters |
| `LegacyHeader.ParseIgnoresEnds` | src/commonMain/kotlin/org/daiv/websocket/EBMessageHeader.kt:79-83 | the first and last characters are cut whatever they are: a missing bracket is not rejected |
| `LegacyHeader.NoCommaFails` | src/commonMain/kotlin/org/daiv/websocket/EBMessageHeader.kt:84-86 | without a comma inside the ends, `split[1]` fails with IndexOutOfBounds |
| `LegacyHeader.OneCommaEmptyPayload` | src/commonMain/kotlin/org/daiv/websocket/EBMessageHeader.kt:84-87 | exactly one comma gives the two trimmed pieces and an empty payload |
| `LegacyHeader.ParseSerialize` | src/commonMain/kotlin/org/daiv/websocket/EBMessageHeader.kt:75-89 | comma-free, trim-stable header and body come back exactly, the payload (commas included) with one leading blank |
| `LegacyHeader.Serialize` | src/commonMain/kotlin/org/daiv/websocket/EBMessageHeader.kt:75 | no contract of its own: `[header, body, json]`, nothing quoted. LegacyHeader.ParseSerialize states what parse gives back from it |
| `Store.GetId` | src/commonMain/kotlin/org/daiv/websocket/mh2/ResponseStore.kt:17-22 | the id returned is unused, starts with the candidate, and is the candidate itself when that is unused |
| `Store.GetIdRetries` | src/commonMain/kotlin/org/daiv/websocket/mh2/ResponseStore.kt:17-22 | the id returned is the candidate followed by n times "-1", and every shorter candidate of that form is in use |
| `Store.FirstFreeIsGetId` | src/commonMain/kotlin/org/daiv/websocket/mh2/ResponseStore.kt:18-21 | conversely, the first unused candidate of that form is the one returned |
| `Store.GetIdOfUsedA` | src/commonTest/kotlin/org/daiv/websocket/mh2/ResponseStoreTest.kt:17-22 | with "a" in use, getId("a") is "a-1" |
| `Store.StoreAt` | src/commonMain/kotlin/org/daiv/websocket/mh2/ResponseStore.kt:65-71 | the waiter is stored under a previously absent id, which is the id handed on; every other entry is kept and none added |
| `Store.RemoveFrom` | src/commonMain/kotlin/org/daiv/websocket/mh2/ResponseStore.kt:59-63 | a waiter is found exactly when the id is stored, and it is the stored one; afterwards the id is absent and nothing else changed |
| `Store.RemoveAbsent` | src/commonMain/kotlin/org/daiv/websocket/mh2/ResponseStore.kt:50 | removing an absent id finds nothing and leaves the map as it is |
| `Store.RemoveTwice` | src/commonMain/kotlin/org/daiv/websocket/mh2/ResponseStore.kt:59-63 | a second removal of the same id finds nothing: a waiter is handed out at most once |
| `Store.StoreThenRemove` | src/commonTest/kotlin/org/daiv/websocket/mh2/ResponseStoreTest.kt:25-41 | removing the id a waiter was stored under hands back that waiter and restores the map |
| `Store.RemoveKeepsOthers` | src/commonMain/kotlin/org/daiv/websocket/mh2/ResponseStore.kt:50 | removing one id leaves the waiter under another id in place |
| `Store.ResponseStore.constructor` | src/commonMain/kotlin/org/daiv/websocket/mh2/ResponseStore.kt:33 | a new store holds no waiters |
| `Store.ResponseStore.HasId` | src/commonMain/kotlin/org/daiv/websocket/mh2/ResponseStore.kt:35 | no contract of its own: the id is a key of the map. Store.RemoveFrom states that removeId finds a waiter exactly when this holds |
| `Store.ResponseStore.StoreResponseTranslator` | src/commonMain/kotlin/org/daiv/websocket/mh2/ResponseStore.kt:65-71 | the new map and the returned id are those of StoreAt on the old map |
| `Store.ResponseStore.Remove` | src/commonMain/kotlin/org/daiv/websocket/mh2/ResponseStore.kt:50 | the map loses exactly the id |
| `Store.ResponseStore.RemoveId` | src/commonMain/kotlin/org/daiv/websocket/mh2/ResponseStore.kt:59-63 | the waiter returned and the new map are those of RemoveFrom on the old map |
| `Store.ResponseStore.Handle` | src/commonMain/kotlin/org/daiv/websocket/mh2/ResponseStore.kt:44-53 | one turn of the actor: a translator request stores the waiter as StoreAt does, a remove event removes the id |
| `Responders.HandlesPartition` | src/commonMain/kotlin/org/daiv/websocket/mh2/RequestHolder.kt:16-162 | the three `handle` tests are pairwise disjoint and between them take every combination of response flag and id |
| `Responders.StorableDo` | src/commonMain/kotlin/org/daiv/websocket/mh2/RequestHolder.kt:23-28 | no contract of its own: ResponseStorable.doHandle. Responders.StorableDelivers, StorableMissing and StorableAtMostOnce state its cases |
| `Responders.AnswerDo` | src/commonMain/kotlin/org/daiv/websocket/mh2/RequestHolder.kt:99-121 | no contract of its own: AnswerOnRequest.doHandle. Responders.FirstEntry, AnswerSendsReply, AnswerSendsError and AnswerWithoutEntry state its cases |
| `Responders.RespondDo` | src/commonMain/kotlin/org/daiv/websocket/mh2/RequestHolder.kt:152-162 | no contract of its own: WSResponseAble.doHandle. Responders.RespondRunsFirst and RespondWithoutHandler state its cases |
| `Responders.DoHandle` | src/commonMain/kotlin/org/daiv/websocket/mh2/RequestHolder.kt:187-190 | no contract of its own: `doHandle` chosen by the handler kind. Session.Websocket.DoHandle carries it out on the websocket's state |
| `Responders.OnMessage` | src/commonMain/kotlin/org/daiv/websocket/mh2/DoubleMessageHeader.kt:133-145 | no exception ever escapes onMessage |
| `Responders.Caught` | src/commonMain/kotlin/org/daiv/websocket/mh2/DoubleMessageHeader.kt:135-141 | the catch keeps the handler's effects and store, and turns an exception into one error record after them |
| `Responders.OnMessageRunsFirst` | src/commonMain/kotlin/org/daiv/websocket/mh2/DoubleMessageHeader.kt:134-141 | only the first handler that takes the message runs, and its outcome is onMessage's, with the exception caught |
| `Responders.OnMessageUnhandled` | src/commonMain/kotlin/org/daiv/websocket/mh2/DoubleMessageHeader.kt:142-144 | a message no handler takes runs nothing: one error record, store unchanged |
| `Responders.StorableDelivers` | src/commonMain/kotlin/org/daiv/websocket/mh2/RequestHolder.kt:23-26 | a response with a stored id removes that waiter and hands it the unchanged envelope; the waiter's exception is doHandle's |
| `Responders.StorableMissing` | src/commonMain/kotlin/org/daiv/websocket/mh2/RequestHolder.kt:25-27 | a response without a waiter does nothing and throws ResponseStoreException |
| `Responders.StorableAtMostOnce` | src/commonTest/kotlin/org/daiv/websocket/mh2/RequestHolderTest.kt:134-158 | the same response handled twice reaches no waiter the second time and throws ResponseStoreException |
| `Responders.StoredWaiterAnswered` | src/commonMain/kotlin/org/daiv/websocket/mh2/RequestHolder.kt:23-28 | a response under the id the store gave a waiter reaches exactly that waiter and restores the store |
| `Responders.FirstEntry` | src/commonMain/kotlin/org/daiv/websocket/mh2/RequestHolder.kt:102 | the entry used is the first that takes the request |
| `Responders.AnswerSendsReply` | src/commonMain/kotlin/org/daiv/websocket/mh2/RequestHolder.kt:99-109 | on success exactly one envelope is sent, the reply as a response under the request's id; nothing is reported and the store is untouched |
| `Responders.AnswerSendsError` | src/commonMain/kotlin/org/daiv/websocket/mh2/RequestHolder.kt:110-115 | when the entry throws, the exception is reported once and exactly one error reply from the entry's error key is sent under the request's id |
| `Responders.AnswerWithoutEntry` | src/commonMain/kotlin/org/daiv/websocket/mh2/RequestHolder.kt:116-120 | without an entry the request is reported once with no cause and nothing is sent |
| `Responders.RespondRunsFirst` | src/commonMain/kotlin/org/daiv/websocket/mh2/RequestHolder.kt:152-162 | the first handler that takes the message runs; it throws exactly when that handler does, wrapped in WSResponseException |
| `Responders.RespondWithoutHandler` | src/commonMain/kotlin/org/daiv/websocket/mh2/RequestHolder.kt:153 | a message no handler takes is dropped with no effect and no exception |
| `Session.BuilderHandlers` | src/commonMain/kotlin/org/daiv/websocket/mh2/DoubleMessageHeader.kt:238-242 | the chain is ResponseStorable, the answering entries, the request handlers, then the other handlers in their order |
| `Session.BuilderRoutes` | src/commonMain/kotlin/org/daiv/websocket/mh2/DoubleMessageHeader.kt:225-243 | in a builder's chain a response with an id goes to the store, a request with an id to the entries, a message without an id to the request handlers |
| `Session.OtherHandlersUnreached` | src/commonMain/kotlin/org/daiv/websocket/mh2/DoubleMessageHeader.kt:238-242 | the handler chosen is always one of the first three, so appended handlers never run |
| `Session.ReplyReachesWaiter` | src/commonMain/kotlin/org/daiv/websocket/mh2/RequestHolder.kt:16-28 | a reply under the id the store gave a waiter is delivered to that waiter only, and the store is as before the request |
| `Session.Websocket.constructor` | src/commonMain/kotlin/org/daiv/websocket/mh2/DoubleMessageHeader.kt:237-242 | an empty store, an empty trace and the chain in the builder's order |
| `Session.Websocket.Send` | src/commonMain/kotlin/org/daiv/websocket/mh2/RequestHolder.kt:43 | the envelope is appended to the trace as one Sent effect and nothing else changes |
| `Session.Websocket.StoreTranslator` | src/commonMain/kotlin/org/daiv/websocket/mh2/ResponseStore.kt:78-84 | the waiter is stored as StoreAt does and the request built for that id is sent |
| `Session.Websocket.OnMessage` | src/commonMain/kotlin/org/daiv/websocket/mh2/DoubleMessageHeader.kt:133-145 | the trace and the store end as Responders.OnMessage describes |
| `Session.Websocket.DoHandle` | src/commonMain/kotlin/org/daiv/websocket/mh2/RequestHolder.kt:187-190 | the trace, the store and the exception of one handler are as Responders.DoHandle describes |
| `Session.Websocket.StorableDoHandle` | src/commonMain/kotlin/org/daiv/websocket/mh2/RequestHolder.kt:23-28 | carries out StorableDo on the store with `removeId` |
| `Session.Websocket.AnswerDoHandle` | src/commonMain/kotlin/org/daiv/websocket/mh2/RequestHolder.kt:99-121 | carries out AnswerDo: the sends and reports in order, the store untouched |
| `Session.Websocket.RespondDoHandle` | src/commonMain/kotlin/org/daiv/websocket/mh2/RequestHolder.kt:152-162 | running a request handler records nothing, and throws what RespondDo says |
| `Ebm2Protocol.ToMessageHeader` | src/commonMain/kotlin/org/daiv/websocket/mh2/RequestHolder.kt:54-60 | header "EMH2", no error, the key's serial name and payload, the given flag and id |
| `Ebm2Protocol.ErrorIsReplyWithMessage` | src/commonMain/kotlin/org/daiv/websocket/mh2/RequestHolder.kt:62-76 | `error` builds what `toMessageHeader` builds, except that the error is set |
| `Ebm2Protocol.Error` | src/commonMain/kotlin/org/daiv/websocket/mh2/RequestHolder.kt:62-76 | header "EMH2", the given error text, the key's name and payload, the given flag and id |
| `Ebm2Protocol.Answer` | src/commonMain/kotlin/org/daiv/websocket/mh2/RequestResponse.kt:14-19 | the reply key is the response serial name with the payload the answer gives; a failure passes through |
| `Ebm2Protocol.Entry` | src/commonMain/kotlin/org/daiv/websocket/mh2/RequestResponse.kt:21-24 | takes exactly the envelopes whose body is the request serial name; its error key is the response name with an empty payload |
| `Ebm2Protocol.Responder` | src/commonMain/kotlin/org/daiv/websocket/mh2/RequestHolder.kt:124-134 | takes exactly the envelopes whose body is its serial name and runs its block on the payload |
| `Ebm2Protocol.Outgoing` | src/commonMain/kotlin/org/daiv/websocket/mh2/RequestHolder.kt:197-211 | a sent envelope has header "EMH2", no error, the serial name, payload, flag and id given |
| `Ebm2Protocol.OneWayGoesToResponders` | src/commonMain/kotlin/org/daiv/websocket/mh2/RequestHolder.kt:225-227 | a one-way message is taken by WSResponseAble and by neither other handler |
| `Ebm2Protocol.AnswerableReplies` | src/commonTest/kotlin/org/daiv/websocket/mh2/RequestHolderTest.kt:161-197 | the answering scenario: exactly one reply, "EMH2", the response name, no error, the request's id, the answer's payload |
| `Ebm2Protocol.AnswerableFails` | src/commonMain/kotlin/org/daiv/websocket/mh2/RequestHolder.kt:110-115 | a failing answer is reported once and sent back as one error envelope with an empty payload |
| `Ebm2Protocol.ErrorReplyOnWire` | src/commonMain/kotlin/org/daiv/websocket/mh2/RequestResponse.kt:107 | the error envelope's empty payload comes off the wire as "json =", every other field exact |
| `Ebm2Protocol.WireKeepsIds` | src/commonMain/kotlin/org/daiv/websocket/mh2/RequestResponse.kt:113-125 | the correlation fields and the body survive the wire whatever the payload, so the envelope is routed the same at the other end |
| `Ebm2Protocol.RequestAnswered` | src/commonMain/kotlin/org/daiv/websocket/mh2/RequestHolder.kt:99-109 | a request sent under an id is answered at the other end by exactly the reply under that id |
| `Ebm2Protocol.ReplyOnWire` | src/commonMain/kotlin/org/daiv/websocket/mh2/RequestResponse.kt:107-125 | the reply comes off the wire unchanged |
| `Ebm2Protocol.ReplyDelivered` | src/commonMain/kotlin/org/daiv/websocket/mh2/DoubleMessageHeader.kt:133-145 | at the requester the reply reaches exactly the waiter stored under its id, once, and the store is restored |
| `Ebm2Protocol.SendOneWay` | src/commonMain/kotlin/org/daiv/websocket/mh2/RequestHolder.kt:225-227 | sends one envelope with no id that is not a response |
| `Ebm2Protocol.SendRequest` | src/commonMain/kotlin/org/daiv/websocket/mh2/RequestHolder.kt:213-223 | stores the waiter and sends the request under the id it was stored under |
| `DmhProtocol.ToMessageHeader` | src/commonMain/kotlin/org/daiv/websocket/mh2/DoubleMessageHeader.kt:24-37 | tag "DMH", no error, both serial names and the message from the key, the given flag and id |
| `DmhProtocol.ErrorIsReplyWithMessage` | src/commonMain/kotlin/org/daiv/websocket/mh2/DoubleMessageHeader.kt:41-55 | `error` builds what `toMessageHeader` builds, except that the error is set |
| `DmhProtocol.Error` | src/commonMain/kotlin/org/daiv/websocket/mh2/DoubleMessageHeader.kt:41-55 | tag "DMH", the given error text, both names and the message from the key, the given flag and id |
| `DmhProtocol.Answer` | src/commonMain/kotlin/org/daiv/websocket/mh2/DoubleMessageHeader.kt:79-84 | the reply key carries the header name, the response name and the answer's message; a failure passes through |
| `DmhProtocol.Entry` | src/commonMain/kotlin/org/daiv/websocket/mh2/DoubleMessageHeader.kt:73-88 | takes exactly the envelopes whose two serial names match (`check`); the error key has the header name, the response name and an empty message |
| `DmhProtocol.Handler` | src/commonMain/kotlin/org/daiv/websocket/mh2/DoubleMessageHeader.kt:99-109 | takes exactly the envelopes `check` accepts for its two names and runs its block on the message |
| `DmhProtocol.Outgoing` | src/commonMain/kotlin/org/daiv/websocket/mh2/DoubleMessageHeader.kt:172-191 | a sent envelope has tag "DMH", no error, is not a response, and carries the names, message and id given |
| `DmhProtocol.SentRouting` | src/commonMain/kotlin/org/daiv/websocket/mh2/DoubleMessageHeader.kt:59-62 | after the wire a request with an id goes to the entries and a one-way message to the request handlers, and `check` holds exactly for the names it was sent with |
| `DmhProtocol.ReplyRouting` | src/commonMain/kotlin/org/daiv/websocket/mh2/DoubleMessageHeader.kt:266-286 | a reply comes off the wire as a response with the request's id, taken by the store |
| `DmhProtocol.EntryReplies` | src/commonMain/kotlin/org/daiv/websocket/mh2/RequestHolder.kt:99-109 | an answering entry sends exactly one reply under the request's id with the header name, the response name and the message; nothing is reported |
| `DmhProtocol.EntryFails` | src/commonMain/kotlin/org/daiv/websocket/mh2/DoubleMessageHeader.kt:86-87 | a throwing entry is reported once and one error reply with the header name, the response name and no message is sent |
| `DmhProtocol.OneWayHandled` | src/commonMain/kotlin/org/daiv/websocket/mh2/RequestHolder.kt:152-162 | a one-way message reaches the first request handler for its two names and throws exactly when the block does |
| `DmhProtocol.SendOneWay` | src/commonMain/kotlin/org/daiv/websocket/mh2/DoubleMessageHeader.kt:193-200 | sends one envelope with no id |
| `DmhProtocol.SendRequest` | src/commonMain/kotlin/org/daiv/websocket/mh2/DoubleMessageHeader.kt:155-170 | stores the waiter and sends the request under the id it was stored under |
| `LegacyDispatch.Next` | src/commonMain/kotlin/org/daiv/websocket/Translater.kt:13-24 | the new builder's list is the old list with the translater appended |
| `LegacyDispatch.Dispatch` | src/commonMain/kotlin/org/daiv/websocket/Translater.kt:139-153 | no contract of its own: what `run` comes to. LegacyDispatch.PendingFirst, PendingUsedOnce, StaticFirst, HandledIffNamed and UnhandledKeepsPending state it, and EBDataHandler.Run is proved equal to it |
| `LegacyDispatch.ReceiveText` | src/commonMain/kotlin/org/daiv/websocket/Translater.kt:155-163 | no contract of its own: parse, run, then an Unhandled record when run is false. LegacyDispatch.ReceiveMalformed and LoopbackCompletes state it, and EBDataHandler.Receive is proved equal to it |
| `LegacyDispatch.Call` | src/commonMain/kotlin/org/daiv/websocket/Translater.kt:52-72 | a body that is not the name runs nothing and gives false; otherwise the header callback runs before the callback and the call gives true. A callback exception is swallowed and recorded as exactly one error record, and there is no third effect otherwise. A decode failure escapes |
| `LegacyDispatch.PendingFirst` | src/commonMain/kotlin/org/daiv/websocket/Translater.kt:137-141 | when a pending translater has the body's name, the static and current translaters do not matter |
| `LegacyDispatch.PendingUsedOnce` | src/commonMain/kotlin/org/daiv/websocket/Translater.kt:142-144 | the first pending translater with the name is called and removed, all other pending ones kept in order; a decode failure leaves the list and returns false |
| `LegacyDispatch.StaticFirst` | src/commonMain/kotlin/org/daiv/websocket/Translater.kt:146-147 | without a pending match, only the first static or current translater with the name is called |
| `LegacyDispatch.HandledIffNamed` | src/commonMain/kotlin/org/daiv/websocket/Translater.kt:139-153 | when decoding succeeds, run returns true exactly when some translater, pending or not, has the body's name |
| `LegacyDispatch.UnhandledKeepsPending` | src/commonMain/kotlin/org/daiv/websocket/Translater.kt:149-152 | a run that returns false leaves the pending translaters, and every run removes at most one |
| `LegacyDispatch.NextKeepsEarlier` | src/commonMain/kotlin/org/daiv/websocket/Translater.kt:14-15 | appending a translater never changes the dispatch of an envelope an earlier translater takes |
| `LegacyDispatch.LoopbackCompletes` | src/jvmTest/kotlin/org/daiv/websocket/WebsocketTest.kt:31-45 | a request echoed back completes the pending translater for its own type: it is called with the decoded payload and removed |
| `LegacyDispatch.ReceiveMalformed` | src/commonMain/kotlin/org/daiv/websocket/Translater.kt:155-159 | a text that is not an envelope fails with the parse error and nothing runs |
| `LegacyDispatch.EBDataHandler.constructor` | src/commonMain/kotlin/org/daiv/websocket/Translater.kt:99-115 | no pending or current translaters, nothing sent |
| `LegacyDispatch.EBDataHandler.Send` | src/commonMain/kotlin/org/daiv/websocket/Translater.kt:131-135 | the translater, if any, is appended to the pending ones and the serialised envelope is sent |
| `LegacyDispatch.EBDataHandler.IsResponse` | src/commonMain/kotlin/org/daiv/websocket/Translater.kt:137 | holds exactly when some pending translater has the body's name |
| `LegacyDispatch.EBDataHandler.Run` | src/commonMain/kotlin/org/daiv/websocket/Translater.kt:139-153 | result, trace and pending list end as Dispatch describes over the static followed by the current translaters |
| `LegacyDispatch.EBDataHandler.Receive` | src/commonMain/kotlin/org/daiv/websocket/Translater.kt:155-163 | result, trace and pending list end as ReceiveText describes: parse, run, and an unhandled record when run returns false |

## Left out

- JSON payloads: kotlinx.serialization, `Stringify.kt`, `toJSON`/`parse`/`stringify` and the decoding inside the answers and handlers. Payloads are opaque strings, and each answer, handler block or translater is an uninterpreted function that may fail.
- The coroutine actor of `ResponseStore`: the channel, the launched loop, `job`/`cancel` and the launched callback. The store's events run as sequential methods. `removeId` reads the map outside the actor, so nothing here is claimed about races.
- `timeId()` reads the clock. It is passed in as the candidate id.
- Transport and I/O: the websocket, ktor and socket endpoints, `EBWebsocket`, `SessionHandler`, `EventBus`, `LoggingSettings` and the test harnesses. A send is a `Sent` record in the trace.
- Trace and debug logging are left out. Error and warning records that the dispatch writes are modelled as effects.
- `WSResponse.onError` is never called by the core. A waiter is its `response` function only.
- The typed `send` overloads of `EBDataHandler` (`Translater.kt:116-129`) only encode a payload and then call the modelled `send(messageHeader, translater)`.
- Callbacks that take the `EBDataHandler` or the websocket object get only the decoded event and header.
- `RequestHolderHandler` is declared with one type parameter in RequestHolder.kt and used with two (plus a websocket argument) in DoubleMessageHeader.kt. The model has one handler type with no websocket argument.
- Two call sites pass `storeTranslator` two arguments against its three-parameter definition: `DoubleMessageHeader.kt:163` and `RequestHolder.kt:219`. `EBSender.send` also passes `{}` and so discards the response. The `SendRequest` methods model the definition, with the waiter given explicitly.
- A handler's `toString` in the WSResponseAble error text is a `name` field. In onMessage's error record the handler is named by its position in the chain.
- `onHeader` of `EBDataHandler` is the `HeaderSeen` effect.
- `currentTranslaters`, a function in Kotlin, is a sequence field read at the start of a run.
- String and exception behaviour is that of the JVM target: `trim` uses the JVM's whitespace set, and `substring` with a range outside the text throws StringIndexOutOfBounds. The same sources are also built for Kotlin/JS. There `substring` checks no bounds, so `headerParsed` of a one-character text does not fail at that step. The JS behaviour is not modelled.
- The older copies of the dispatcher (`src/main/kotlin/org/daiv/websocket/Translater.kt`, `frontend/eventbus-js/src/main/kotlin/org/daiv/websocket/Translater.kt`) are not modelled. They differ from the modelled commonMain code. `call` runs `fct` with no try/catch, so a callback exception escapes. `run` has no catch-all, so a callback or decode exception escapes `receive` instead of becoming `false` and an error record. A translater's name is `descriptor.name`, not `serialName`. The older legacy envelope in `src/main/kotlin/org/daiv/websocket/EBMessageHeader.kt` has a `FrontendMessageHeader` without `messageId`; its `serialize` and `parse` are the modelled ones.
- `Text.ToBoolean`: the contract states the cases the envelopes produce ("true", "false") and that only a four-letter text reads as true. It does not enumerate the mixed-case spellings.
- `HeaderCodec.ParseSerialize`, `DoubleHeader.ParseSerialize`: the round trip is proved under sufficient conditions only. Every quoted name and id must be quotable: each quote in it has a backslash right before it, and it does not end in a backslash. An id or error must not be the text "null", and the payload must not end in a blank. For one quoted field, `ParseSteps.QuotedFieldBack` shows that the quoting condition is also necessary. No converse is stated for a whole envelope.
