# Webhook registry and delivery, in Dafny

This project models the core of a small webhook service. Integrators register
URLs against named events. The registry is a JSON file mapping each event name
to an ordered list of URLs. When a delivery cycle runs, the service POSTs
`{"event": <event>, "data": <payload>}` to every registered URL and files each
attempt as a success or a failure in a report with two counters and two lists.

Modules: one per source file, except that `webhook_storage.py` is split into `WebhookRegistry` (the in-memory mapping) and `WebhookStorage` (the file, delivery and triggering), plus three small helpers:

- `WebhookErrors` (`webhook_errors.dfy`): the four `WebhookStorageError` kinds as one closed datatype, and their message texts.
- `WebhookModels` (`webhook_models.dfy`): `WebhookRequest.validate_event` over ASCII text; the report records `PingedWebhooks` (a class whose fields `send` updates in place) and `PingResponse`.
- `WebhookRegistry` (`webhook_registry.dfy`): the registry held in memory, as `read`, `update` and `remove` see it. A Python dict keeps insertion order, so the registry is a sequence of `Subscription(event, urls)`. Its operations are pure functions: `Read`, `AddUrl`, `RemoveUrl`, and `RemoveFirst` (which is `list.remove`).
- `WebhookStorage` (`webhook_storage.dfy`): the storage file as the class `WebhookStore`, whose methods `Update` and `Remove` read and rewrite it and whose method `TriggerWebhooks` only reads it. The module also has the delivery routine `Send` and its specification `Tally`.
- `Http` (`http.dfy`): `requests.post` as a `Network` object. An oracle `respond(request, n)` gives the answer to the n-th POST, and `exchanges` logs every POST in order. An answer is either a received response (status, reason phrase, body parsed as JSON or `None`) or a transport error with its message.
- `Json` and `Wrappers`: JSON values, and `Option` / `Result` / `Outcome`. `Result` and `Outcome` stand for the exceptions the source raises.

Where the source's docstrings and comments disagree with its code, the model follows the code:

- Success is `response.ok`, not "2xx" as the comment at webhook/database_management/webhook_storage.py:139 and the field description at webhook/pydantic_models/webhook_models.py:48 say. In the requests library that means the status is outside 400–599, so a 3xx (or a 1xx) counts as a success. `SendScenarioRedirect` shows this.
- A failed write is not reported, although the `_write` docstring (webhook/database_management/webhook_storage.py:214-215) says it raises `IOError`. `_write` catches the `IOError` and only prints it, so `Update` and `Remove` return `Pass` however the write goes. How it goes is the parameter `WriteOutcome`. If the open fails, the file keeps its old contents. The open with mode "w" empties the file first, so if the dump or the close fails, the file is left unparsable. Every later read then fails with `StorageUnavailable` (`DumpFailureLosesRegistry`).
- A missing storage file and an unparsable one give the same failure, `StorageUnavailable`. The `read` docstring (webhook/database_management/webhook_storage.py:34-35) lists `FileNotFoundError` apart from `IOError`. But the `FileNotFoundError` raised inside the `try` is caught by the `IOError` handler and raised again as an `IOError`.
- `remove` deletes only the first occurrence of the URL. In a list without duplicates that is the only occurrence.
- `trigger_webhooks` calls `read()` outside any handler. An unreadable file therefore ends it with `StorageUnavailable` before any POST.

## Model

| member | source | states |
|---|---|---|
| `WebhookErrors.Message` | webhook/database_management/webhook_errors.py:9-37 | each message begins with its subject (`Event '` or `URL '`) followed by the quoted identifier; the two URL kinds end with the quoted event and a full stop |
| `WebhookErrors.EventMessageInjective` | webhook/database_management/webhook_errors.py:13-37 | the message of an EventNotFound or EventHasNoURLs error determines both the kind and the event |
| `WebhookErrors.UrlAndEventMessagesDiffer` | webhook/database_management/webhook_errors.py:13-37 | a URL error's message never equals an event error's message |
| `WebhookModels.IsIdentifier` | webhook/pydantic_models/webhook_models.py:26 | definition of `str.isidentifier()` on ASCII: non-empty, a letter or underscore first, then letters, digits and underscores |
| `WebhookModels.Lower` | webhook/pydantic_models/webhook_models.py:23 | `str.lower()` on ASCII: same length, no upper-case letter left, each upper-case letter mapped to its lower-case partner, every other character kept |
| `WebhookModels.ValidateEvent` | webhook/pydantic_models/webhook_models.py:16-29 | an accepted name is the lower-cased input and has no upper-case letter; a rejection carries the `ValueError` text |
| `WebhookModels.ValidateEventRejectsExactlyNonIdentifiers` | webhook/pydantic_models/webhook_models.py:22-27 | the validator rejects exactly when the lower-cased name is not an identifier, which is exactly when the input itself is not one |
| `WebhookModels.ValidateEventIdempotent` | webhook/pydantic_models/webhook_models.py:22-29 | validating an accepted name again returns the same name |
| `WebhookModels.ValidateEventExamples` | webhook/pydantic_models/webhook_models.py:22-27 | the empty name, a leading digit, `-` and a space are rejected; `Order_Placed` is accepted as `order_placed` |
| `WebhookModels.PingedWebhooks.constructor` | webhook/pydantic_models/webhook_models.py:45-101 | a fresh report has both counts 0 and both lists empty, so each count equals its list's length |
| `WebhookModels.PingedWebhooks.AddSuccessful` | webhook/database_management/webhook_storage.py:131-137 | the success count goes up by one and the entry is appended; nothing else changes and consistency is kept |
| `WebhookModels.PingedWebhooks.AddFailed` | webhook/database_management/webhook_storage.py:140-155 | the failure count goes up by one and the entry is appended; nothing else changes and consistency is kept |
| `WebhookModels.ToPingResponse` | webhook/pydantic_models/webhook_models.py:104-105 | a `PingResponse` is the report plus a message; every inherited field is carried over unchanged, so consistency is kept |
| `Http.ResponseOk` | webhook/database_management/webhook_storage.py:123 | definition of `response.ok`: false exactly for the status codes 400-599 |
| `Http.Network.Post` | webhook/database_management/webhook_storage.py:121 | one POST is made and logged, and its answer is the oracle's answer for that request at that point in time |
| `WebhookRegistry.Find` | webhook/database_management/webhook_storage.py:73 | `event in data`: the position of the event's entry, or None exactly when the event is not a key |
| `WebhookRegistry.UrlsOf` | webhook/database_management/webhook_storage.py:44 | `data[event]` is defined exactly when the event is a key |
| `WebhookRegistry.Read` | webhook/database_management/webhook_storage.py:20-57 | an unreadable file gives StorageUnavailable; with no event, the stored mapping unchanged; EventNotFound exactly when the event is not a key; EventHasNoURLs exactly when its list is empty; a present event with a non-empty list gives exactly `{event: urls}`, and every one-event success has that form |
| `WebhookRegistry.ReadEventIsRestrictionOfReadAll` | webhook/database_management/webhook_storage.py:41-53 | a successful one-event read is the full mapping filtered down to that event |
| `WebhookRegistry.AddUrl` | webhook/database_management/webhook_storage.py:72-77 | EventNotFound when the event is absent (it is never created); UrlAlreadyExists when the URL is listed; success exactly otherwise, with the event's list becoming old list ++ [url], the event order unchanged and every other event's list unchanged |
| `WebhookRegistry.AddUrlKeepsWellFormed` | webhook/database_management/webhook_storage.py:75-77 | a successful add keeps event names distinct and every list free of duplicates |
| `WebhookRegistry.AddedUrlListedOnce` | webhook/database_management/webhook_storage.py:75-77 | on any stored mapping, even one with duplicates in other lists, after a successful add the URL occurs exactly once in the event's list, and a second add fails with UrlAlreadyExists |
| `WebhookRegistry.RemoveFirst` | webhook/database_management/webhook_storage.py:98 | `list.remove` deletes the first occurrence and keeps the elements before and after it in order |
| `WebhookRegistry.RemoveFirstMultiset` | webhook/database_management/webhook_storage.py:98 | exactly one copy of the URL is removed and nothing else |
| `WebhookRegistry.RemoveFirstFromDistinct` | webhook/database_management/webhook_storage.py:96-98 | from a list without duplicates, the result has no duplicates and no longer holds the URL |
| `WebhookRegistry.RemoveUrl` | webhook/database_management/webhook_storage.py:93-98 | EventNotFound when the event is absent; UrlNotFound when the URL is not listed; success exactly otherwise, with the first occurrence deleted, the rest kept in order, and other events unchanged |
| `WebhookRegistry.RemoveUrlKeepsWellFormed` | webhook/database_management/webhook_storage.py:96-98 | a successful remove keeps the registry free of duplicates and leaves the URL unlisted under the event |
| `WebhookRegistry.RemoveUndoesAdd` | webhook/database_management/webhook_storage.py:60-99 | removing a URL right after adding it gives back the registry as it was |
| `WebhookStorage.Attempts` | webhook/database_management/webhook_storage.py:115-118 | definition: the (event, url) pairs the nested loops visit, events in dict order and each event's URLs in list order |
| `WebhookStorage.Envelope` | webhook/database_management/webhook_storage.py:117 | definition of `payload_with_event` (built the same way again at line 192): the object `{"event": event, "data": payload}` |
| `WebhookStorage.AttemptsCount` | webhook/database_management/webhook_storage.py:115-118 | the nested loops visit one (event, url) pair per registered URL |
| `WebhookStorage.AttemptRequests` | webhook/database_management/webhook_storage.py:117-121 | definition: the POSTs of a cycle, one `{"event", "data"}` envelope to each pair's URL, in order |
| `WebhookStorage.Classify` | webhook/database_management/webhook_storage.py:121-155 | an entry keeps its pair's event and URL; it is a success exactly when a response came back with an ok status, carrying the status and the parsed body or `{}`; a non-ok response gives error `HTTP error: ` + reason with its status; a transport error gives the exception text with no status |
| `WebhookStorage.Record` | webhook/database_management/webhook_storage.py:131-155 | definition: a success raises the success count by one and appends its entry; a failure does the same on the failure side |
| `WebhookStorage.Tally` | webhook/database_management/webhook_storage.py:113-157 | definition: the report reached by recording every attempt's classified answer in order, starting from the empty report |
| `WebhookStorage.TallyConsistent` | webhook/database_management/webhook_storage.py:113-157 | in every report each count equals the length of its list, and the two counts add up to the number of attempts |
| `WebhookStorage.TallyListsEntriesInOrder` | webhook/database_management/webhook_storage.py:115-155 | the two lists are exactly the successful and the failed entries, one entry per pair, in iteration order |
| `WebhookStorage.SendTotals` | webhook/database_management/webhook_storage.py:113-157 | whatever the endpoints answer, the counts are consistent and add up to the number of URLs across all events |
| `WebhookStorage.SendScenarioOk` | webhook/database_management/webhook_storage.py:123-137 | one URL answering 200 with a JSON body gives one success carrying that body and status 200, and no failure |
| `WebhookStorage.SendScenarioServerError` | webhook/database_management/webhook_storage.py:138-146 | one URL answering 500 gives one failure with `HTTP error: ` + reason and status 500, and no success |
| `WebhookStorage.SendScenarioUnreachable` | webhook/database_management/webhook_storage.py:147-155 | one unreachable URL gives one failure with the exception text and no status |
| `WebhookStorage.SendScenarioRedirect` | webhook/database_management/webhook_storage.py:123-128 | a 304 response without a JSON body is a success with payload `{}` |
| `WebhookStorage.Send` | webhook/database_management/webhook_storage.py:102-157 | POSTs exactly once to every pair in iteration order and to nothing else; returns a fresh report equal to the tally of the answers received |
| `WebhookStorage.PingOne` | webhook/database_management/webhook_storage.py:119-155 | one POST is logged and its answer is filed into the report as `Classify` says |
| `WebhookStorage.UrlsFor` | webhook/database_management/webhook_storage.py:196-198 | definition: the URLs of every stored entry whose event equals the triggered one, in order |
| `WebhookStorage.UrlsForIsStoredList` | webhook/database_management/webhook_storage.py:196-198 | with distinct event names, the URLs the trigger loop reaches are exactly the list stored under the event, or none when it is absent |
| `WebhookStorage.AfterWrite` | webhook/database_management/webhook_storage.py:217-221 | definition: a completed write leaves the new mapping; a failed open leaves the old file; a failed dump leaves an unparsable file |
| `WebhookStorage.WrittenReadsBack` | webhook/database_management/webhook_storage.py:207-221 | after a completed write, `read()` returns exactly the mapping written |
| `WebhookStorage.DumpFailureLosesRegistry` | webhook/database_management/webhook_storage.py:217-221 | after a write that fails past the truncating open, every `read` fails with StorageUnavailable |
| `WebhookStorage.WebhookStore.Write` | webhook/database_management/webhook_storage.py:207-221 | the file becomes `AfterWrite` of the old file, the mapping and how the write went, with no error in any case |
| `WebhookStorage.WebhookStore.Update` | webhook/database_management/webhook_storage.py:60-78 | an unreadable file gives StorageUnavailable; an AddUrl error is returned with the file untouched; otherwise Pass however the write goes, and the file is `AfterWrite` of AddUrl's result |
| `WebhookStorage.WebhookStore.Remove` | webhook/database_management/webhook_storage.py:81-99 | an unreadable file gives StorageUnavailable; a RemoveUrl error is returned with the file untouched; otherwise Pass however the write goes, and the file is `AfterWrite` of RemoveUrl's result |
| `WebhookStorage.WebhookStore.TriggerWebhooks` | webhook/database_management/webhook_storage.py:160-203 | POSTs `{"event": event, "data": payload}` to exactly the URLs stored under the event, in order, and to nothing else, whatever each POST returns; an absent event posts nothing and is not an error; an unreadable file fails before any POST |

## Left out

- File I/O and JSON (de)serialisation: the storage file is the field `WebhookStore.file`, already parsed. A file that parses to JSON other than an object of string lists is not modelled. The path and the text of the `IOError` are not modelled either.
- The outbound HTTP client: `requests.post`, the `Content-Type` header and `response.json()` are replaced by the `Network` oracle. Whether a body parses as JSON is part of the oracle's answer.
- The `print` logging in `trigger_webhooks` and `_write`.
- `trigger_webhooks` converting a pydantic model payload with `model_dump()`: payloads are JSON values here.
- Floating-point JSON numbers: `Json` numbers are integers.
- ValidateEvent: only ASCII is modelled. A non-ASCII letter, which Python's `str.lower` and `str.isidentifier` accept, is rejected here.
- Pydantic's `HttpUrl` validation of the URL field, and the other response models (`WebhookResponse`, `Webhook`, `RegisteredWebhooksResponse`), which hold no logic.
- `webhook/main.py` (SQLite-backed FastAPI routes), `webhook_receiver/` (a demo client and a receiver stub) and `webhook/database_management/__init__.py` (re-exports): outside the core.
- WebhookStore.Write, Update, Remove: a write that fails after the open is modelled as leaving an unparsable file. A failure at close after every byte has reached the disk, which would leave the new mapping readable, is not distinguished.
- WebhookRegistry.Read: a file whose bytes do not decode in the locale's text encoding makes `json.load` raise `UnicodeDecodeError`. That is neither a `JSONDecodeError` nor an `IOError`, so it escapes the handler at webhook/database_management/webhook_storage.py:56 unchanged. The model folds it into `StorageUnavailable`, because it does not model file bytes or encodings.
- Concurrency, locking, retries and timeouts: the source has none, and everything runs sequentially.
