# COCO backend relay: scheduled-post store and chat-proxy decisions

This project models the core of the COCO backend (`coco_backend/server.js`),
a small Express service that relays chat prompts to the Anthropic Messages
API and keeps an in-memory list of scheduled posts.

- `jsvalue.dfy` (module `JsValue`): the JavaScript semantics the handlers
  rely on — values of a JSON body (`Val`: primitives, `Missing` for
  `undefined`, and opaque objects and arrays known by reference),
  truthiness, `a || b` and strict equality `===`.
- `chat.dfy` (module `ChatRelay`): the system prompt forwarded upstream
  (`system || default`), the message of the error raised on a failed upstream
  reply (`data.error?.message || 'API request failed'`), and how the
  handler turns the upstream outcome into its own reply (pass-through on
  success, a 500 envelope otherwise).
- `posts.dfy` (module `ScheduledPosts`): the process-wide `scheduledPosts`
  list as a class `PostStore` with a `posts: seq<Post>` field and the three
  handlers `Schedule`, `List` and `Delete`; the delete filter as the pure
  function `Remaining` with its properties proved as lemmas; and a session
  (`ExampleSession`) that schedules, lists, deletes and lists again.

server.js keeps one process-wide post list and has no per-user lists,
unknown-user 404 replies, login endpoint or display-name substitution into
the system prompt; none of these is modelled.

## Model

| member | source | states |
|---|---|---|
| JsValue.Truthy | coco_backend/server.js:33 | the empty string, 0, false, null and undefined are falsy; every other modelled value, objects and arrays included, is truthy |
| JsValue.Or | coco_backend/server.js:33 | the JavaScript `or` of two values is one of its operands, the left one exactly when it is truthy; the result is truthy iff either operand is |
| JsValue.StrictEquals | coco_backend/server.js:100 | `===` holds exactly for primitives of the same type and value, with no coercion between strings and numbers, and for objects only when they are the same reference |
| ChatRelay.SystemPrompt | coco_backend/server.js:33 | the forwarded prompt is always truthy; it is the caller's `system` iff that is truthy, otherwise the fixed COCO default |
| ChatRelay.UpstreamErrorMessage | coco_backend/server.js:41 | the surfaced message is always truthy; it is `data.error.message` when the error object exists and its message is truthy, otherwise `'API request failed'` |
| ChatRelay.ChatReplyFor | coco_backend/server.js:37-51 | the body is passed through unchanged iff the upstream status was ok; otherwise the reply is status 500, `error` 'Failed to get AI response' and the upstream-derived message |
| ScheduledPosts.Matches | coco_backend/server.js:100 | a post matches exactly when its id is strictly equal to the path string |
| ScheduledPosts.Remaining | coco_backend/server.js:100 | the filtered list is no longer than the original, and every element is an original post whose id is not strictly equal to the path id |
| ScheduledPosts.RemainingLength | coco_backend/server.js:100 | deleting shortens the list by exactly the number of posts whose id equals the path id (all N matches are removed) |
| ScheduledPosts.RemainingMultiplicity | coco_backend/server.js:100 | each non-matching post survives with its original multiplicity; a matching post has multiplicity zero afterwards |
| ScheduledPosts.RemainingMembership | coco_backend/server.js:100 | a post is in the result iff it was in the list and its id is not the path id |
| ScheduledPosts.RemainingAppend | coco_backend/server.js:100 | filtering distributes over concatenation of post lists |
| ScheduledPosts.RemainingIsSubsequence | coco_backend/server.js:100 | the kept posts keep their original relative order (the result is a subsequence of the list) |
| ScheduledPosts.RemainingUnchangedIff | coco_backend/server.js:100-105 | the list is unchanged by a delete iff the match count is zero (and so, by NoMatchesIff, iff no post has the path id) |
| ScheduledPosts.NoMatchesIff | coco_backend/server.js:100 | the match count is zero iff no post in the list has the path id |
| ScheduledPosts.NoMatchesKeepsAll | coco_backend/server.js:100 | with no matching post, the filter returns the list itself |
| ScheduledPosts.RemainingIdempotent | coco_backend/server.js:100 | deleting the same id twice gives the same list as deleting it once |
| ScheduledPosts.NonMatchingIdKept | coco_backend/server.js:97-100 | a post whose id is a number, boolean, null, missing, an object, or a different string is never removed by a delete with a string path id |
| ScheduledPosts.ScheduleThenDelete | coco_backend/server.js:61-100 | deleting after appending a post removes that post only if its id is the path id, and otherwise acts on the earlier posts alone |
| ScheduledPosts.PostStore.constructor | coco_backend/server.js:10 | the store starts empty |
| ScheduledPosts.PostStore.Schedule | coco_backend/server.js:56-67 | the post is appended at the end, length grows by one, earlier posts unchanged; the reply is success with the fixed message and echoes exactly the stored (last) post |
| ScheduledPosts.PostStore.List | coco_backend/server.js:78-84 | the reply is success with the current list in arrival order; the store is not modified |
| ScheduledPosts.PostStore.Delete | coco_backend/server.js:95-105 | the new list is the filtered old one, its length is the old length minus the match count, no remaining post matches, and the reply is success with the fixed message even when nothing matched |
| ScheduledPosts.ExampleSession | coco_backend/server.js:56-113 | on a fresh store, scheduling a post echoes it, listing shows exactly it, and after deleting by a path id the list is empty iff the post's id is that string |

## Left out

- Express wiring (app setup, CORS, JSON body parsing, routing, `app.listen`), the start-up banner and the static `GET /health` reply: framework plumbing with no state or decision (server.js:1-7, 12-14, 115-119).
- The outbound `fetch` to the Messages API, its headers, the request body's fixed model and token budget, and `response.json()`: network I/O against a foreign service; only the upstream status flag and the parsed body are parameters of `ChatReplyFor`; the parsed upstream body is taken to be a JSON object (a `null` body, whose `data.error` read would throw into the catch branch, is not modelled).
- The `catch` branch of the chat handler for network or parse exceptions, which reports the exception's own message: exceptions of code outside the model.
- Environment reads (`ANTHROPIC_API_KEY`, `PORT`): process configuration.
- Logging (`console.log` / `console.error`) and the 500 envelopes around schedule, list and delete: the guarded bodies cannot throw in the model, so the handlers return only their success replies.
- ChatRelay.UpstreamErrorMessage: the result is the value handed to `new Error(...)`; the conversion of a non-string message to its string form is not modelled.
- ChatRelay.ChatReplyFor: the `message` of the failure reply is that same value, not `String(value)` as `error.message` of the thrown `Error` would be (a message `42` is carried as the number, not as `"42"`).
- JsValue.Val: numbers are unbounded integers, so floating-point values, `NaN` (which is never `===` itself) and `-0` are not modelled; objects and arrays are opaque references, so their contents (and what a forwarded array `system` holds) are not modelled; strings are sequences of Unicode scalar values, not UTF-16 code units, so a string holding a lone surrogate has no model (for well-formed strings emptiness and `===` agree).
