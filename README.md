# Diamond marketplace: inquiry threads, compare list and media picker

This project models three parts of a diamond marketplace in Dafny and
proves properties of them:

- **Inquiry threads.** A buyer sends an inquiry about a diamond listing to
  its seller. That creates a thread (a "Message" record). The two
  participants can then list their inbox or sent threads, open a thread
  (the receiver opening it marks it read), reply, mark it read and delete
  it. The store is a class `MessageRoutes.ThreadStore` holding a
  `map<ThreadId, Message>`. The seven request handlers are its methods.
  Each handler that can fail returns `Outcome`, which is either
  `Ok(value)` or `Err(error)`. `Inbox` and `Sent` have no modelled failure
  (store errors are left out) and return a `ListPage`. The error is one of `Validation`, `NotFound(what)`,
  `AccessDenied`, `InvalidRecipient` or `Internal`. Every state-changing
  handler states the same things: on error the store is unchanged, on
  success at most one thread changes (`Get` changes one only when the
  receiver opens an unread thread), and the store invariant `Valid()` is
  kept.
- **The compare list.** `CompareContext.CompareList` holds up to four
  diamonds, none of them twice, with add, remove, clear and membership.
- **The sell form's media picker.** `SellMedia.MediaForm` checks the batch
  cap of 10 files and, per file, the type (image or video) and the size.
  It appends the accepted files and their previews, and removes one index
  from both lists at once.

Files:

- `maybe.dfy`: `Option`.
- `js_text.dfy`: JavaScript `trim` and `startsWith`.
- `message_model.dfy`: the Message schema, its defaults, `markAsRead` and
  reply append.
- `message_query.dfy`: the newest-first ordering and pagination.
- `message_routes.dfy`: the store and its handlers. It also holds
  `ExampleConversation`, a worked scenario proved from the handler
  contracts: a buyer sends an inquiry, the seller opens it (it becomes
  read) and replies, the buyer deletes the thread, and opening it again is
  `NotFound`.
- `compare_context.dfy`: the compare list.
- `sell_media.dfy`: the media picker.

Surroundings become parameters:

- The caller's identity (resolved by the authentication middleware) is the
  `caller` argument.
- The user directory and the diamond listings are the sets `users` and
  `diamonds` passed to `Send`.
- The clock is the `now` argument.
- Fresh thread identifiers come from the counter `nextId`.
- A request field that is absent is the empty string, which JavaScript's
  `!x` treats the same way.

In these places the code behaves differently from what its messages or
its callers suggest; the model follows the code:

- A subject or body that is only white space passes the route's guard,
  because `!subject` is false for `"   "`. It is trimmed to `""` and then
  fails the schema's `required` check when saved. The handler's catch
  block turns that into a 500 response. The same happens to a trimmed
  subject over 200 characters, a trimmed body over 2000 characters and a
  reply over 2000 characters. The model returns `Err(Internal)` in these
  cases, not `Validation`.
- `PUT /:id/read` calls `markAsRead` whether or not the thread is already
  read. `isRead` stays true, but `readAt` is overwritten with the new time
  (`MarkAsReadTwice`).
- The media picker's size checks reject only files strictly larger than
  their limit. An image of exactly 5 MiB, or a video of exactly 50 MiB, is
  taken, although the messages say "less than".

## Model

| member | source | states |
|---|---|---|
| `JsText.TrimStartSpec` | backend/routes/messages.js:58-59 | `trim`'s first half yields a suffix that starts with a non-space character, and every character it drops is white space |
| `JsText.TrimEndSpec` | backend/routes/messages.js:58-59 | `trim`'s second half yields a prefix that ends with a non-space character, and every character it drops is white space |
| `JsText.Trim` | backend/routes/messages.js:58-59 | `String.prototype.trim`: the result is never longer than the input and has no white space or line terminator at either end |
| `JsText.StartsWith` | frontend/src/pages/Sell.tsx:62-63 | `String.prototype.startsWith`: the prefix is no longer than the string and equals its first characters |
| `JsText.TrimIsInfix` | backend/routes/messages.js:249 | the trimmed string is a contiguous slice of the input with only white space on either side of it |
| `JsText.TrimEmptyIff` | backend/routes/messages.js:219 | `s.trim()` is empty exactly when `s` is all white space, so the reply guard rejects exactly the blank bodies |
| `JsText.TrimKeepsTrimmed` | backend/routes/messages.js:58-59 | a string with no white space at either end trims to itself |
| `JsText.TrimIdempotent` | backend/routes/messages.js:58-59 | trimming twice gives the same result as trimming once |
| `MessageModel.ValidReply` | backend/models/Message.js:36-51 | the schema's constraints on a reply entry: a sender, and a non-empty body of at most 2000 characters |
| `MessageModel.ValidRecord` | backend/models/Message.js:3-51 | the schema's validation before a save: sender, receiver and diamond present, subject of 1 to 200 and body of 1 to 2000 characters, every reply valid |
| `MessageModel.IsParticipant` | backend/routes/messages.js:237-238 | the participant guard of the open, reply and delete routes: the user is the thread's sender or its receiver |
| `MessageModel.NewMessage` | backend/models/Message.js:29-51 | a new record carries the given participants, diamond, subject and body; it is unread, has no `readAt` and no replies, and both timestamps are the creation time |
| `MessageModel.NewMessageValidIff` | backend/models/Message.js:4-28 | the schema accepts a new record exactly when sender, receiver and diamond are present, the subject has 1 to 200 characters and the body 1 to 2000 |
| `MessageModel.MarkAsRead` | backend/models/Message.js:64-68 | afterwards the record is read, `readAt` and `updatedAt` are now, and every other field is as before |
| `MessageModel.MarkAsReadTwice` | backend/models/Message.js:64-68 | marking read twice equals marking read once at the later time; the record stays read |
| `MessageModel.MarkAsReadWellFormed` | backend/models/Message.js:64-68 | marking read keeps the thread invariant: schema valid, distinct participants, `readAt` present exactly when read, replies only from participants |
| `MessageModel.AppendReply` | backend/routes/messages.js:247-252 | the new reply (sender, body, `sentAt` = now) is added at the end; earlier replies are untouched; every field but `replies` and `updatedAt` (including `isRead`) is unchanged |
| `MessageModel.AppendReplyWellFormed` | backend/models/Message.js:36-51 | a participant's reply that the schema accepts (1 to 2000 characters) keeps the thread invariant |
| `MessageQuery.InboxIds` | backend/routes/messages.js:93-96 | the inbox filter: threads whose receiver is the caller, and only the unread ones when `unreadOnly` is set |
| `MessageQuery.SentIds` | backend/routes/messages.js:138 | the sent filter: threads whose sender is the caller |
| `MessageQuery.Skip` | backend/routes/messages.js:103 | the number of threads before a page, `(page - 1) * limit` |
| `MessageQuery.NewestExists` | backend/routes/messages.js:101 | every non-empty set of threads has one that is newer than all the others |
| `MessageQuery.Newest` | backend/routes/messages.js:101 | returns that newest thread of the set |
| `MessageQuery.Ordered` | backend/routes/messages.js:98-101 | the sorted listing holds each thread of the set exactly once, strictly newest first (by `createdAt`, ties by identifier) |
| `MessageQuery.NewestFirstUnique` | backend/routes/messages.js:101 | two newest-first listings with the same members are equal |
| `MessageQuery.NewestFirstSameHead` | backend/routes/messages.js:101 | two newest-first listings with the same members start with the same thread |
| `MessageQuery.OrderedIsTheListing` | backend/routes/messages.js:101 | any newest-first listing of a set is `Ordered` of that set |
| `MessageQuery.PageOf` | backend/routes/messages.js:102-103 | the page is the `limit` entries (fewer at the end, none past it) that start after `(page - 1) * limit` entries of the listing |
| `MessageQuery.TotalPages` | backend/routes/messages.js:118 | `totalPages` is the least `n` with `n * limit >= total`, i.e. `ceil(total / limit)` |
| `MessageQuery.PageNonEmptyIff` | backend/routes/messages.js:102-118 | a page has entries exactly when its number is at most `totalPages` |
| `MessageQuery.PagesAreConsecutive` | backend/routes/messages.js:102-103 | page `p + 1` starts where page `p` ends, and a page followed by a non-empty one is full |
| `MessageQuery.Listing` | backend/routes/messages.js:98-121 | the response's entries are the page of the newest-first listing of the selected threads, each the stored record; `totalItems` counts the selection and `totalPages` is its ceiling quotient |
| `MessageRoutes.Filled` | backend/routes/messages.js:16 | the send route's first guard: receiver, diamond, subject and body all given and non-empty |
| `MessageRoutes.ThreadStore.Send` | backend/routes/messages.js:9-77 | Validation exactly when a field is missing, checked before any lookup; then NotFound(diamond), NotFound(receiver) and InvalidRecipient (self) in that order; then Internal when the trimmed record fails the schema; every error leaves the store unchanged; success adds exactly one fresh thread from the caller, unread, with no replies and trimmed text, and no deduplication |
| `MessageRoutes.ThreadStore.Inbox` | backend/routes/messages.js:89-122 | only threads addressed to the caller (and unread ones when `unreadOnly` is `"true"`), newest first, one page with defaults page 1 and limit 20; `unreadCount` counts all unread threads addressed to the caller whatever the filter or page |
| `MessageRoutes.ThreadStore.Sent` | backend/routes/messages.js:134-157 | only threads the caller sent, newest first, one page; total and page count over that selection |
| `MessageRoutes.ThreadStore.Get` | backend/routes/messages.js:169-203 | NotFound for an absent id and AccessDenied for a non-participant, both without change; success returns the stored thread; it becomes read (with `readAt`) exactly when the receiver opens an unread thread; a sender's fetch changes nothing |
| `MessageRoutes.ThreadStore.Reply` | backend/routes/messages.js:215-268 | Validation for a blank body before any lookup, then NotFound, AccessDenied, and Internal for a trimmed body over 2000 characters, all without change; success appends exactly one reply from the caller with the trimmed body and changes nothing else in the store |
| `MessageRoutes.ThreadStore.MarkRead` | backend/routes/messages.js:280-306 | NotFound for an absent id; AccessDenied for anyone but the receiver (the sender included); success applies `markAsRead` to that thread only |
| `MessageRoutes.ThreadStore.Delete` | backend/routes/messages.js:318-347 | NotFound for an absent id, AccessDenied for a non-participant, both without change; success removes exactly that thread, so the id is no longer in the store |
| `CompareContext.ContainsId` | frontend/src/context/CompareContext.tsx:46-48 | true exactly when some entry has that `_id` |
| `CompareContext.WithoutId` | frontend/src/context/CompareContext.tsx:38-40 | no entry with the id remains; every remaining entry was in the list; never longer |
| `CompareContext.WithoutIdConcat` | frontend/src/context/CompareContext.tsx:38-40 | filtering a concatenation is concatenating the filtered parts, so the order of the kept entries is preserved |
| `CompareContext.WithoutIdKeepsOthers` | frontend/src/context/CompareContext.tsx:38-40 | every entry with another id is kept |
| `CompareContext.WithoutAbsentId` | frontend/src/context/CompareContext.tsx:38-40 | removing an id that is not present leaves the list as it was |
| `CompareContext.WithoutIdSplice` | frontend/src/context/CompareContext.tsx:38-40 | removing the id of the one entry carrying it leaves the entries before and after it, in order |
| `CompareContext.WithoutPresentId` | frontend/src/context/CompareContext.tsx:38-40 | in a list with unique ids, removing entry `k`'s id removes just entry `k` |
| `CompareContext.WithoutIdDistinct` | frontend/src/context/CompareContext.tsx:38-40 | removal keeps ids unique |
| `CompareContext.CompareList.AddToCompare` | frontend/src/context/CompareContext.tsx:28-36 | with 4 or more entries the list is unchanged and the user is alerted; an id already present leaves it unchanged; otherwise the diamond is appended at the end; at most 4 entries with unique ids are kept |
| `CompareContext.CompareList.RemoveFromCompare` | frontend/src/context/CompareContext.tsx:38-40 | the new list is the old one filtered by id, no entry with the id remains, and the length drops by one exactly when the id was present |
| `CompareContext.CompareList.ClearCompare` | frontend/src/context/CompareContext.tsx:42-44 | the list becomes empty |
| `CompareContext.CompareList.IsInCompare` | frontend/src/context/CompareContext.tsx:46-48 | true exactly when some entry has that `_id` |
| `SellMedia.IsImage` | frontend/src/pages/Sell.tsx:62 | `file.type.startsWith('image/')`: the MIME type begins with `image/` |
| `SellMedia.IsVideo` | frontend/src/pages/Sell.tsx:63 | `file.type.startsWith('video/')`: the MIME type begins with `video/` |
| `SellMedia.Rejection` | frontend/src/pages/Sell.tsx:60-82 | a file is taken exactly when it is an image of at most 5 MiB or a video of at most 50 MiB; the type message is given exactly when it is neither; the 5MB message exactly when it is an image over 5 MiB; the 50MB message exactly when it is a video over 50 MiB |
| `SellMedia.Accepted` | frontend/src/pages/Sell.tsx:57-92 | the accepted files all pass the checks and are no more than the batch |
| `SellMedia.LastRejection` | frontend/src/pages/Sell.tsx:60-82 | the error left behind is the previous one or the message of a rejected file of the batch |
| `SellMedia.ImageVideoExclusive` | frontend/src/pages/Sell.tsx:62-63 | no file is both an image and a video, so at most one of the two size checks applies to it |
| `SellMedia.LastRejectionIsLast` | frontend/src/pages/Sell.tsx:65-82 | the error left after the per-file checks is the message of the last rejected file: if file `i` is rejected and every later file is taken, the error is file `i`'s message, since each rejection's `setError` overrides the one before |
| `SellMedia.LastRejectionNone` | frontend/src/pages/Sell.tsx:60-96 | when no file of the batch is rejected, the error from before the selection stays |
| `SellMedia.CheckFile` | frontend/src/pages/Sell.tsx:60-82 | the per-file callback's checks, in their order with their early returns, reject a file with exactly the message `Rejection` gives, and let it through exactly when `Rejection` does |
| `SellMedia.AttachAccepted` | frontend/src/pages/Sell.tsx:84-92 | appending the accepted part of a batch that fits under the cap, with one preview per accepted file, keeps at most ten files, all passing, with previews aligned |
| `SellMedia.DetachIndex` | frontend/src/pages/Sell.tsx:103-106 | dropping the same index from the files and the previews keeps them aligned and all passing |
| `SellMedia.PreviewsOf` | frontend/src/pages/Sell.tsx:86-95 | one data-URL preview per accepted file, at the same position as its file |
| `SellMedia.AcceptedConcat` | frontend/src/pages/Sell.tsx:60-84 | accepting a batch is accepting its parts one after another, so the order is the order given |
| `SellMedia.AcceptedKeepsPassing` | frontend/src/pages/Sell.tsx:84 | every file that passes the checks is accepted |
| `SellMedia.AcceptedAllPass` | frontend/src/pages/Sell.tsx:60-84 | a batch whose files all pass is taken whole |
| `SellMedia.AcceptedNonEmptyIff` | frontend/src/pages/Sell.tsx:98-100 | some file is accepted exactly when some file passes, which is when the error is cleared |
| `SellMedia.DropIndex` | frontend/src/pages/Sell.tsx:103-106 | an index in range is removed, with the elements before it in place and those after it shifted down by one; an index out of range changes nothing |
| `SellMedia.MediaForm.HandleMediaChange` | frontend/src/pages/Sell.tsx:49-101 | more than 10 files in all: nothing is added and the error is the cap message; otherwise the accepted files and their previews are appended after the existing ones, and the error is cleared when something was accepted, else it is the last rejection's message; the form invariant (at most 10 valid files, previews aligned) is kept |
| `SellMedia.MediaForm.RemoveMedia` | frontend/src/pages/Sell.tsx:103-106 | the same index is removed from the files and the previews, so the two stay aligned |

## Left out

- MongoDB and Mongoose plumbing is not modelled: `populate` projections, `find`, `countDocuments` and `save` as I/O, the indexes at backend/models/Message.js:58-61, HTTP status codes and JSON envelopes, and console logging. The store is an in-memory map, and a response is the `Outcome` value.
- Store failures (a lost connection, a failed write) are not modelled. `Internal` stands only for the schema rejections described above.
- Identifiers are abstract. A malformed ObjectId, which makes `findById` throw a cast error and answer 500, is not modelled. Identifiers are assumed canonical, so one string equality serves both the self-check (a raw string comparison of the request's `receiverId` with the caller's id) and the lookups and stored references (parsed ObjectIds, whose hex digits are case-insensitive). The source's self-check misses a non-canonical spelling of the caller's own id, such as one in upper case, which would create a thread addressed to its sender. That case is not modelled, and the `sender != receiver` part of the thread invariant relies on leaving it out.
- Request bodies whose fields are not strings (numbers, objects) are not modelled. An absent field is the empty string.
- MessageRoutes.ThreadStore.Inbox: `page` and `limit` are natural numbers, and `Some(0)` is excluded by the precondition. `Number()` coercion of arbitrary query strings is not modelled: NaN, zero, negatives, and `limit(0)` meaning "no limit".
- MessageRoutes.ThreadStore.Sent: the same restriction on `page` and `limit`.
- MessageQuery.Ordered: the database leaves the order of threads with equal `createdAt` open. The model fixes it to the larger identifier (the later-created thread) first.
- MessageModel.ValidRecord: lengths count Unicode scalar values. JavaScript counts UTF-16 code units, so a character outside the Basic Multilingual Plane counts twice there.
- Concurrent requests are not modelled. In particular, the reply handler's read-modify-write `save` can lose a concurrent reply; a sequential model cannot show that race.
- MessageRoutes.ThreadStore.Get: both participants' user accounts are assumed to exist. `GET /:id` populates the sender and the receiver, then reads their `_id` in its guards. If either account is gone, the populated path is null, the dereference throws, and the route answers 500 to every caller. The model returns `Ok` or `AccessDenied` for such a thread instead.
- The authentication middleware is not part of this model. Its result is the `caller` argument.
- Wall-clock time is the `now` argument. `createdAt`, `updatedAt`, `readAt` and `sentAt` take that value.
- CompareContext: `alert` becomes the returned flag `alerted`. React's batching of state updates and stale closures are not modelled; each operation sees the latest list.
- SellMedia: the asynchronous FileReader is not modelled. Previews are produced at once and in file order; in a browser the `onload` callbacks may finish in another order and misalign the previews. FormData upload, `handleSubmit` and navigation are not modelled either. A missing file list (`e.target.files` null) is the empty batch. Because acceptance and appending happen at once, two consequences of the real asynchrony are not captured. First, the 10-file cap reads the file list as of the last render, so a second selection made while the first batch's readers are still pending passes the cap against the old length, and both batches are appended (6 + 6 = 12), breaking the form invariant's bound. Second, if a read fails, `onload` never fires and none of that batch is appended, although the error was already cleared.
- frontend/src/context/CurrencyContext.tsx is not part of this model: floating-point currency conversion, formatting, an external rates service and local storage.
- Rendering and fetch-only code is not part of this model: AdminDashboard.tsx, Purchase.tsx, Messages.tsx (its client-side unread-count bookkeeping only mirrors the server), Navbar.tsx (notification polling), Footer.tsx, CurrencySelector.tsx, DiamondShapes.tsx, App.tsx and tailwind.config.js.
