# Ionic2CLI-Meteor-WhatsApp chat core, in Dafny

This project models the two pieces of logic under the reactive plumbing of the
WhatsApp-style chat app, and proves their properties.

- **The server's GraphQL resolvers** (`api/server/schema.ts`):
  - The `Chat.messages` resolver. It computes an expected count (the matching
    count, clamped by a truthy `limit`). It swallows any store read shorter than
    that count. It groups each emitted read into `MessageByDay` buckets
    `{timestamp, messages, today}`.
  - The small resolvers beside it. These are `lastMessage`, `Query.chat`,
    `title`, `picture` (on chats and users) and `Picture.url`. They also include
    the type-name case conversion of `addMessage` and `Message.type`, and the
    selector that `contacts` builds.
- **The messages page's merge reducer** (`src/pages/messages/messages.ts`).
  A `scan` over `(live, hist)` pairs keeps `{historyTaken, messages}`. It seeds
  the timeline with a copy of the history. It then merges each live day in
  place: it appends unseen labels, overwrites `today`, and pushes messages whose
  `_id` is not present yet.

Modules:

| file | module | contents |
|---|---|---|
| `models.dfy` | `Models` | `Option`, `Message`, `Day`, id and label predicates, `Reverse`, `Flatten`, `TotalCount` |
| `chat_messages.dfy` | `ChatMessages` | expected count, gate, `_.groupBy` as a one-pass fold, bucket construction, and a reference definition of the grouping with partition and ordering lemmas |
| `schema.dfy` | `Schema` | case mapping, type and platform names, picture references, receiver lookup, first-row-or-null, `Query.chat`, contacts selector |
| `timeline.dfy` | `Timeline` | the reducer as functions (`MergeDay`, `MergeLive`, `Reduce`, `Run`) and its lemmas |
| `messages_page.dfy` | `MessagesPage` | the class `DayGroups` holding the accumulator, with `Step` and `Feed`, and the loop methods that merge in place |

Three things from outside the program become parameters:
- The calendar-day label of an instant, `moment(createdAt).format('D MMMM Y')`, is the function parameter `dayLabel`.
- The label of the current instant is `nowLabel`.
- The user store is a `map` from id to profile.

Store reads enter as sequences of messages, given in the store's order.
A `null` or `undefined` GraphQL value is `None`.

## Model

| member | source | states |
|---|---|---|
| Models.Reverse | api/server/schema.ts:295 | an in-place `reverse()` on a fresh array yields the elements in opposite order, same length |
| ChatMessages.ExpectedCount | api/server/schema.ts:265-271 | without a limit, or with the falsy limit 0, the expected count is the matching count; otherwise it is the smaller of the two |
| ChatMessages.Gate | api/server/schema.ts:275-282 | a read is emitted iff it has at least the expected count, and is then emitted unchanged |
| ChatMessages.Emitted | api/server/schema.ts:273-282 | of successive reads, only those at least the expected length are emitted, every one of those is, and nothing shorter ever is |
| ChatMessages.EmittedOne | api/server/schema.ts:275-282 | a single read is emitted once, unchanged, iff it reaches the expected count |
| ChatMessages.EmittedAppend | api/server/schema.ts:273-282 | the emissions for two runs of reads in a row are the first run's emissions followed by the second's, so order and repeats are kept read by read |
| ChatMessages.FindGroup | api/server/schema.ts:287-289 | the key lookup in the grouping object finds an entry with that key, or reports that none has it |
| ChatMessages.GroupBy | api/server/schema.ts:287-289 | `_.groupBy` as a one-pass fold over the read; what it yields is stated by `GroupByIsReference` and `GroupByMultiset` |
| ChatMessages.ToDays | api/server/schema.ts:292-297 | one bucket per grouping entry; what it yields is stated by `ToDaysAt` and `ToDaysMultiset` |
| ChatMessages.ToDaysAt | api/server/schema.ts:292-297 | as many buckets as entries; bucket i has entry i's key as label, entry i's messages reversed, and `today` iff the key is now's label |
| ChatMessages.GroupByDay | api/server/schema.ts:287-298 | the transform of an emitted read; what it yields is stated by `GroupByDayIsReference` and the lemmas after it |
| ChatMessages.GroupByIsReference | api/server/schema.ts:287-289 | `_.groupBy` yields one entry per distinct label, in order of first appearance, each holding exactly the messages with that label in input order |
| ChatMessages.GroupByMultiset | api/server/schema.ts:287-289 | grouping keeps every input message exactly as often as it occurs |
| ChatMessages.ToDaysMultiset | api/server/schema.ts:292-297 | turning the entries into buckets keeps all their messages |
| ChatMessages.GroupByDayIsReference | api/server/schema.ts:287-298 | the buckets are the distinct labels in reverse first-appearance order, each with its day's messages reversed and `today` set iff its label is now's label |
| ChatMessages.GroupByDayAt | api/server/schema.ts:292-298 | bucket i is the bucket of the i-th label counted from the last one to first appear |
| ChatMessages.GroupByDayEmpty | api/server/schema.ts:287-298 | the bucket list is empty iff the input is empty |
| ChatMessages.GroupByDayDistinct | api/server/schema.ts:292-298 | bucket labels are pairwise distinct |
| ChatMessages.GroupByDayToday | api/server/schema.ts:296 | a bucket's `today` is true iff its label equals the label of now |
| ChatMessages.GroupByDayMembers | api/server/schema.ts:287-298 | a message is in bucket i iff it is in the input and its day label is the bucket's label |
| ChatMessages.GroupByDayCovers | api/server/schema.ts:287-298 | every input message lies in a bucket labelled with its day |
| ChatMessages.GroupByDayExactlyOne | api/server/schema.ts:287-298 | every input message lies in exactly one bucket |
| ChatMessages.GroupByDayPartition | api/server/schema.ts:287-298 | the buckets together hold exactly the input messages (as a multiset), and their total count is the input length |
| ChatMessages.Messages | api/server/schema.ts:263-299 | the resolver yields buckets for a read iff the read reaches the expected count, and they are then that read grouped by day |
| ChatMessages.MessagesComplete | api/server/schema.ts:263-299 | the resolver emits for a read iff the read reaches the expected count, and what it emits holds exactly that read's messages, never fewer than expected |
| ChatMessages.OnDaySorted | api/server/schema.ts:287-289 | the messages of one day, taken from a newest-first read, are still newest first |
| ChatMessages.GroupByDayAscending | api/server/schema.ts:295 | on a newest-first read, each bucket lists its messages oldest first |
| ChatMessages.GroupByDayOldestFirst | api/server/schema.ts:292-298 | on a newest-first read, with a label that names contiguous instants, every message of an earlier bucket is older than every message of a later bucket |
| Schema.ToLower | api/server/schema.ts:105 | lowering keeps the length, leaves no upper-case ASCII letter, and changes each character only in case (its upper-case image is kept) |
| Schema.ToUpper | api/server/schema.ts:233 | raising keeps the length, leaves no lower-case ASCII letter, and changes each character only in case (its lower-case image is kept) |
| Schema.UpperOfLower | api/server/schema.ts:233 | raising a lowered name with no lower-case letters gives the name back |
| Schema.TypeName | src/pages/messages/messages.ts:258-272 | the client sends every message type as a non-empty upper-case enum name |
| Schema.ParseTypeName | api/server/schema.ts:20-24 | an enum name parses only to the type whose name it is |
| Schema.ParseTypeNameInverse | api/server/schema.ts:20-24 | every type's name parses back to that type |
| Schema.StoredType | api/server/schema.ts:105 | `addMessage` stores the type name with the same length, no upper-case letter and each character changed only in case |
| Schema.ReadType | api/server/schema.ts:233 | `Message.type` answers a name of the stored name's length, with no lower-case letter and each character changed only in case |
| Schema.TypeRoundTrip | api/server/schema.ts:104-107 | a type stored by `addMessage` and read through `Message.type` is the same enum value (TEXT, LOCATION, PICTURE) |
| Schema.StoredTypeInjective | api/server/schema.ts:105 | distinct types are stored under distinct names |
| Schema.PlatformName | api/server/schema.ts:26-30 | each platform's enum name is non-empty and upper case |
| Schema.PlatformSuffix | api/server/schema.ts:332-336 | the suffix is empty iff the platform is absent or WEB; otherwise it has no upper-case letter and raises back to the platform's name |
| Schema.PlatformSuffixDistinct | api/server/schema.ts:332-336 | ANDROID and IOS get different suffixes |
| Schema.UserPicture | api/server/schema.ts:217-223 | `User.picture` is `{_id: null}` iff the profile has no non-empty `pictureId`, and otherwise carries that id |
| Schema.FirstReceiver | api/server/schema.ts:310 | the receiver is the first member whose id differs from the current user; there is none iff every member is the user |
| Schema.Receiver | api/server/schema.ts:310-311 | the receiver's profile is present iff there is a receiver and the store has that user |
| Schema.Title | api/server/schema.ts:308-314 | the title is non-empty iff the receiver exists and has a non-empty name, and is then that name; otherwise `''` |
| Schema.TitleNamesOtherMember | api/server/schema.ts:308-314 | in a two-member chat each member sees the other member's name, whatever the order of `memberIds` |
| Schema.ChatPicture | api/server/schema.ts:315-326 | the chat picture has an id iff the receiver exists and has a non-empty `pictureId` |
| Schema.ChatPictureIsReceiverPicture | api/server/schema.ts:315-326 | the chat picture is the receiver's user picture, and `{_id: null}` without a receiver |
| Schema.FirstOrNull | api/server/schema.ts:249 | null iff there are no rows, else the first row |
| Schema.LastMessage | api/server/schema.ts:240-252 | `lastMessage` is null iff the chat has no messages |
| Schema.LastMessageIsNewest | api/server/schema.ts:244-249 | on the newest-first read, `lastMessage` is a message of the chat no older than any other |
| Schema.Matching | api/server/schema.ts:178-181 | the selector matches exactly the stored chats with that id of which the user is a member |
| Schema.ChatQuery | api/server/schema.ts:172-184 | `Query.chat` is null for a signed-out caller; a chat it returns is stored, has that id and has the caller as member; it is null for a signed-in caller only when no such chat exists |
| Schema.Contacts | api/server/schema.ts:127-171 | no query for a signed-out caller; otherwise limit 15, a name filter present iff the pattern is truthy, the phone book or `[]`, the friends' ids only for a Facebook account |
| Schema.PatternNarrows | api/server/schema.ts:147-162 | the two selector shapes differ only in the name filter, and every user the patterned selector matches is matched without the pattern too |
| Timeline.CopyMessage | src/pages/messages/messages.ts:102 | the spread copy of a message equals it field for field |
| Timeline.CopyDay | src/pages/messages/messages.ts:100-103 | a copied day has the same label, `today` flag and messages, in the same order |
| Timeline.CopyTimeline | src/pages/messages/messages.ts:122 | the copied history equals the history bucket for bucket |
| Timeline.FindDay | src/pages/messages/messages.ts:126 | the lookup returns the first bucket with the label, or reports that none has it |
| Timeline.FindDayFirst | src/pages/messages/messages.ts:126 | the first bucket carrying a label is the one the lookup returns |
| Timeline.Reduce | src/pages/messages/messages.ts:108-146 | a null `live` keeps the state; a null `hist` gives `live` verbatim with `historyTaken` false; otherwise `historyTaken` becomes true |
| Timeline.AppendMissingIsUnseen | src/pages/messages/messages.ts:133-140 | the bucket keeps its messages in order, and gains at its end exactly the live messages whose `_id` it did not hold, in live order |
| Timeline.UnseenFresh | src/pages/messages/messages.ts:133-140 | every added message comes from the live day, has an `_id` the bucket did not hold, and no two added messages share an `_id` |
| Timeline.AppendMissingCovers | src/pages/messages/messages.ts:133-140 | after the inner loop every live message's `_id` is in the bucket |
| Timeline.AppendMissingIdempotent | src/pages/messages/messages.ts:133-140 | merging the same live messages a second time adds nothing |
| Timeline.AppendMissingKeepsUnique | src/pages/messages/messages.ts:133-140 | a bucket without duplicate ids stays without duplicate ids |
| Timeline.AppendMissing | src/pages/messages/messages.ts:133-140 | the inner `forEach` as a fold over the live messages; what it adds is stated by `AppendMissingIsUnseen` and the lemmas after it |
| Timeline.MergeDay | src/pages/messages/messages.ts:126-140 | one iteration of the outer `forEach`; its effect is stated by `MergeDayEffect` |
| Timeline.MergeLive | src/pages/messages/messages.ts:125-141 | the outer `forEach` as a fold over the live days; stated by `MergeLiveGrows`, `MergeLiveCovers` and `MergeLiveIdempotent` |
| Timeline.Run | src/pages/messages/messages.ts:105-151 | the `scan` over a run of pairs; stated by `RunGrows` and by `MessagesPage.DayGroups.Feed` |
| Timeline.MergeDayEffect | src/pages/messages/messages.ts:126-140 | an unseen label appends the live day at the end; for a known label, only its first bucket changes: it takes the live `today` and gains exactly the unseen live messages at its end |
| Timeline.MergeDayGrows | src/pages/messages/messages.ts:126-140 | merging a day keeps every bucket's label and place and extends each message list |
| Timeline.MergeDayAbsorbs | src/pages/messages/messages.ts:126-140 | after merging a day, a bucket with its label holds all its message ids |
| Timeline.GrowsCount | src/pages/messages/messages.ts:122-146 | a timeline that only grew holds at least as many messages |
| Timeline.MergeLiveGrows | src/pages/messages/messages.ts:125-141 | merging live days keeps the old buckets as a label-wise prefix, each old message list a prefix of its new list |
| Timeline.MergeLiveKeepsDistinct | src/pages/messages/messages.ts:125-141 | a timeline with distinct labels keeps distinct labels |
| Timeline.MergeLiveKeepsUnique | src/pages/messages/messages.ts:125-141 | buckets without duplicate ids stay that way when the live buckets have none |
| Timeline.MergeLiveCovers | src/pages/messages/messages.ts:125-141 | after a merge every live message id is in a bucket labelled with its day |
| Timeline.MergeLiveIdempotent | src/pages/messages/messages.ts:125-141 | merging the same live value twice equals merging it once, for any live value |
| Timeline.LastToday | src/pages/messages/messages.ts:132 | the flag a label's bucket ends with, taken from the last live day with that label: there is one iff some live day carries the label |
| Timeline.SetTodaysAt | src/pages/messages/messages.ts:132 | overwriting the flags day by day keeps every bucket's label, messages and place; the first bucket of a live label takes that label's last live flag, every other bucket keeps its own |
| Timeline.MergeDayFlagOnly | src/pages/messages/messages.ts:126-140 | merging a day whose ids the first bucket with its label already holds changes only that bucket's `today` flag |
| Timeline.MergeLiveHoldsFirst | src/pages/messages/messages.ts:125-141 | after a merge, the first bucket with each live day's label holds all that day's ids |
| Timeline.MergeLiveLastToday | src/pages/messages/messages.ts:125-141 | after a merge, the first bucket with a label has the flag of the last live day with that label, if any |
| Timeline.MergeLiveFlagsOnly | src/pages/messages/messages.ts:125-141 | merging live days whose ids the timeline already holds only overwrites `today` flags, day by day |
| Timeline.ReduceSeeds | src/pages/messages/messages.ts:122-146 | on the first history value the state takes the history, extended: history buckets keep label, place and messages, and every live message is absorbed |
| Timeline.ReduceIgnoresLaterHistory | src/pages/messages/messages.ts:122 | once history is taken, later history values do not affect the step, which merges `live` into the previous timeline |
| Timeline.ReduceGrows | src/pages/messages/messages.ts:122-146 | a seeded step only grows the timeline and never lowers its message count |
| Timeline.ReduceCovers | src/pages/messages/messages.ts:122-146 | a step with both values present keeps every live message |
| Timeline.ReduceIdempotent | src/pages/messages/messages.ts:108-146 | a second step with the same live value leaves the state unchanged, for any live value |
| Timeline.RunGrows | src/pages/messages/messages.ts:105-151 | across any run of seeded steps with both values present, the timeline only grows and its count never decreases |
| MessagesPage.FindDayIndex | src/pages/messages/messages.ts:126 | the scan finds a bucket iff one has the label, and then the first such bucket |
| MessagesPage.ContainsId | src/pages/messages/messages.ts:134 | the scan succeeds iff some message carries the id |
| MessagesPage.MergeMessages | src/pages/messages/messages.ts:133-140 | the pushes leave the bucket followed by exactly its unseen live messages |
| MessagesPage.DayGroups.constructor | src/pages/messages/messages.ts:147-150 | the accumulator starts with no history taken and no days |
| MessagesPage.DayGroups.Step | src/pages/messages/messages.ts:108-146 | one step updates the fields in place to the reducer's new state and emits its messages |
| MessagesPage.DayGroups.Feed | src/pages/messages/messages.ts:105-151 | feeding a run of pairs leaves the state of the whole scan and emits one timeline per pair, the state after that pair |

## Left out

- Debounce timers, the scheduling of `switchMap`, `combineLatest` and `scan`, and the `@live` and `@defer` directives are stream plumbing. The reducer is a function of explicit `(live, hist)` pairs, and the gate is a function of successive reads.
- `moment` formatting, time zones, locale and the wall clock are parameters: `dayLabel` and `nowLabel`. `ChatMessages.GroupByDayOldestFirst` requires that a label names a contiguous range of instants, as a calendar day does.
- Object keys come out of `Object.keys` in insertion order. This holds because a `D MMMM Y` label is never an integer-like key, which the model takes as given.
- Meteor and Mongo access (`find`, `findOne`, `count`, `this.call`) and `makeExecutableSchema` are not modelled. The store's rows and counts are inputs.
- The contacts lookup does not model `facebookService`. The friends' ids are a parameter.
- The `$regex` name test of the contacts selector is a parameter of `Schema.Matches`. The model states only the shape of the selector.
- `Chat.members`, `Chat.messageCount`, `Message.chat`, `Message.sender`, `User.name` and the other mutations are single store calls or forwards. They have no logic of their own.
- `Query.allChats` is not modelled. For a signed-out caller it returns `[]` from `switchMap` (api/server/schema.ts:187-189), so, as for `contacts`, nothing is emitted; otherwise it streams the chats that list the caller as a member.
- `Message.ownership` is not modelled. It maps the caller's id stream to `root.senderId === userId` (api/server/schema.ts:236), so a message is the caller's own exactly when its sender id equals the caller's id, and never for a signed-out caller.
- `Query.me` is not modelled. It returns `null` from `switchMap` for a signed-out caller (api/server/schema.ts:116-118), and otherwise the first row of a one-row user lookup.
- `Query.myFacebookProfile` is not modelled, because it needs `facebookService`. It returns `null` from `switchMap` for a signed-out caller, throws `Meteor.Error('unauthorized')` when the account has no Facebook service (api/server/schema.ts:200-202), and otherwise fetches the Facebook profile.
- `Schema.ChatQuery`: its `None` for a signed-out caller stands for what the code does there. The `switchMap` projection returns `null` (api/server/schema.ts:174-176), which RxJS 5 rejects with a `TypeError` on the stream, so no chat is delivered. For a signed-in caller, `None` is the resolver's own `null`.
- `Schema.Contacts`: its `None` for a signed-out caller stands for `switchMap` over the array `[]`, which emits nothing.
- Schema.UserPicture, Schema.Title and Schema.ChatPicture take every user document to carry a `profile`: the user store maps an id to a profile. The code reads `root.profile.pictureId` (api/server/schema.ts:218), `receiver.profile.name` (line 312) and `receiver.profile.pictureId` (line 320); for a user document without `profile` each of these throws a `TypeError`, which errors the `User.picture`, `Chat.title` or `Chat.picture` stream. The model always returns a value there.
- Case mapping is ASCII only. All enum names here are ASCII.
- `Schema.TypeName` leaves out the `default: throw` branch of the client switch, because a typed `MessageType` always matches one of the three cases.
- Timeline.Reduce: a `live` value of `undefined` is not told apart from `null`; both are `None`, which keeps the state. The code tests `null === live`, so `undefined` goes on. With a `null` history it gives `{historyTaken: false, messages: undefined}` and the page emits `undefined`. Otherwise it fails at `live.forEach`.
- `Timeline.RunGrows` is stated for seeded steps where `live` and `hist` are both present. A `null` history after seeding resets the state to `live` with `historyTaken` false, as the code is written (src/pages/messages/messages.ts:114-118).
- `Timeline.CopyDay` and `Timeline.CopyTimeline` are copies of values. Aliasing between the live result and the state is not modelled: the in-place `day.messages.push(msg)` pushes the live message object itself.
- MessagesPage.DayGroups.Feed and MessagesPage.DayGroups.Step return a value snapshot of the timeline for each step. In the code, once history is taken, `msgs` is `state.messages` itself (src/pages/messages/messages.ts:122). It is changed in place (lines 128, 132 and 139) and emitted (line 151), so every emission after seeding is the same array, and a subscriber holding an earlier emission sees it change. Before history arrives, the state's `messages` is the live array itself (line 117).
- `getLocation`, the DOM auto-scroll, the popovers and modals, the other pages, the app bootstrap and the Apollo client set-up are UI or configuration.
- The gate holds back a read only when it is shorter than the expected count, so it passes every read of that length or longer, not only reads of exactly that length (api/server/schema.ts:275-281).
