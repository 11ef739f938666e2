# The clerk's protocol, its session, and the WebAssembly stripper

The clerk hosts a persona's suggestions on a Nostr relay and carries the owner's
reactions to the Companion Gateway. It keeps no store: what it posted, what it wrote
in the journal and which gestures it has answered are read back off the relay every
time. This project models that protocol over an external memory, the rotating session
the clerk speaks to the Gateway with, and the byte-level stripper in the Companion's
build, and proves what they promise over every input, every run and every interleaving.

| file | what it holds |
|---|---|
| `Strings.dfy` | lines, trimming and words, as the Rust string functions have them |
| `Reference.dfy` | the reference line at the foot of a post |
| `Relay.dfy` | events, targets, tags, signature filtering, chunked queries |
| `Decision.dfy` | what a gesture decides, the order, the triage |
| `Thread.dfy` | thread answers, and reading back which gestures they spent |
| `Schedule.dfy` | expiry, the sweep's verdict, redelivery delays, refresh deadlines |
| `Carry.dfy` | refusal codes, the Gateway's answers, the table `carry` branches on |
| `Steps.dfy` | runs of any state machine, joined end to end |
| `Gateway.dfy` | the Gateway's side of an approval, any number of runs of it at once, and the bus behind it |
| `Protocol.dfy` | the clerk, the relay, the Gateway and the bus as one state machine |
| `Safety.dfy` | the invariant every step keeps |
| `Guarantees.dfy` | what follows for every run: posts, lines, answers, deletions, the dead session |
| `History.dfy` | runs looked back on: the world after each step, what only ever grows |
| `Approvals.dfy` | every approval traced back to what the relay held when it was read |
| `Answers.dfy` | every thread answer traced back to what it is about |
| `Replies.dfy` | how often a reply is sent, exactly |
| `Quiet.dfy` | quiescence |
| `Silence.dfy` | what a tick plans and does, no silence before an expiry, the bounded life of a post |
| `Reading.dfy` | the loop's two chunked queries against what the relay holds |
| `Runs.dfy` | runs as one task sees them: what the steps of the others leave alone |
| `Accounting.dfy` | what a suggestion, a sweep and a tick amount to |
| `Clerk.dfy` | class `Clerk`: consumers, sweep and decisions loop as they run |
| `SessionFile.dfy` | the session file's reader and line-preserving rewriter |
| `Session.dfy` | file, slot, lock and rotating server as a state machine of any number of tasks |
| `GatewayClient.dfy` | class `Client`: `refresh_locked`, `device_token`, `as_device` as they run |
| `Leb128.dfy`, `WasmStripper.dfy` | the stripper of `vite.config.ts` |

## How the protocol is modelled

`Protocol.World` holds the relay (the clerk's standing posts and every post it ever
wrote, the gestures of others, the clerk's thread answers, the journal), the Gateway
(approval rows, the runs of the approval, replies on the bus, the ids the bus still
recognises), every call the clerk made there while carrying or posting (an approval with
the text it sent, or the read of a suggestion), the bus (the suggestions stream, what was
acked, every settlement) and one place per task of the clerk. A step is one request, one
answer to an approval, or one thing the world does. Every write has "took effect" and "was
answered" apart, a `Crash` may come between any two steps and loses every task's place and
what it believes of the session, and an ack may be lost.

An approval the clerk or the owner's screen asks for is a run at the Gateway
(`companion-gateway/src/approval.rs:1747-1817`): it asks the row, records the approval, has
the reply put on the bus, marks the row, one write a step. Runs of one suggestion overlap
in any way, and one may stop for good after any of its steps. The clerk's answer is a step
of its own, true of how far its run got or not an answer at all, and the clock that
`defer` goes by is read there.

`Clerk` then states the same tasks as the source has them: loops over what was read,
one request at a time, with any steps of the others in between (`OthersMove`). How each
request goes, and what the Gateway would say, is given from outside, so its methods say
what they do for every such course of events and cannot fail of themselves. Each of its
methods is shown to be a run of the protocol (`Leads`), so every guarantee holds of
it; its loops are also shown to account for what they wrote. `Session.dfy` and
`GatewayClient.dfy` stand to each other in the same way; there the file is a real text,
read and rewritten by `SessionFiles`.

## What the proofs rest on

- One clerk per relay key (`clerk/README.md:62`), and an owner's key that is not the
  clerk's (`clerk/src/main.rs:77-84`).
- Queries are not cut short by their limit (`clerk/src/consumers.rs:157-164`).
- The relay answers filters honestly, except that it may add events that do not verify;
  ids of verifying events are hashes. Signature checking is the field `genuine`.
- A request whose answer was lost took effect before the clerk's next read, or never.
  (Refresh requests are the exception: one given up on may still arrive at any later
  time.)
- Suggestions keep the contract: a 64-digit lowercase hexadecimal id and an expiry on
  one line. `Reference.StrayIdNamesAnother` shows what goes wrong otherwise.
- RFC 3339 dates are a partial function from strings to seconds (`Clock`). The session
  proofs read one clock for client and server.
- The names `stripSections` drops are ASCII (`companion/vite.config.ts:50`).
- The silence and the bounded-life theorems suppose of a run what the code can only hope
  for: passes and ticks come often enough, are over in time, no crash cuts them short and
  their writes take effect. Each says which.
- The Gateway's refresh is honest: a `401` to a refresh or to a request means that the
  token sent was not one it honours.

## Where the code and its words differ

Each with an input and with the exact condition.

- `stripSections` says it checks "version 1" (`companion/vite.config.ts:75`); it checks
  the four magic bytes only. `WasmStripper.AnyVersionPasses`: any four bytes pass.
- Custom sections go by their decoded names, and decoding drops a byte-order mark: a
  section named by a mark and then `name` goes too: `WasmStripper.MarkedNameGoes`.
  `WasmStripper.DropsByOwnName`: what goes is what is named so if and only if there is no
  such section.
- A sixth LEB128 byte is added with shift 35, which JavaScript takes as 3.
  `Leb128.SixthByteIsMisread` gives an input, `Leb128.AgreesWithTheStandard` says exactly
  when the reader agrees with section 5.2.2 of the WebAssembly Core Specification.
- A device request is documented as "one refresh and one retry"
  (`clerk/src/gateway.rs:662-664`). `Sessions.ThirdRefresh` is one that makes three on its
  own; `Sessions.ThreeRefreshesExactlyWhen`: exactly when the retry asks for its token
  after two and finds nothing fresh in the slot.
- "`Unauthenticated`: revoked, or its refresh token died" (`clerk/src/gateway.rs:566-568`)
  is not so when another task refreshes in between: `Sessions.InterleavedRefreshKills`.
  `Sessions.RetryRefusedExactlyWhen`: a retry is refused exactly when the device is
  revoked, its token ran out, or the tokens were rotated since it was taken.
- "Every other line survives a rewrite" (`clerk/src/gateway.rs:185-186`) holds exactly
  when no other line ends in a stray carriage return: `SessionFiles.OtherLinesSurvive`. A
  file that is the letter `a` and a carriage return loses it:
  `SessionFiles.StrayReturnIsLost`.
- A reply can be on the bus twice: of two overlapping approvals one sends it and marks the
  row, the bus forgets it, and the other sends it again
  (`Replies.ForgettingSendsTwice`). `Replies.SentAgainExactlyWhen`: exactly when a run that
  found the row not published publishes after the bus forgot the reply and while it does
  not recognise it. `Replies.SentNoMore`: never again once the row is marked and no such
  run is left.
- The Gateway's `standing` is "approved" as soon as an approval is recorded
  (`companion-gateway/src/suggestions.rs:1016-1022`), so a suggestion may be skipped as
  approved with nothing sent: `Replies.SkippedUnsent`. `Replies.SkippedMeansRecorded`: its
  reply was sent exactly when some run of the approval got as far as the bus.

"Posted at most once ever" is not claimed and is not true: after an owner's refusal
takes down a post whose message was not acked, a redelivery may post it again. What
holds is that no two standing posts name one suggestion.

## Model

| member | source | states |
|---|---|---|
| Reference.RoundTrip | clerk/src/reference.rs:50-82 | under any text above it, reference lines included, a written reference line is read back as itself if and only if id and expiry are well formed |
| Reference.ParseIsWellFormed | clerk/src/reference.rs:66-90 | whatever content is read, a reference that comes out has an id of 64 digits from 0 to 9 and a to f, and an expiry without white space |
| Reference.ParseIs | clerk/src/reference.rs:66-72 | what is read comes of the last line that starts with the prefix, white space aside, wherever it stands; without one nothing does |
| Reference.ReadsWords | clerk/src/reference.rs:73-74 | however it is spaced, a first word that is no id makes the line none, and an id alone has no expiry |
| Reference.ReadsExpiry | clerk/src/reference.rs:75-78 | however they are spaced, the word after `expires` is the expiry, and any other word there is not |
| Reference.OwnNameIsRead | clerk/src/consumers.rs:634-655 | under any text and with any one-line expiry, a post is read as its own suggestion's if and only if the id is well formed |
| Reference.StrayIdNamesAnother | clerk/src/reference.rs:66-90 | an id the contract forbids is read back as another suggestion's |
| Reference.AlreadyPostedIsMemory | clerk/src/consumers.rs:228-233 | `already_posted` answers exactly "some post was written for this id", whatever one-line expiries the posts carry |
| SessionFiles.ReplaceFirst | clerk/src/gateway.rs:267-282 | the loop with its `replaced` flag replaces the first token line and no other, or appends one |
| SessionFiles.SessionFile.Write | clerk/src/gateway.rs:252-314 | wherever the rewrite stops, and whatever of an unsynced file a power cut leaves, the file is found with the whole rewrite or its old contents, and nothing between |
| SessionFiles.TokenIsAssigned | clerk/src/gateway.rs:317-340 | a line holds a token exactly when, trimmed, it is the key, an equals sign and a value, with or without `export`, however spaced; and that value's, unquoted, is the token |
| SessionFiles.UnquoteIs | clerk/src/gateway.rs:334-339 | a pair of double quotes goes, or a pair of single ones, and nothing else does |
| SessionFiles.ReadIs | clerk/src/gateway.rs:222-237 | the token is that of the first line that holds one, if it is not empty |
| SessionFiles.WriteThenRead | clerk/src/gateway.rs:225-283 | over every old contents, the token written is the token read if and only if it is one non-empty, trimmed, unquoted line |
| SessionFiles.OtherLinesSurvive | clerk/src/gateway.rs:184-186 | every other line survives in order, if and only if none ends in a stray carriage return |
| SessionFiles.StrayReturnIsLost | clerk/src/gateway.rs:264-283 | a file whose other line ends in a stray carriage return loses it, whatever plain token is written |
| SessionFiles.SecondWriteReplacesFirst | clerk/src/gateway.rs:252-283 | a second rewrite leaves what it would have left without the first |
| Leb128.ReadLeb128 | companion/vite.config.ts:126-142 | the loop computes the recursive reader, and stays in bounds |
| Leb128.InvertsTheStandard | companion/vite.config.ts:126-142 | every encoding of a 32-bit number that section 5.2.2 of the WebAssembly Core Specification allows, at any offset, is read as that number and the offset past it |
| Leb128.ReadsWithinSixBytes | companion/vite.config.ts:126-142 | on every byte array it answers if and only if one of six bytes ends an encoding, with a value below 2^32 and an offset within the array, past `at` |
| Leb128.AgreesWithTheStandard | companion/vite.config.ts:126-142 | an answer is the standard's if and only if there were at most five bytes and a fifth was below 16 |
| Leb128.SixthByteIsMisread | companion/vite.config.ts:130-140 | a six-byte input read as 8 where it says 2^35 |
| Leb128.ReadIsLocal | companion/vite.config.ts:126-142 | what is read depends on the bytes read and nothing else |
| WasmStripper.StripSections | companion/vite.config.ts:74-123 | the walk over a byte array and the copy into the output buffer compute the specification, for every array |
| WasmStripper.CarriesDroppedName | companion/vite.config.ts:102-112 | whether a custom section's name, clipped at the end of the module and decoded, is among the dropped |
| WasmStripper.Concatenate | companion/vite.config.ts:116-123 | the output buffer holds the kept parts, in order, and no more |
| WasmStripper.StripsByName | companion/vite.config.ts:74-123 | a header and well-formed sections strip to the same header and exactly the sections whose decoded name is not dropped, in order, byte for byte |
| WasmStripper.DropsByOwnName | companion/vite.config.ts:102-112 | by their own names: the same if and only if no section is named by a byte-order mark and a dropped name |
| WasmStripper.MarkedNameGoes | companion/vite.config.ts:102-112 | a section named by a byte-order mark and `name` is not one of those named so, and goes |
| WasmStripper.AnyVersionPasses | companion/vite.config.ts:75-83 | the version is not looked at |
| WasmStripper.OutputParsesAndIsFinal | companion/vite.config.ts:74-123 | an independent parser reads the output as the kept sections, and stripping twice is stripping once |
| WasmStripper.NothingButCustomSectionsGoes | companion/vite.config.ts:74-123 | over every byte array: `null` if and only if the bytes are not a header, beginning with the four magic bytes, and sections; otherwise the output is a module with the same sections that are not custom |
| Relay.OneTarget | clerk/src/relay.rs:362-368 | an event is on a post exactly when it is a reaction or a comment and its last `e` tag, whichever come before it, names the post; so on one post at most |
| Relay.DirectReplyIs | clerk/src/relay.rs:378-391 | a direct reply is exactly a comment with one `e` tag, on the post, marked `reply` or not marked |
| Relay.AnsweredIs | clerk/src/relay.rs:397-405 | an answer is to the gesture of its first `r` tag with the prefix, if that names one, and to no other |
| Relay.Verified | clerk/src/relay.rs:427-444 | what verifies and what does not, each in order |
| Relay.QueryEach | clerk/src/relay.rs:680-691 | fails if and only if a query does; otherwise every verifying event served, each id once |
| Relay.ChunkingIsInvisible | clerk/src/relay.rs:795-806 | the chunked queries, answered honestly, believe exactly what one query would |
| Relay.CommentReadsBack | clerk/src/relay.rs:828-839 | the clerk's own answer is a direct reply on its post and names its gesture, and no other |
| Relay.LineReadsBack | clerk/src/relay.rs:335-342 | a journal line is found by its own reference and by no other |
| Decisions.DecisionMeans | clerk/src/decision.rs:119-169 | what a decision says of its event: target, id, key, time; an approval is a check mark and a refusal a cross, and an edited reply, which is neither, is sent as its exact trimmed text |
| Decisions.EmojiMeans | clerk/src/decision.rs:160-174 | over every content: approved exactly when, trimmed, it is U+2705 or U+2714 and any number of U+FE0F, refused exactly when it is U+274C or U+2716 and such |
| Decisions.DecidesExactly | clerk/src/decision.rs:119-169 | which events decide on a post: a reaction that is one of the emoji, or a direct reply with anything in it, and no other; and what |
| Decisions.InsertInOrder | clerk/src/decision.rs:135-140 | one decision put in its place in a sorted list |
| Decisions.ComputeDecisionsOn | clerk/src/decision.rs:119-141 | the collecting and sorting loop computes `DecisionsOn` |
| Decisions.DecisionsOnFacts | clerk/src/decision.rs:119-141 | never an older decision after a younger one, and of those of one second the id that is lower at the first difference first; each gesture once, and exactly the decisions among the events |
| Decisions.OrderIsInvisible | clerk/src/decision.rs:119-141 | the list depends on the set of events only |
| Decisions.ChunkedDecisions | clerk/src/relay.rs:654-691 | so any order, chunking and overlap of the queries gives the decisions of one query |
| Decisions.DisjointPosts | clerk/src/relay.rs:362-368 | the decisions of two posts share no gesture |
| Decisions.Triage | clerk/src/decision.rs:191-202 | the loop computes the owner's first decision and the strangers' |
| Decisions.TriageFacts | clerk/src/decision.rs:191-202 | the act is the owner's, made no later than any other of the owner's and with the lower id if in the same second; every stranger's is kept in order |
| Thread.AnsweredGestures | clerk/src/consumers.rs:1571-1589 | the two sets hold exactly the gestures spent and those told "revoked" |
| Thread.RevokedIsRecognised | clerk/src/text.rs:312-380 | an answer is read as "revoked" if and only if it was, in whatever language it was written |
| Thread.AnswerReadsBack | clerk/src/consumers.rs:1571-1589 | an answer read back names its gesture and says whether it spent it |
| Schedule.SweptFromItsDueInstant | clerk/src/consumers.rs:1144-1154 | the sweep deletes a dated post exactly from its expiry on, any other exactly from 604800 seconds after it was written, as far as 64 bits go; once it may it always may; `Expired` exactly when the loop says so |
| Schedule.NaksBackOff | clerk/src/consumers.rs:239-246 | the waits are 2, 4, 8, 16 and 32 seconds, and then a minute each |
| Schedule.DelaysSum | clerk/src/consumers.rs:239-246 | the first n delays sum to 62 + 60(n - 5), for n at least 5 |
| Schedule.LastDeliveryInsideTheHour | clerk/src/consumers.rs:128-152 | a delivery comes inside the hour if and only if it is one of the first sixty-four |
| Schedule.DeadlineMoves | clerk/src/consumers.rs:1364-1395 | on a living session the deadline stays, or is a day off after a refresh that succeeded and a retry off after one that failed; on a dead one it is that or a retry off, whichever is sooner |
| Schedule.DeadlineHolds | clerk/src/consumers.rs:1353-1370 | while the session is dead the refresh deadline never moves away, and stays within one retry of the first dead turn; `ClerkTasks.Clerk.RunDecisions` has turns and deadlines that are so scheduled |
| Schedule.ARetryComes | clerk/src/consumers.rs:1299-1351 | so a retry comes, in the loop's own turns too |
| Carry.Classified | clerk/src/refusals.rs:137-198 | over every code, known or not: two are retried, one means the reply went out, every other is answered |
| Carry.TakesThePostDown | clerk/src/gateway.rs:691-736 | exactly which HTTP answers lead to the post being deleted |
| Carry.WhatIsSaid | clerk/src/consumers.rs:1769-1890 | what every other HTTP answer leads to: told as refused exactly for a code that says no for good; told as not recorded only if the post is about to expire; otherwise nothing is said |
| Carry.ExpiresSoon | clerk/src/consumers.rs:1612-1626 | about to expire is dated, with at most the loop's interval and ten seconds left |
| Safety.StepKeeps | clerk/src/consumers.rs:524-2058 | every step of every task, of the world, and every crash keeps the invariant |
| Safety.ReachableKeeps | clerk/src/consumers.rs:524-2058 | so every reachable world has it |
| Guarantees.OnePostPerSuggestion | clerk/src/consumers.rs:597-679 | no two standing posts name one suggestion, over redeliveries, lost answers, lost acks, crashes and interleavings |
| Guarantees.OneLinePerReference | clerk/src/consumers.rs:927-948 | the journal never has two lines for one reference |
| Guarantees.ReportsNeverSuppressEachOther | clerk/src/consumers.rs:843-917 | the reports "posted" and "never sent" of one approval have distinct references, and no two approvals share one |
| Guarantees.NoSilentLoss | clerk/src/consumers.rs:524-679 | an acked message was settled by an outcome that is true of it: unreadable; its own expiry, read by the clock, passed; refused for good; posted, with its own text and reference line written; or a post that names it or an approval there was |
| Approvals.TickOrigin | clerk/src/consumers.rs:1432-1500 | what a tick goes by came of its own two reads, of all the posts and of all the gestures on them by others that stood at those steps of the run |
| Approvals.EveryCallIsJustified | clerk/src/consumers.rs:1468-1765 | every approval call of every run: session believed alive, gesture unspent, post and gesture standing when read and the post not expired, no unspent decision of the owner's on the post, of all that stood, made before it, the suggestion the post names, and a check mark, or else the direct reply's own trimmed text, which is no emoji, sent with it |
| Answering.EveryAnswerIsTrue | clerk/src/consumers.rs:1502-1992 | every answer of every run is to an unspent gesture on its post and is true: strangers alone are told that only the owner decides; the owner that it expired when it had and was no refusal; refused, after the Gateway said no for good; not recorded, after no usable answer with the post about to expire; revoked once, on a session believed dead or just refused |
| Answering.AnswerIsHeeded | clerk/src/consumers.rs:1743-1890 | what each answer of the Gateway's leads to: one that is none or asks to be asked again leaves the gesture unspent and goes on, unless the post is about to expire |
| Guarantees.EachGestureAnsweredOnce | clerk/src/consumers.rs:1487-1561 | one spending answer and one "revoked" a gesture at most, and never "revoked" after spending |
| Guarantees.LoopChanges | clerk/src/consumers.rs:1694-2058 | a step of the loop takes down the post at hand or adds one answer to the gesture at hand, and changes nothing else on the relay |
| Guarantees.DeletedOnlyWhenDecided | clerk/src/consumers.rs:1720-1951 | the loop takes a post down only for a cross of the owner's own on it, on an event that verifies, or when the reply it proposed is on the bus |
| Guarantees.SweptOnlyWhenDue | clerk/src/consumers.rs:1161-1238 | the sweep takes a post down only from its due instant on |
| Replies.RepliesAreCounted | companion-gateway/src/approval.rs:1747-1817 | in every run, overlapping approvals and all, a reply is on the bus exactly once for each time the bus forgot it, and once more if the bus recognises it; when that is at most once; and at all exactly when some run got as far as the bus |
| Replies.SentAgainExactlyWhen | companion-gateway/src/approval.rs:1747-1817 | which step of which run sends a reply: for the second time exactly when the run found it not published, and the bus forgot it once and recognises it no longer |
| Replies.AnswersMean | companion-gateway/src/approval.rs:1747-1817 | "approved" means the row is marked and the reply on the bus, "sent but not recorded" that it is on the bus, a refusal for good that its run did neither |
| Replies.SentNoMore | companion-gateway/src/approval.rs:1747-1817 | from a world where the row is marked published and no run that found it not is left, over any run, the reply is not sent again |
| Replies.SkippedMeansRecorded | clerk/src/consumers.rs:742-775 | a suggestion skipped as approved has an approval recorded, and its reply was sent exactly when some run of the approval got as far as the bus |
| Replies.SkippedUnsent | companion-gateway/src/suggestions.rs:1016-1022 | a run in which none did, and the message is acked |
| Replies.ForgettingSendsTwice | companion-gateway/src/approval.rs:1747-1817 | a run of two overlapping approvals with a reply on the bus twice |
| Guarantees.DecisionsAreOthers | clerk/src/consumers.rs:1468-1483 | a gesture the loop acts on was never the clerk's own |
| Quiescence.DoneGrows | clerk/src/consumers.rs:1161-1563 | no step of anybody's undoes what was done to the relay, and each step of loop or sweep that changes it does one thing more |
| Quiescence.LoopsFallQuiet | clerk/src/consumers.rs:1264-1270 | in any run whatever, loop and sweep change the relay at most twice a gesture and once a post there ever were; with no new gesture and no new post, at most as often as is left to do |
| Silence.TickPlansEveryDecision | clerk/src/consumers.rs:1498-1561 | tick completeness: every stranger's gesture seen and unspent, and the owner's first, is on the list once the answers are read, carried if the post is open, told if it came too late |
| Silence.EveryItemIsTakenUp | clerk/src/consumers.rs:1498-1561 | what is on the list of a tick that runs to its end is dealt with |
| Silence.NoSilence | clerk/src/consumers.rs:1601-1626 | in a run whose carries of an approval of a dated post end at most a window apart, the first before the expiry: before the post expires and before the sweep takes it down the gesture is spent or told "revoked", or the post is gone with its reply on the bus, and stays so; a carry may be under way as the post expires |
| Silence.NoSilenceOverTicks | clerk/src/consumers.rs:1456-1561 | the same of the relay: an owner's approval that stands, with no older unspent decision of the owner's, is settled before the post expires, with nothing assumed of what the loop reads or does but that its ticks come often enough, run to their end and have their writes take effect; a tick may be under way as the post expires |
| Silence.GoneWithinOneInterval | clerk/src/consumers.rs:1102-1238 | in a run whose sweeps are regular and do not fail every post is gone within one interval of its due instant, for good |
| Reading.GesturesServed | clerk/src/relay.rs:654-691 | the chunked query, answered honestly, fails or serves exactly what a tick may read: every gesture on the posts that verifies, each id once |
| Reading.AnswersServed | clerk/src/consumers.rs:1487-1496 | the clerk's own comments on the posts, read back, give exactly the gestures its answers there spent and those they told "revoked" |
| Guarantees.DeadMakesNoCalls | clerk/src/consumers.rs:754-768 | from a death of the session to a refresh that succeeds, or a restart, and whatever everybody else does: no approval is asked for and no suggestion read |
| Guarantees.SessionDies | clerk/src/consumers.rs:1375-1420 | which steps make the session believed dead: a refused approval, a refused read, a refused refresh, and no other; and what ends it |
| Approvals.CallsStay | clerk/src/consumers.rs:754-768 | every approval and every read made on a session believed alive is logged, and nothing else is |
| Guarantees.OnlyCallsMoveTheGateway | clerk/src/consumers.rs:1743-1765 | what the loop does at the Gateway is its logged calls, each of which starts a run there, and taking their answers, each of which ends one; it changes nothing else there |
| Runs.OthersLeaveAlone | clerk/src/consumers.rs:254-285 | what any steps of the other tasks and the world leave alone |
| Histories.RunGoesOn | clerk/src/consumers.rs:597-2058 | over any run, crashes and all, no answer, call or reply is taken back, and a post that was written and is gone never stands again |
| ClerkTasks.Clerk.HandleSuggestion | clerk/src/consumers.rs:597-679 | the outcome of one delivery from how its requests go, each for its one reason, and what is written: skipped as expired exactly when its expiry has passed, the suggestion's own post exactly when no skip applies and the request takes effect |
| ClerkTasks.Clerk.SettleIt | clerk/src/consumers.rs:524-591 | one settlement logged for each delivery, and acked exactly if it is not a nak and the ack takes effect |
| ClerkTasks.Clerk.JournalLine | clerk/src/consumers.rs:927-948 | from how its two requests go: the line is written exactly when the look found none with its tag and the request took effect, and the answer says why if not |
| ClerkTasks.Clerk.SweepOnce | clerk/src/consumers.rs:1161-1238 | every post that was due when read is gone if no request failed, and the failures counted are the requests that failed; the other count is that of the standing posts on which the clock reads no date, none if they could not be read |
| ClerkTasks.Clerk.Carry | clerk/src/consumers.rs:1694-1890 | what one carry does and counts, from how its requests go and what the Gateway would say: nothing on a post that names no suggestion; a refusal takes the post down; a dead session is told once; otherwise the Gateway's answer is heeded, put off and unspent if there is none and time is left |
| ClerkTasks.Clerk.DecideOn | clerk/src/consumers.rs:1502-1561 | exactly the part of the plan for this post; every failed request is counted and nothing besides; if nothing fails and nothing is put off, every stranger on it is answered and the owner's first attended to |
| ClerkTasks.Clerk.DecisionsOnce | clerk/src/consumers.rs:1432-1563 | answers counted are on the relay and answers on the relay are counted, no more posts counted as decided than went; the failures are the requests that failed, no more is put off than calls were made, and a tick with neither leaves nothing undone on any post that stood |
| ClerkTasks.Clerk.RunDecisions | clerk/src/consumers.rs:1299-1351 | over any number of turns, each with its tick and its refresh if due: no more ticks do anything, without failing or putting off, than twice the gestures and once the posts there ever were; turns and refresh deadlines are as scheduled, so that while the session is dead a retry comes |
| Sessions.StepKeeps | clerk/src/gateway.rs:569-657 | the session's invariant, over any number of tasks, crashes, lost and late requests |
| Sessions.HeldMeansStored | clerk/src/gateway.rs:560-642 | a device token is held only while the file holds the server's own refresh token; the file is behind by one rotation at most, exactly when the last one's token did not reach it |
| Sessions.OneRefreshAtATime | clerk/src/gateway.rs:489-494 | two refreshes are never under way |
| Sessions.OthersKeepOut | clerk/src/gateway.rs:569-657 | while a task refreshes no other touches file, slot or lock |
| Sessions.RefusedRefresh | companion-gateway/src/session.rs:260-301 | an answered refresh is refused if and only if the device was revoked, its token expired, or the file's was rotated away unreplaced |
| Sessions.RotatesExactlyWhen | companion-gateway/src/session.rs:260-301 | the server rotates its tokens exactly when its own living refresh token arrives, heard of or not |
| Sessions.MayStillArrive | clerk/src/gateway.rs:569-657 | which refreshes given up on may arrive yet: those whose request is still out or was cut off by a crash |
| Sessions.UnauthenticatedMeansDead | clerk/src/gateway.rs:818-835 | with no other's refresh in between, `Unauthenticated` means revoked, a dead refresh token, or a device token that ran out on the way |
| Sessions.RetryRefusedExactlyWhen | clerk/src/gateway.rs:830-834 | with others' refreshes too: a retry is refused exactly when the device is revoked, its token ran out, or the tokens were rotated since it was taken |
| Sessions.DeadForGood | clerk/src/consumers.rs:1273-1285 | a dead session stays dead under every step: refreshes are refused, requests not answered |
| Sessions.InterleavedRefreshKills | clerk/src/gateway.rs:818-835 | a run in which a request is answered `Unauthenticated` on a live session |
| Sessions.AtMostTwoSends | clerk/src/gateway.rs:818-835 | two sends and three refreshes a request at most, in every run |
| Sessions.TwoRefreshes | clerk/src/gateway.rs:477-479 | from its beginning on a request costs two at most if nobody else touches the slot and the retry asks for its token before four fifths of its life are over |
| Sessions.ThreeRefreshesExactlyWhen | clerk/src/gateway.rs:646-657 | a request has made a third refresh exactly when its retry, after two, found nothing fresh in the slot |
| Sessions.ThirdRefresh | clerk/src/gateway.rs:646-657 | slower than that there are three |
| GatewayClients.Client.RefreshLocked | clerk/src/gateway.rs:577-642 | it comes to what the server answers to the file's token, or fails if the rewrite does; the slot is filled only once the file's text holds the successor, and on any failure the slot is empty and the file as it was |
| GatewayClients.Client.DeviceToken | clerk/src/gateway.rs:646-657 | a fresh token held is handed out and nobody asked; otherwise one refresh; a token handed out is fresh and the server's own, and the file holds its refresh token |
| GatewayClients.Client.AsDevice | clerk/src/gateway.rs:818-835 | one request is a run of the session's protocol, with two sends and three refreshes at most; it fails only if something on the way did; answered only by a server that honours the device; `Unauthenticated` is a dead refresh, or a retry whose token was the server's own when handed out and is dead or rotated since |

## Left out

- HTTP, NATS, TLS, the async runtime, tracing and metrics: a request is a step with "took effect" and "answered" apart.
- Signatures, NIP-98 headers and key files: the field `genuine`.
- RFC 3339 parsing and JSON: a partial function from strings, and messages that are readable or not.
- The wording of posts, thread answers, catalogues and delivery lines: a post is any text above its reference line, an answer the head of its sentence.
- `is_transient` and `names_a_server_fault`: whether a failure is worth another try is given with how the request goes.
- Lines in `activite`, their consumer, and the counters `posts` and `gestures` of a tick.
- The 64th delivery, after which the bus gives a message up: it stays unacked in the model, and `Guarantees.NoSilentLoss` speaks of acked messages.
- Operators signing the device in again, and a second process on the session file.
- File modes, and the directory entry's own durability: a renamed file stays renamed. The machines in `Session.dfy` and `GatewayClient.dfy` take a rewrite as one step; `SessionFiles.SessionFile.Write` says what may be found inside it.
- The checks the Gateway makes before an approval (consent, rooms, expiry): its answer is any that is true of the row and of how far it got.
- The read of a suggestion when it is to be posted, and its answer, are one step.
- Intervals of 2^63 seconds and more, which the code turns into negative numbers.
- Sweep and loop read the clock and their posts in one step, where the code reads the clock a request's time earlier.
- UTF-8 decoding of section names beyond the byte-order mark: the names dropped are ASCII, and nothing else decodes to them.
- Approvals.EveryCallIsJustified: the post stood when the loop read it, not necessarily at the call, since the sweep or a moderator may have taken it down since.
- How the bus's copy of a reply gets its text: a reply is its suggestion's id there, and the text is that of the call.
- When ticks and passes come: the protocol takes steps in any order, and the theorems about time suppose spacings of a run.
