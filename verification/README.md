# Maven kernels, verified

This project models the parts of Maven that are small state machines and algorithms, and proves what they
guarantee over every run or every input. Time is a parameter (`now`), and models, runtimes, the network and
the disk are inputs of the steps: whether a save succeeds, what an API call answers, when a context is
cancelled.

`dafny verify dfyconfig.toml` checks all of it.

| component | files |
|---|---|
| cron scheduler | `CronSchedules`, `CronService` (the job table under its mutex), `CronProtocol` (locked sections, lane, turns, crashes and restarts interleaved), `CronTimes` (when jobs run), `CronIntervals` (jobs whose interval the store lost) |
| runtime hot reload | `RuntimeReload` (turns, reloads and shutdowns interleaved), `GatewayApply` (`Apply` and `Shutdown` as one caller sees them) |
| message bus | `MessageBus` |
| turn loop | `Converse` |
| caches | `ResponseSessions`, `WebhookCaches` |
| sessions | `SessionIds`, `SessionRouter` |
| byte chunking | `Utf8Chunks` |
| Telegram HTML | `HtmlTokens`, `HtmlEscaping`, `InlineMarkdown`, `TelegramHtml` |
| Telegram stream | `StreamThrottle` |
| slash commands | `Slash` |
| voice | `Vad`, `SentenceStream`, `WakeGate` |
| WeCom envelope | `WeComFraming` |
| shared | `Wrappers`, `Text`, `Counting` |

An object whose methods update its fields is a class; its methods are proved against functions of the old
state, and what those functions promise is proved as lemmas about every run. Code that runs concurrently is a
system of atomic steps (`Enabled`, `Apply`, `Run`), and the theorems quantify over all interleavings of any
number of goroutines.

Results where the code promises less than its documentation or a first reading suggests:

- Saving an "every" schedule keeps its meaning unless the interval is positive and below one millisecond
  (`CronSchedules.ReloadKeepsMeaning`). Then the reloaded job is planned no more, but the next run stored with it
  stays due: it can fire again iff that next run is positive, fires at most once more plus once for every failed
  pre-fire save, and never after that (`CronIntervals.FiresAgainIffPlanned`, `CronIntervals.SpentFiresOnceMore`,
  `CronIntervals.UnplannedNeverFires`).
- A one-shot cron job starts at most one turn more than its pre-fire saves failed, and for every n some run with n
  failures starts n + 1 (`CronProtocol.RunsFireOneShotOnce`, `CronProtocol.LostSavesFireAgain`).
- Switching a cron job on while it is in flight lets it fire a second time at once
  (`CronProtocol.EnableInFlightFiresTwice`).
- A rotated session id that is rotated again parses back only if the first was long enough to be hashed
  (`SessionIds.ChainedRotationReads`).
- `matchWake` reports whether the utterance begins with the phrase token by token, before tokens that normalize to
  nothing are dropped: "o - k" does not match "o k", although it normalizes to it (`WakeGate.WakesIff`,
  `WakeGate.LoneDashPreventsWaking`).
- `ChunkBytes` splits no rune exactly when every rune fits in a chunk (`Utf8Chunks.ChunksSplitNoRune`).
- A WeCom message of 2^32 bytes or more comes back cut (`WeComFraming.OpensWhatWasSealed`).
- `TruncateBytes` and `RuneAlignedCut` agree on valid UTF-8 exactly when the first rune fits the limit
  (`Utf8Chunks.TruncationIsTheCut`).
- VAD pushes that complete n frames never hide an edge exactly when n is at most the window, the shorter of the two
  holds, for all settings whose score can tell three frames apart (`Vad.WindowIsExact`).

## Model

| member | source | states |
|---|---|---|
| CronSchedules.ReloadKeepsMeaning | internal/plugins/trigger/cron/schedule.go:84-120 | encoding and decoding keep the next-run function of a schedule iff it is not a positive sub-millisecond interval |
| CronSchedules.ReloadedLive | internal/plugins/trigger/cron/schedule.go:40-63 | a schedule that always has a next run after a reload always had one before it |
| CronService.Service.SaveAtomic | internal/plugins/trigger/cron/service.go:421-452 | the store becomes the whole encoded table or stays as it was |
| CronService.Service.FindJobIndex | internal/plugins/trigger/cron/service.go:72-79 | the first index holding the id, or -1 when none does |
| CronService.Service.EnsureNextRun | internal/plugins/trigger/cron/service.go:81-98 | exactly the enabled jobs without a next run get one, an expired one-shot stays without |
| CronService.Service.NextDelay | internal/plugins/trigger/cron/service.go:111-134 | the sleep never passes the earliest pending run |
| CronService.Service.CheckAndFire | internal/plugins/trigger/cron/service.go:183-210 | every enabled record whose next run has come is handed out once, in table order, a one-shot switched off first; those records lose their next run, all others stay, and this table is what is saved |
| CronService.Service.WriteBack | internal/plugins/trigger/cron/service.go:238-266 | only the fired job's record changes, by its outcome, and a job removed meanwhile is not brought back |
| CronService.Service.Reject | internal/plugins/trigger/cron/service.go:272-286 | an invalid payload is recorded as an error and the job rescheduled, without a turn |
| CronService.Service.AddJob | internal/plugins/trigger/cron/service.go:313-339 | a schedule that validates and has a next run is appended with it, any other is refused with its own error; a failed save is an error but the table keeps the job |
| CronService.Service.RemoveJob | internal/plugins/trigger/cron/service.go:341-360 | exactly the first job with the id is removed |
| CronService.Service.EnableJob | internal/plugins/trigger/cron/service.go:370-408 | exactly the found job is switched and returned; switching on plans its next run |
| CronService.Service.Start | internal/plugins/trigger/cron/service.go:288-303 | the table is the store's, or stays as it was when the store cannot be read, with next runs ensured |
| CronService.BatchIsOnTime | internal/plugins/trigger/cron/service.go:172-197 | the same of the batch as a function of any table and any time |
| CronService.ValidatesMeans | internal/plugins/trigger/cron/schedule.go:26-70 | refused are a blank or invalid expression, an interval that is not positive, and the zero time |
| CronProtocol.InvStep | internal/plugins/trigger/cron/service.go:183-286 | every step keeps records well formed, ids distinct, lane slots accounted for and no live job stalled |
| CronProtocol.NotStalledStep | internal/plugins/trigger/cron/service.go:81-98 | each step leaves every live enabled recurring job planned or in flight |
| CronProtocol.LaneStep | internal/kernel/scheduling/admission.go:14-31 | slots taken equal the goroutines holding one, over every step |
| CronProtocol.RunsNeverStall | internal/plugins/trigger/cron/service.go:183-286 | over every run no live job is silently stalled, at most maxConcurrent turns run, every slot taken is given back |
| CronProtocol.ExclusiveStep | internal/plugins/trigger/cron/service.go:183-270 | each step other than switching on in flight keeps one firing per id and its next run at zero |
| CronProtocol.RunsFireExclusively | internal/plugins/trigger/cron/service.go:183-270 | over every such run a job has at most one firing between its due copy and its write-back, and no next run meanwhile |
| CronProtocol.OneShotStep | internal/plugins/trigger/cron/service.go:183-210 | turns had, turns owed and armed records of a one-shot job never add up to more than allowed, in memory and on disk |
| CronProtocol.RunsFireOneShotOnce | internal/plugins/trigger/cron/service.go:183-210 | over every run with crashes and reloads a one-shot job starts at most one turn plus one per failed pre-fire save |
| CronProtocol.NoArmingStep | internal/plugins/trigger/cron/service.go:249-303 | no load, write-back or validation failure sets a disabled one-shot going again |
| CronProtocol.EnableInFlightFiresTwice | internal/plugins/trigger/cron/service.go:370-408 | from any state with the job in flight, switching it on and one due check give two firings at once |
| CronProtocol.LostSavesFireAgain | internal/plugins/trigger/cron/service.go:198-200 | for every n some run with n failed pre-fire saves, each followed by a crash, starts n + 1 turns of a one-shot job |
| CronTimes.RunsFireOnTime | internal/plugins/trigger/cron/service.go:172-210 | over every run, each firing comes from a due check that found its record enabled with a next run not later than the check |
| CronTimes.DueTakesOff | internal/plugins/trigger/cron/service.go:183-210 | a due check launches a goroutine for every enabled record whose next run has come |
| CronTimes.NeverEarly | internal/plugins/trigger/cron/service.go:81-303 | over every run with clocks that do not go back, a one-shot never runs before its own time and a recurring job not before one interval has passed since it was planned |
| CronTimes.DueJobCanRun | internal/plugins/trigger/cron/service.go:183-270 | while the lane has a free slot a recurring job that is due can go from the check through its turn to the write-back, which is saved |
| CronTimes.WriteBackMeans | internal/plugins/trigger/cron/service.go:238-262 | the first record with the id notes end and outcome; a one-shot is switched off, a recurring job planned one interval on, a job to be deleted goes |
| CronTimes.RejectMeans | internal/plugins/trigger/cron/service.go:272-286 | an invalid payload leaves its error and a plan from now |
| CronTimes.EnableMeans | internal/plugins/trigger/cron/service.go:370-408 | switching off drops the next run, switching on plans one unless there is one |
| CronTimes.EnsureMeans | internal/plugins/trigger/cron/service.go:81-98 | exactly the enabled records without a next run are planned, from the last run or from now |
| CronTimes.NewJobMeans | internal/plugins/trigger/cron/service.go:313-339 | a new job is enabled, has never run and is planned from now |
| CronTimes.AcknowledgedLasts | internal/plugins/trigger/cron/service.go:288-452 | what a step changed and saved is there again after a crash and a start that can read the store, record by record |
| CronTimes.UnsavedIsLost | internal/plugins/trigger/cron/service.go:421-452 | without a save that goes through the store stays what it was |
| CronIntervals.SpentIffBelowMillisecond | internal/plugins/trigger/cron/schedule.go:84-120 | a positive interval comes back from the store as not positive iff it is below one millisecond, its stored next run untouched |
| CronIntervals.ReloadedStillDue | internal/plugins/trigger/cron/service.go:81-98 | such a job, added and reloaded, is still due at the time it was added |
| CronIntervals.SpentStep | internal/plugins/trigger/cron/service.go:183-286 | no step plans a record without a positive interval, and firing it uses up its next run in memory, and on disk unless the save failed |
| CronIntervals.SpentFiresOnceMore | internal/plugins/trigger/cron/service.go:183-303 | over every run such a job fires at most once more, plus once per failed pre-fire save |
| CronIntervals.UnplannedNeverFires | internal/plugins/trigger/cron/service.go:183-303 | without a stored next run it never fires, over every run |
| CronIntervals.PlannedCanFire | internal/plugins/trigger/cron/service.go:183-303 | with a stored next run some run fires it |
| CronIntervals.FiresAgainIffPlanned | internal/plugins/trigger/cron/service.go:183-303 | after a restart it can fire again iff its stored next run is positive |
| RuntimeReload.NoCallOnClosedRuntime | internal/kernel/pipeline/pipeline.go:82-146 | in every interleaving a turn under the read lock calls the installed runtime, which is not closed |
| RuntimeReload.EveryRuntimeHasOneOwner | internal/gateway/apply.go:88-129 | every runtime built is installed, held by exactly one Apply or Shutdown, or closed exactly once |
| RuntimeReload.SwapIsExclusive | internal/kernel/pipeline/pipeline.go:120-146 | the installed runtime changes only while no turn is between lock and unlock |
| RuntimeReload.RuntimeStaysUntilShutdown | internal/kernel/pipeline/pipeline.go:120-146 | once installed there is a runtime until a shutdown begins |
| RuntimeReload.HandOver | internal/gateway/lifecycle.go:73-93 | each step moves a runtime between its places without losing or doubling it |
| RuntimeReload.RunsKeep | internal/kernel/pipeline/pipeline.go:333-396 | locks and ownership stay consistent over every run |
| RuntimeReload.SwapInstalls | internal/kernel/pipeline/pipeline.go:120-146 | a swap installs the runtime its Apply built and hands out the old one; a Shutdown leaves none |
| RuntimeReload.TurnCanCall | internal/kernel/pipeline/pipeline.go:82-119 | with no lock taken a new turn gets to its call, on the installed runtime |
| RuntimeReload.ReloadCanInstall | internal/gateway/apply.go:88-129 | with no lock taken an Apply can run through: its runtime installed, the replaced one closed once |
| RuntimeReload.FailedReloadCanClose | internal/gateway/apply.go:118-125 | an Apply whose channels fail can run through: its runtime closed once, nothing else changed |
| RuntimeReload.ShutdownCanClose | internal/gateway/lifecycle.go:73-93 | with no lock taken a Shutdown can run through: no runtime left, the installed one closed once |
| GatewayApply.Pipeline.Reload | internal/kernel/pipeline/pipeline.go:120-136 | a channel failure changes nothing; success installs the new runtime and closes the old one once |
| GatewayApply.Pipeline.TakeRuntimeForShutdown | internal/kernel/pipeline/pipeline.go:140-146 | hands the runtime out and leaves none behind |
| GatewayApply.Gateway.Apply | internal/gateway/apply.go:88-129 | on every path a built runtime is installed and open or closed once, the old one is closed only when replaced, triggers run only after full success; the outcome is the first step that fails |
| GatewayApply.Gateway.Shutdown | internal/gateway/lifecycle.go:73-93 | the runtime is taken and closed once; again is harmless |
| GatewayApply.Lifetime | internal/gateway/apply.go:88-129 | any Apply calls and a Shutdown close every runtime built, each exactly once |
| MessageBus.BusIsSafe | internal/kernel/bus/bus.go:119-140 | over any publishers, receivers and closers no send on or second close of a closed queue; received then buffered equals accepted, within capacity |
| MessageBus.LatePublishIsRefused | internal/kernel/bus/bus.go:190-201 | after Close has returned, a publish that starts gets ErrBusClosed when its message is well formed and the validation error when not, and nothing is in flight |
| MessageBus.PublishIsExact | internal/kernel/bus/bus.go:119-140 | a publish that reports success has had its own message accepted exactly once, by its own queue; one that reports an error never |
| MessageBus.ErrorsHaveCauses | internal/kernel/bus/bus.go:100-140 | ErrBusClosed is answered only once done is closed, the context error only once the context has ended, the validation error iff the channel is blank |
| MessageBus.PublishCanSucceed | internal/kernel/bus/bus.go:119-140 | while the bus is open and the queue has room a new publish can succeed and leaves its message last |
| MessageBus.AcceptedCanBeReceived | internal/kernel/bus/bus.go:92-98 | closed or not, the receivers can take everything that was accepted, in order |
| MessageBus.LeftDecreases | internal/kernel/bus/bus.go:190-201 | once done is closed, the work left never grows and every driving step shrinks it |
| MessageBus.CloseCanMove | internal/kernel/bus/bus.go:190-201 | a running Close always has a step that brings it closer to its end |
| MessageBus.CloseFinishes | internal/kernel/bus/bus.go:190-201 | from any state with done closed, Close finishes within the work left |
| MessageBus.InvStep | internal/kernel/bus/bus.go:119-201 | every step keeps the queue, counter and close invariants |
| Converse.Tee | internal/kernel/converse/tee.go:6-43 | outputs are prefixes of the input, lengths non-increasing and at most one apart, whole unless cancelled |
| Converse.InvStep | internal/kernel/converse/converse.go:10-76 | every step keeps the turn, call and fan-in invariants |
| Converse.TurnsAreSerialised | internal/kernel/converse/converse.go:31-48 | when the agent is called every earlier render has returned, every earlier turn is cancelled, and the call is for the utterance just consumed |
| Converse.AliveRendersAreLatest | internal/kernel/converse/converse.go:13-24 | a live render belongs to the latest turn, which barge-in has cancelled once the next event is taken |
| Converse.CallsAreTheUtterances | internal/kernel/converse/converse.go:25-50 | the calls are the consumed utterances, each once, in order |
| Converse.ReturnsWithNoRender | internal/kernel/converse/converse.go:24-34 | the loop returns only with no render alive and every turn cancelled |
| Converse.EventsMergeTheSources | internal/kernel/converse/converse.go:55-76 | the events of each source arrive in order as a prefix of what it yields, within capacity |
| Converse.CleanReturnConsumesAll | internal/kernel/converse/converse.go:30-34 | a return without cancellation has consumed every event of every source |
| Converse.EveryCallIsRendered | internal/kernel/converse/converse.go:39-50 | between turns every sink has been given every reply, once and in order |
| Converse.ConversationCanEnd | internal/kernel/converse/converse.go:10-76 | from every reachable state nobody broke off, some run consumes every event and returns without an error |
| Converse.CancelCanEnd | internal/kernel/converse/converse.go:26-28 | from every state in which the loop selects or handles an event, cancelling the context can bring it to return that error, with no further event taken |
| Converse.SourcesCanQuit | internal/kernel/converse/converse.go:60-74 | once the context is done every forwarder can return, however full the channel is, and the channel is closed |
| ResponseSessions.Table.Lookup | internal/plugins/channel/web/wsession/responses.go:50-69 | the answer is what the history of touches remembers, and a hit is a touch |
| ResponseSessions.Table.Store | internal/plugins/channel/web/wsession/responses.go:35-48 | a store is a touch with the web session id of its peer; blank ids change nothing |
| ResponseSessions.StoredIsRemembered | internal/plugins/channel/web/wsession/responses.go:35-69 | for the time to live a store is answered with the peer itself when it starts with web-, else with web- and the peer |
| ResponseSessions.RememberedMeans | internal/plugins/channel/web/wsession/responses.go:50-94 | an id is answered by its last touch iff that is at most 30 minutes old and fewer than 500 other ids were touched since |
| ResponseSessions.Table.Prune | internal/plugins/channel/web/wsession/responses.go:71-77 | exactly the stale entries go, and the answers stay what the history says |
| ResponseSessions.Table.Evict | internal/plugins/channel/web/wsession/responses.go:79-94 | from a table one over, exactly the oldest entry goes; the size is at most 500 after |
| ResponseSessions.TouchEvicts | internal/plugins/channel/web/wsession/responses.go:79-94 | evicting the oldest of 501 forgets exactly the id after which 500 others were touched |
| ResponseSessions.YoungerAreHeld | internal/plugins/channel/web/wsession/responses.go:35-94 | whatever was touched after a fresh entry is still held, and younger |
| ResponseSessions.AnswersAsRemembered | internal/plugins/channel/web/wsession/responses.go:50-69 | the table answers as the history: last touch within the TTL and fewer than 500 distinct ids since |
| ResponseSessions.Replay | internal/plugins/channel/web/wsession/responses.go:26-94 | any calls at strictly increasing times are answered from the history of the calls before them, and no call leaves more than 500 entries |
| WebhookCaches.MsgIDCache.Seen | internal/kernel/channels/webhook/cache.go:32-48 | true iff the key was let through less than the TTL ago, as if nothing were collected |
| WebhookCaches.MsgIDCache.Gc | internal/kernel/channels/webhook/cache.go:50-59 | at most once a minute exactly the expired keys go; collection keeps the meaning, and every stored expiry is at least the last collection |
| WebhookCaches.AcceptedFarApart | internal/kernel/channels/webhook/cache.go:32-48 | the same key is never let through twice within the TTL |
| WebhookCaches.RefusalHasCause | internal/kernel/channels/webhook/cache.go:32-48 | every refusal has an acceptance of its key less than the TTL before it |
| WebhookCaches.ReplaySeen | internal/kernel/channels/webhook/cache.go:22-59 | any calls at non-decreasing times leave a log in which every answer follows the rule |
| WebhookCaches.ReplyURLCache.Set | internal/kernel/channels/webhook/cache.go:83-97 | the trimmed URL becomes the chat's last setting; blank input changes nothing |
| WebhookCaches.ReplyURLCache.Get | internal/kernel/channels/webhook/cache.go:99-117 | the last URL set iff it is no older than the TTL, as if nothing were collected |
| WebhookCaches.ExpectedMeans | internal/kernel/channels/webhook/cache.go:99-117 | the answer is the URL of the last Set for this chat while it is no older than the TTL, and none when there is no such Set |
| WebhookCaches.ReplyURLCache.Gc | internal/kernel/channels/webhook/cache.go:119-128 | at most once a minute exactly the expired chats go; collection keeps the meaning, and every stored expiry is at least the last collection |
| WebhookCaches.ReplayReplies | internal/kernel/channels/webhook/cache.go:73-128 | every Get of a run is answered from the Set calls before it alone |
| SessionIds.FormatIntParses | internal/kernel/sessionid/sessionid.go:108-151 | a 64-bit number printed in decimal parses back to itself |
| SessionIds.ChatIdMeans | internal/kernel/sessionid/sessionid.go:15-27 | the id is the trimmed peer when it starts with channel and dash or the channel is blank, else channel, dash and peer |
| SessionIds.ChatIdsDiffer | internal/kernel/sessionid/sessionid.go:15-27 | for one channel two peers that do not start with its prefix get the same id only if they are equal |
| SessionIds.ChatIdTwice | internal/kernel/sessionid/sessionid.go:15-27 | the id of a chat id is that chat id |
| SessionIds.RouteKeySplits | internal/kernel/sessionid/sessionid.go:29-36 | a key with a first colon inside is channel and peer around it |
| SessionIds.RouteKeyWhole | internal/kernel/sessionid/sessionid.go:29-36 | a key without one, or with it first or last, is its own session |
| SessionIds.NewMeans | internal/kernel/sessionid/sessionid.go:55-84 | owner and token of a new id of every kind; an owner of more than 80 bytes is hashed |
| SessionIds.ParseUndoesString | internal/kernel/sessionid/sessionid.go:86-151 | Parse undoes String iff the owner starts with no reserved prefix and holds no marker, overlaps at the join included |
| SessionIds.StringUndoesParse | internal/kernel/sessionid/sessionid.go:86-151 | what Parse accepts prints back as the trimmed text |
| SessionIds.PlainTextIsChat | internal/kernel/sessionid/sessionid.go:108-151 | a text that starts with no reserved prefix and holds no marker is a chat id |
| SessionIds.RotationsDiffer | internal/kernel/sessionid/sessionid.go:67-78 | rotating at two different times gives two different ids |
| SessionIds.KindsNeverCollide | internal/kernel/sessionid/sessionid.go:86-101 | readable ids of different kinds or owners never print alike |
| SessionIds.RotatedIdIsBounded | internal/kernel/sessionid/sessionid.go:55-84 | a rotated id has at most 80+9+20 bytes, whatever it is rotated from |
| SessionIds.ChainedRotationReads | internal/kernel/sessionid/sessionid.go:55-151 | a twice rotated id parses back iff the first rotated id was long enough to be hashed |
| SessionRouter.Router.Rotate | internal/kernel/session/router.go:63-81 | the key moves to a fresh rotated id and the old one is returned; a failed save is reported but memory keeps the rotation |
| SessionRouter.Router.Set | internal/kernel/session/router.go:83-97 | the key names the given session, or the one its route key names when blank |
| SessionRouter.RotateThenSetRestores | internal/kernel/session/router.go:45-97 | rotating to any new id and setting the old one back restores the current session of every key |
| SessionRouter.CompactionRotates | internal/kernel/session/router.go:63-97 | a rotation changes the current session of this key alone, and undoing it restores all keys |
| SessionRouter.Handler.ExtractPostAction | internal/kernel/agent/postaction/postaction.go:89-96 | the first action of the trail decides |
| SessionRouter.Handler.HandlePostResponse | internal/kernel/agent/postaction/postaction.go:59-87 | compaction rotates and seeds; when seeding fails every key keeps its current session iff the table could be persisted |
| Utf8Chunks.RuneAlignedCut | internal/kernel/stringutil/truncate.go:98-108 | the last rune start at or below the limit, the limit when there is none, the length when all fits |
| Utf8Chunks.CutIsLongestValidPrefix | internal/kernel/stringutil/truncate.go:96-108 | on valid UTF-8 whose first rune fits, the cut is the longest valid prefix within the limit, at most three bytes short of it |
| Utf8Chunks.ValidIsEncoded | internal/kernel/stringutil/truncate.go:96-108 | valid UTF-8 is the encoding of code points by the rules of RFC 3629, section 3 |
| Utf8Chunks.EncodedIsValid | internal/kernel/stringutil/truncate.go:96-108 | and every such encoding is valid |
| Utf8Chunks.ChunkBytes | internal/kernel/stringutil/truncate.go:74-94 | the loop yields the pieces that the newline-or-rune cuts define |
| Utf8Chunks.ChunksRejoin | internal/kernel/stringutil/truncate.go:74-94 | the chunks concatenate to the input, for any bytes and any limit |
| Utf8Chunks.ChunksInLimit | internal/kernel/stringutil/truncate.go:72-94 | no chunk is empty or over the limit |
| Utf8Chunks.ChunksCutWell | internal/kernel/stringutil/truncate.go:74-108 | each chunk but the last ends before the last newline of its window that is not its first byte, or else at its last rune start |
| Utf8Chunks.ChunksAreValid | internal/kernel/stringutil/truncate.go:72-94 | with a limit of at least four bytes every chunk of valid UTF-8 is valid UTF-8 |
| Utf8Chunks.ChunksSplitNoRune | internal/kernel/stringutil/truncate.go:72-94 | for any positive limit, all chunks of valid UTF-8 are valid iff the text fits whole or no rune is wider than the limit |
| Utf8Chunks.SmallLimitSplitsRune | internal/kernel/stringutil/truncate.go:98-108 | a two-byte rune is split when the limit is one byte |
| Utf8Chunks.ConsecutiveChunks | internal/kernel/stringutil/truncate.go:79-90 | two consecutive chunks other than the last total at least the limit minus two |
| Utf8Chunks.ChunkCount | internal/kernel/stringutil/truncate.go:74-94 | the number of chunks is linear in the length of the text |
| Utf8Chunks.TruncateBytes | internal/kernel/stringutil/truncate.go:17-36 | on any bytes, the most decoded runes whose encodings fit the limit |
| Utf8Chunks.BadByteIsReplaced | internal/kernel/stringutil/truncate.go:17-36 | behind valid text a byte that starts no rune decodes to one U+FFFD and decoding goes on behind it |
| Utf8Chunks.TruncationIsTheCut | internal/kernel/stringutil/truncate.go:17-36 | on valid UTF-8 that is the rune-aligned cut iff the first rune fits the limit |
| Utf8Chunks.SendChunks | internal/plugins/channel/telegram/stream.go:120-143 | the messages delivered and the error, for any pattern of refused sends |
| Utf8Chunks.Send | internal/plugins/channel/telegram/stream.go:102-143 | the bot, chat id and placeholder checks in order; a placeholder edit that succeeds is all that happens; otherwise the chunks are sent |
| Utf8Chunks.SendEmitsChunks | internal/plugins/channel/telegram/stream.go:120-143 | when no send fails Send delivers exactly the chunks of ChunkBytes, and nothing for empty content |
| Utf8Chunks.RefusedChunkFallsBack | internal/plugins/channel/telegram/stream.go:133-140 | a refused chunk is followed by the whole plain content once, and by nothing else |
| HtmlTokens.TagsAreTokens | internal/plugins/channel/telegram/utils.go:143-154 | in clean text a tag occurs exactly as often as it is a token, so counting tokens counts tags |
| HtmlTokens.CutAroundStar | internal/plugins/channel/telegram/utils.go:163-201 | clean text cut around a star is clean on both sides |
| HtmlEscaping.EscapeIsPerChar | internal/plugins/channel/telegram/utils.go:156-161 | the three replacements in a row escape character by character |
| HtmlEscaping.EscapeHTMLReadsBack | internal/plugins/channel/telegram/utils.go:156-161 | escaped text is clean, has no tags and reads back as the text |
| HtmlEscaping.EscapePreservingReadsBack | internal/plugins/channel/telegram/utils.go:229-236 | with blockquote tags kept the text is clean, has no other tags and reads back as the text |
| HtmlEscaping.BlockquotesStay | internal/plugins/channel/telegram/utils.go:229-236 | a blockquote tag stays as it is, and the texts on either side are escaped by themselves |
| InlineMarkdown.ConvertItalic | internal/plugins/channel/telegram/utils.go:181-201 | the loop ends and computes the italic pass |
| InlineMarkdown.ItalicTrades | internal/plugins/channel/telegram/utils.go:181-201 | the italic pass keeps clean text clean, deletes only stars and inserts only paired i tags |
| InlineMarkdown.ItalicReads | internal/plugins/channel/telegram/utils.go:181-201 | non-empty text without stars between two single stars comes out between i tags, what is before it stays, and what is behind it is converted by itself |
| InlineMarkdown.ItalicStops | internal/plugins/channel/telegram/utils.go:181-201 | the pass ends at a star without a partner and at a double star |
| InlineMarkdown.ConvertBoldItalic | internal/plugins/channel/telegram/utils.go:163-179 | the loop ends, by the number of stars, and computes both passes |
| InlineMarkdown.BoldItalicTrades | internal/plugins/channel/telegram/utils.go:163-201 | both passes trade two stars for a pair of i tags and four for a pair of b tags, and change nothing else |
| InlineMarkdown.BoldReads | internal/plugins/channel/telegram/utils.go:163-179 | what lies between the first two double stars comes out between b tags with its italics converted, and the passes go on with that |
| InlineMarkdown.BoldStops | internal/plugins/channel/telegram/utils.go:163-179 | without two double stars only the italic pass is left |
| InlineMarkdown.InlineKeepsText | internal/plugins/channel/telegram/utils.go:138-141 | for any text: clean output, paired tags, every star kept or traded, all other characters still there in order |
| TelegramHtml.FindBlock | internal/plugins/channel/telegram/utils.go:97-131 | the next fence, else the next backtick block, or where an unclosed one begins |
| TelegramHtml.FenceComesFirst | internal/plugins/channel/telegram/utils.go:97-116 | a text with two fences begins with what is before the first as plain text and the code between them in a pre tag, whatever backticks come before |
| TelegramHtml.FenceLeftOpen | internal/plugins/channel/telegram/utils.go:97-106 | from a fence that is never closed on everything is plain, backticks included |
| TelegramHtml.TicksWithoutFence | internal/plugins/channel/telegram/utils.go:117-131 | without any fence the code between the first two backticks is a code tag |
| TelegramHtml.TickLeftOpen | internal/plugins/channel/telegram/utils.go:117-131 | from a lone backtick on everything is plain |
| TelegramHtml.NoMarksAllPlain | internal/plugins/channel/telegram/utils.go:94-136 | without a backtick the text is one plain segment |
| TelegramHtml.KindIsByFence | internal/plugins/channel/telegram/utils.go:94-136 | a code segment anywhere in a text is a pre block when what is left of the text from it on holds a fence, and a code span only when it holds none |
| TelegramHtml.FenceBodyMeans | internal/plugins/channel/telegram/utils.go:108-115 | the code of a fence loses its first line exactly when that is one word and a newline follows |
| TelegramHtml.RenderFence | internal/plugins/channel/telegram/utils.go:108-115 | the escaped code without its language line |
| TelegramHtml.StripCodeBlocks | internal/plugins/channel/telegram/utils.go:94-136 | the loop ends and yields the segments |
| TelegramHtml.SegmentsCoverText | internal/plugins/channel/telegram/utils.go:94-136 | the sources of the segments concatenate to the text; code holds no closing mark and is shown escaped |
| TelegramHtml.ConvertThinkTags | internal/plugins/channel/telegram/utils.go:203-227 | the loop ends and rewrites the complete think blocks |
| TelegramHtml.ThinksRewraps | internal/plugins/channel/telegram/utils.go:203-227 | the conversion changes the marks around each thought, closed by the first closing tag, and nothing else |
| TelegramHtml.ToTelegramHTML | internal/plugins/channel/telegram/utils.go:143-154 | the output is the conversion of each segment in order |
| TelegramHtml.OutputShowsAll | internal/plugins/channel/telegram/utils.go:94-236 | the output displays, segment by segment and in order, the code as it is and the text as the conversion reads |
| TelegramHtml.OutputIsWellFormed | internal/plugins/channel/telegram/utils.go:94-236 | for every text each < starts one of the converter's tags, each & one of its entities, and b, i, pre, code open as often as they close |
| StreamThrottle.StreamState.UpsertMessage | internal/plugins/channel/telegram/stream_state.go:93-121 | creates once, edits after, marks dirty in cooldown or on refusal |
| StreamThrottle.StreamState.FlushContent | internal/plugins/channel/telegram/stream_state.go:141-178 | a draft or an upsert of the rendered text when dirty, due or forced, and not cooling down |
| StreamThrottle.StreamState.TryUpdateStatus | internal/plugins/channel/telegram/stream_state.go:180-193 | updates the status card or leaves it dirty |
| StreamThrottle.StreamState.TickFlush | internal/plugins/channel/telegram/stream_state.go:195-206 | status, content and heartbeat of one tick, none in cooldown |
| StreamThrottle.StreamState.HandleEvent | internal/plugins/channel/telegram/stream_state.go:208-285 | what each event does to text, tool block, error and the two messages |
| StreamThrottle.StreamState.FinalizeSend | internal/plugins/channel/telegram/stream_state.go:287-323 | waits, sends, retries once after a delay, deletes after success |
| StreamThrottle.FlushShows | internal/plugins/channel/telegram/stream_state.go:141-178 | dirty content that is due or forced, outside a cooldown, is brought to the rendered text by exactly one draft, placeholder or edit; otherwise nothing is called, and it turns clean only when there is nothing to show |
| StreamThrottle.StatusShows | internal/plugins/channel/telegram/stream_state.go:180-193 | a status change is shown at once outside a cooldown after half a second, else left for a tick |
| StreamThrottle.StatusTickShows | internal/plugins/channel/telegram/stream_state.go:195-201 | a tick updates a dirty card after half a second |
| StreamThrottle.HeartbeatShows | internal/plugins/channel/telegram/stream_state.go:203-205 | a tick repeats a clean card after five seconds |
| StreamThrottle.TickShowsContent | internal/plugins/channel/telegram/stream_state.go:195-206 | a tick outside a cooldown updates dirty content that is due, unless the status update before it was refused with a delay |
| StreamThrottle.TickBeats | internal/plugins/channel/telegram/stream_state.go:195-206 | a tick outside a cooldown edits a clean card of five seconds, unless the content update before it was refused with a delay |
| StreamThrottle.EventShows | internal/plugins/channel/telegram/stream_state.go:208-285 | iteration starts, tool steps and errors are told on the card by the half-second rule, and no other event touches it |
| StreamThrottle.DeltaShows | internal/plugins/channel/telegram/stream_state.go:208-285 | a delta to show is added; a draft is brought to the new text at once by the 0.4-second rule |
| StreamThrottle.RunsShowWhenClean | internal/plugins/channel/telegram/stream_state.go:59-285 | over every run, content that is not dirty and has something to show is what the last accepted content call says |
| StreamThrottle.DirtyCardIsShown | internal/plugins/channel/telegram/stream_state.go:180-206 | a dirty card turns clean only by an accepted call that shows it as it is now |
| StreamThrottle.RunsCoolAsAsked | internal/plugins/channel/telegram/stream_state.go:59-73 | over every run the end of the cooldown is one that some refused call asked for |
| StreamThrottle.WholeIsSentOnce | internal/plugins/channel/telegram/stream.go:159-171 | with streaming off all of the text goes out in one final send, or nothing when there is none |
| StreamThrottle.SendStream | internal/plugins/channel/telegram/stream.go:151-191 | the state and the result of a whole reply, streamed or sent at once |
| StreamThrottle.RunsKeepInv | internal/plugins/channel/telegram/stream_state.go:59-285 | the limits hold after every event and tick sequence and any API answers |
| StreamThrottle.WholeStreamKeepsItsLimits | internal/plugins/channel/telegram/stream_state.go:59-323 | no message is sent, edited or drafted in a cooldown; successful status updates are 500 ms apart, unforced content updates their gap; each transient message is created at most once |
| StreamThrottle.CooldownNeverDecreases | internal/plugins/channel/telegram/stream_state.go:59-69 | no event or tick moves the end of the cooldown back |
| StreamThrottle.EndingShape | internal/plugins/channel/telegram/stream_state.go:287-323 | at most two sends of the final text, none only when the wait was cut short, a second one exactly when the first was refused with a delay and that wait was not cut; then one delete per created message iff a send went through |
| StreamThrottle.DeletedOnlyAfterFinalSend | internal/plugins/channel/telegram/stream_state.go:311-321 | a delete is preceded by an accepted final send and addresses the message that was created |
| StreamThrottle.TextIsTheDeltas | internal/plugins/channel/telegram/stream_state.go:208-285 | throttling and refusals never touch the text: it is the deltas since the last iteration start |
| StreamThrottle.FinalTextIsTheDeltas | internal/plugins/channel/telegram/stream_state.go:287-296 | the final text is those deltas, else the failure, else the notice |
| StreamThrottle.StreamingKeepsTheEnd | internal/plugins/channel/telegram/stream.go:159-171 | the streamed final text is the end of the text sent with streaming off, and all of it when no iteration starts anew |
| Slash.Lex | internal/kernel/slash/parse.go:90-130 | the loop computes the token run of the line |
| Slash.LexYieldsNoEmptyToken | internal/kernel/slash/parse.go:90-130 | no token is empty, for any line |
| Slash.ParseLine | internal/kernel/slash/parse.go:39-80 | name, arguments and flags of a line, or its error |
| Slash.Parse | internal/kernel/slash/parse.go:17-37 | the invocations of all command lines, or the first error with its line |
| Slash.ParsedLinesSensible | internal/kernel/slash/parse.go:17-80 | one invocation per command line, in order, with a valid name, no empty argument, flag key or flag value |
| Slash.NoCommandIff | internal/kernel/slash/parse.go:32-35 | ErrNoCommand iff no trimmed line begins with a slash |
| Slash.DistinctFlagsKept | internal/kernel/slash/parse.go:55-72 | a flag whose key is not given again keeps its value |
| Slash.LineParses | internal/kernel/slash/parse.go:39-130 | a line written with quotes and escapes parses to its command, any interleaving of arguments and flags |
| Slash.WrittenParses | internal/kernel/slash/parse.go:17-130 | any list of commands written with quotes, flags with their value, flags with a separate value and bare flags parses back to the same names, arguments and flags in order |
| Slash.SpelledLexes | internal/kernel/slash/parse.go:90-130 | words of plain, escaped and quoted pieces, with white space between them, lex to the texts they spell |
| Slash.CutShortIsRefused | internal/kernel/slash/parse.go:90-130 | the same words cut short inside a quote or behind a backslash are refused |
| Slash.SpelledLineParses | internal/kernel/slash/parse.go:39-130 | a command spelled in any such way parses to that command |
| Slash.BlankFlagIsRefused | internal/kernel/slash/parse.go:55-72 | a flag without a key is refused, whatever came before it |
| Slash.AcceptedMeans | internal/kernel/slash/parse.go:17-37 | what is accepted is every command line parsed by itself, in order |
| Slash.FirstErrorIsReported | internal/kernel/slash/parse.go:17-37 | what is refused is refused for the first command line that does not parse |
| Slash.NameCaseIgnored | internal/kernel/slash/parse.go:39-54 | lines that differ only in the case of the command name stand for one command, named in lower case, or are both refused |
| Slash.FlagMeans | internal/kernel/slash/parse.go:57-88 | a flag's key is trimmed and lowered, its value is behind the first equals sign or the next token without a dash, and an empty or missing value is true |
| Slash.ValidNameMeans | internal/kernel/slash/parse.go:132-142 | a name is a non-empty text of a to z, 0 to 9, dash and underscore |
| Vad.VAD.Push | internal/kernel/voice/vad.go:67-79 | whole frames are processed in order, the first edge among them is reported, the rest stays buffered |
| Vad.VAD.ProcessFrame | internal/kernel/voice/vad.go:81-126 | one frame's smoothing, phase, counts and edge |
| Vad.FeedInParts | internal/kernel/voice/vad.go:67-79 | feeding two chunks is feeding their concatenation |
| Vad.FeedSizes | internal/kernel/voice/vad.go:67-79 | every whole frame is processed and less than a frame is left |
| Vad.PushAll | internal/kernel/voice/vad.go:67-79 | after any pushes the detector is where the concatenated bytes put it |
| Vad.FrameStep | internal/kernel/voice/vad.go:81-126 | a frame brings the next edge closer by at most one or is that edge, out of the right phase |
| Vad.EdgesAlternate | internal/kernel/voice/vad.go:81-126 | neighbouring edges differ in kind and are their hold, and at least two frames, apart |
| Vad.EdgesFarApart | internal/kernel/voice/vad.go:81-126 | any two edges are a window apart |
| Vad.ShortPushDropsNoEdge | internal/kernel/voice/vad.go:67-79 | from any reachable state a push that completes at most a window of frames reports every edge |
| Vad.FeedKeepsCounted | internal/kernel/voice/vad.go:81-126 | a pending start or stop has counted at least one frame, over every run of frames |
| Vad.StartIff | internal/kernel/voice/vad.go:81-126 | out of silence speech starts at exactly the frame at which the frames up to it have been speech for long enough to hold the energetic ones the start hold asks for |
| Vad.StopIff | internal/kernel/voice/vad.go:81-126 | in speech a frame is a stop edge iff the last frames, as many as the stop hold and at least two, were silent |
| Vad.HoldInFrames | internal/kernel/voice/vad.go:181-195 | a hold in frames is the nearest number of frames, and at least one |
| Vad.DefaultsMean | internal/kernel/voice/vad.go:128-195 | left unset: 640-byte frames, a start hold of 6 and a stop hold of 13 frames, threshold 0.01, smoothing 0.2 |
| Vad.StartThenStop | internal/kernel/voice/vad.go:81-126 | a start edge can be followed by a stop edge as soon as the stop hold allows |
| Vad.StopThenStart | internal/kernel/voice/vad.go:81-126 | a stop edge can be followed by a start edge as soon as the start hold allows |
| Vad.SeparationIsPossible | internal/kernel/voice/vad.go:81-126 | a score of silence, of the threshold, and of the threshold over the smoothing separate for any positive threshold and smoothing up to one |
| Vad.LongPushDropsAnEdge | internal/kernel/voice/vad.go:67-79 | for all settings whose score separates three frames, some reachable state and push of a window and one frames have an edge on the first and on the last frame, and only the first is reported |
| Vad.WindowIsExact | internal/kernel/voice/vad.go:67-79 | pushes of n frames never hide an edge iff n is at most the window |
| SentenceStream.FindSentenceEndIndex | internal/kernel/voice/sentence.go:47-64 | just behind the first stop that white space or the end follows, or -1 |
| SentenceStream.TruncateToMaxRunes | internal/kernel/voice/sentence.go:66-82 | behind the first white space at or after the limit, or the whole text |
| SentenceStream.TakeCompleteSentences | internal/kernel/voice/sentence.go:14-38 | the loop yields the fragments and the remainder |
| SentenceStream.SentencesEndOnce | internal/kernel/voice/sentence.go:14-26 | each fragment taken for a sentence ends with a stop and has no stop before white space inside |
| SentenceStream.NoSentenceStays | internal/kernel/voice/sentence.go:14-38 | in what stays in the buffer no stop has white space or the end behind it |
| SentenceStream.RemainderMeans | internal/kernel/voice/sentence.go:27-35 | a remainder under 800 runes stays; a longer one gives up its front through the first white space from 800 on, and the blanks behind it |
| SentenceStream.TakenKeepsInk | internal/kernel/voice/sentence.go:14-38 | fragments and remainder share out the non-space text in order; the remainder holds no sentence end and an overlong buffer gives up 800 runes |
| SentenceStream.Sentencize | internal/kernel/voice/transforms.go:11-43 | the fragments sent are a prefix of all fragments, all of them unless cancelled |
| SentenceStream.AfterKeepsInk | internal/kernel/voice/transforms.go:11-43 | after any deltas nothing of the non-space text is lost, repeated or reordered, and the buffer holds no sentence end |
| SentenceStream.FragmentsKeepInk | internal/kernel/voice/transforms.go:19-29 | fragments and flush together are the input without white space, each trimmed and non-empty |
| SentenceStream.BufferStaysShort | internal/kernel/voice/sentence.go:27-35 | with deltas of at most 800 runes the buffer stays under 800 |
| SentenceStream.EmitAlignedPCM | internal/kernel/voice/transforms.go:94-125 | non-empty even chunks whose concatenation is the received input cut to even length, or less when a send is cancelled; a cancellation at a receive or a send, and nothing else, is reported as one |
| WakeGate.FieldsOfJoined | internal/kernel/voice/wake.go:146-155 | tokens joined by spaces are the fields of the result |
| WakeGate.NormalizeWake | internal/kernel/voice/wake.go:146-155 | the normalized non-empty tokens joined by spaces |
| WakeGate.FieldsSplit | internal/kernel/voice/wake.go:146-148 | white space of any kind separates tokens |
| WakeGate.NormalizeSpeaks | internal/kernel/voice/wake.go:144-165 | a normalized token is exactly its lowered letters and digits, in order and with multiplicity |
| WakeGate.MatchWake | internal/kernel/voice/wake.go:170-185 | whether the leading original tokens normalize to the phrase, and what follows them |
| WakeGate.WakesIff | internal/kernel/voice/wake.go:167-185 | matched iff the phrase leads the normalized utterance and none of the tokens it spans normalizes to nothing; the remainder is the original tokens behind it |
| WakeGate.WakesByLetters | internal/kernel/voice/wake.go:167-185 | an utterance wakes the gate iff, token by token, its leading tokens speak the letters and digits of the phrase |
| WakeGate.GateHasPhrase | internal/kernel/voice/wake.go:17-32 | there is a gate iff the phrase has something to say; its phrase is the normalized tokens and its window the configured one, or eight seconds |
| WakeGate.LoneDashPreventsWaking | internal/kernel/voice/wake.go:167-185 | "o - k" normalizes to the phrase "o k" and does not wake the gate |
| WakeGate.Gate.Step | internal/kernel/voice/wake.go:79-108 | the state and the forwarded event for each source event |
| WakeGate.InputMeans | internal/kernel/voice/wake.go:47-108 | what every input does to the gate, in its own terms: the timer, a reply, speech and utterances, awake and dormant |
| WakeGate.ActivationSaysTheRest | internal/kernel/voice/wake.go:92-104 | an activating utterance forwards what follows the phrase, or itself when nothing does |
| WakeGate.Listen | internal/kernel/voice/wake.go:42-77 | the events forwarded are the outputs of the run, a prefix of them if cancelled |
| WakeGate.RunsAreConsistent | internal/kernel/voice/wake.go:47-71 | the timer is armed iff active and not awaiting a reply, over every run |
| WakeGate.AwaitsItsReply | internal/kernel/voice/wake.go:57-98 | from a forwarded utterance to the next reply-done the gate stays awake |
| WakeGate.GoesDormantAfterSilence | internal/kernel/voice/wake.go:57-66 | dormancy comes only by the timer, a full window after a reply ended with no utterance since |
| WakeGate.ForwardsExactly | internal/kernel/voice/wake.go:79-108 | awake every event passes unchanged, dormant only a matching utterance does, and it wakes the gate |
| WakeGate.ActivationHasPrompt | internal/kernel/voice/wake.go:100-104 | an activating utterance always yields a non-blank command |
| WeComFraming.Unpad | internal/plugins/channel/wecom/wecom_crypto.go:125-139 | the loop accepts or rejects the padding as specified |
| WeComFraming.PadMeans | internal/plugins/channel/wecom/wecom_crypto.go:116-123 | padding appends between one and a block of bytes that all say how many they are, up to whole blocks |
| WeComFraming.UnpadIffPad | internal/plugins/channel/wecom/wecom_crypto.go:116-139 | unpadding gives x iff padding x gives the data, for block sizes up to 255 |
| WeComFraming.PadThenUnpad | internal/plugins/channel/wecom/wecom_crypto.go:116-139 | for any block size padding is undone iff it fits in a byte |
| WeComFraming.UnframedIff | internal/plugins/channel/wecom/wecom_crypto.go:39-48 | a frame is read as (message, id) iff it is their frame under some 16 random bytes |
| WeComFraming.FrameLayout | internal/plugins/channel/wecom/wecom_crypto.go:67-72 | a frame is 16 random bytes, four length bytes, the message and the id |
| WeComFraming.BigEndian | internal/plugins/channel/wecom/wecom_crypto.go:43-67 | the length is written with its most significant byte first |
| WeComFraming.LongMessageIsCut | internal/plugins/channel/wecom/wecom_crypto.go:66-67 | the frame reads back iff the message is shorter than 2^32 bytes |
| WeComFraming.Encrypt | internal/plugins/channel/wecom/wecom_crypto.go:56-83 | the sealed frame, or the error of the key or the random source |
| WeComFraming.Decrypt | internal/plugins/channel/wecom/wecom_crypto.go:16-54 | the opened message and id, or the first error met |
| WeComFraming.OpenedIff | internal/plugins/channel/wecom/wecom_crypto.go:16-54 | an envelope is accepted as (message, id) iff it encrypts their padded frame and the expected id is blank or this id |
| WeComFraming.OtherReceiverIsRefused | internal/plugins/channel/wecom/wecom_crypto.go:49-52 | an envelope for another id than the expected one is refused |
| WeComFraming.KeyMeans | internal/plugins/channel/wecom/wecom_crypto.go:97-114 | a key with its padding sign and the same key without it are one, and only 32 bytes are a key |
| WeComFraming.OpensWhatWasSealed | internal/plugins/channel/wecom/wecom_crypto.go:16-83 | decrypting what was encrypted returns the message and id iff the length fits the header and the id is accepted |

## Left out

- Network, HTTP, websocket, subprocess, audio and file plumbing, command line, configuration loading, plugin registries, prompts and memory files: input and output or thin wrappers.
- Cron expressions (a partial function from expression and time), JSON, UUID, SHA-256 (a function of fixed length), AES, base64 and Unicode case and letter tables: library code, taken as functions with what they promise.
- In the step systems (cron, reload, bus, turn loop) a locked section or a channel operation is one atomic step on values; the memory model below that and the Go scheduler are not modelled.
- CronProtocol.RunsNeverStall: says nothing about when the loop wakes up after a write-back, because the write-back does not notify it; a service that is stopped and a second service on the same store are not modelled.
- CronService.Service.SaveAtomic: the temporary file, its sync and the rename are one step that happens or does not; what a crash leaves of the temporary file is not modelled.
- CronService.Service.AddJob: job names and payload contents are left out, and an "at" time counts as the zero time by its milliseconds alone.
- CronService.Service.Start: the store is one the service wrote, or unreadable as a whole; a record whose schedule cannot be decoded would leave the records before it loaded, and one without a schedule.
- CronProtocol.RunsFireExclusively: the restart step loads the store under the same assumption.
- CronSchedules.ReloadKeepsMeaning: time zones and the sub-millisecond part of an "at" time are left out, because schedules only ever meet Unix milliseconds.
- RuntimeReload.NoCallOnClosedRuntime: does not cover a stream handed out by `RunStream`, whose lock is released when it returns, nor the nested read lock of the compaction flush.
- GatewayApply.Gateway.Apply: configuration, hooks, and the order of log-level, cron, prompt and skill loading within one outcome are not modelled.
- GatewayApply.Gateway.Shutdown: cancelling the run loop, stopping plugins and channels and closing the bus are not modelled here; the bus has its own component.
- MessageBus.BusIsSafe: the subscriber callbacks, delivery failures and stream delegation of `DispatchOutbound` are not modelled, only its receives.
- SessionRouter.Handler.HandlePostResponse: the pre-compaction flush and the text of the seed file are left out.
- SessionIds.ParseUndoesString: strings are runes; invalid UTF-8 is left out.
- StreamThrottle.StreamState.HandleEvent: the status card's own text and the collection of tool input for it are left out; the card arrives rendered with each input.
- Utf8Chunks.Send: the conversion to HTML is TelegramHtml's and arrives as bytes; how a chat id parses and what the API refuses are parameters.
- StreamThrottle.StreamState.FinalizeSend: the final send is one API call here; its chunking is in Utf8Chunks.
- StreamThrottle.WholeStreamKeepsItsLimits: message ids are non-zero, as the API numbers its messages from one.
- InlineMarkdown.BoldItalicTrades: tags are counted, not nested, because the converter can interleave b and i.
- TelegramHtml.OutputIsWellFormed: blockquote tags are not balanced in general, because text may bring its own.
- Slash.WrittenParses: command names are in lower case as written; case folding of other scripts is a parameter.
- Vad.VAD.Push: scores and smoothing are real numbers, not floating point, and the detector's own score (root mean square) is a parameter.
- Vad.WindowIsExact: asks for three frames the score separates; which scores 16-bit samples attain is left out.
- SentenceStream.TakeCompleteSentences: text is a sequence of runes; invalid UTF-8 is left out, and sentence splitting depends on how the text is chunked.
- WakeGate.Listen: a timer that went off before it was stopped leaves nothing behind, as the drain ensures; log messages are left out.
- Converse.TurnsAreSerialised: what a render does with its stream, and whether it returns after cancellation, is up to the sink.
- `Truncate`, `TruncateRunes`, `TruncateRunesTail`, `JobByID`, `ListJobs`, `Reset` and the remaining getters: they would only add easy members.
