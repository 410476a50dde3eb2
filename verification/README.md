# Wrongthink: a verified model of the chat server

Wrongthink is a gRPC chat server. Each channel lives in memory as a `SynchronizedChannel`, a log
guarded by a mutex with a condition variable on which listeners wait; a cache maps channel ids to
these objects; users, communities, channels, messages and bans live in PostgreSQL. This project
models three linked parts of the server and proves what they guarantee over every run.

1. **The channel monitor and the listener loop.** `ChannelMonitor` is a transition system with one
   step per lock, assignment, unlock, notify, wake-up and write, for any number of threads, with
   spurious wake-ups. `Deliveries` proves what a listener is still guaranteed although push and
   notify are separate steps, and exactly which listeners miss the last message. `LinearLog` proves
   that the monitor refines an atomic append-only log, and `Progress` that no thread can get stuck.
   `SynchronizedChannels` holds the class itself and its ordering by name.
2. **The channel cache and the send, get and listen paths.** `ServerSpec` gives the RPCs as
   functions of the cache and the tables and proves what a stream of sends leaves behind and what a
   reader gets back. `WrongthinkService` has the service as mutable classes, each method proved equal
   to its function.
3. **The tables.** `Tables` has the schema's constraints and one function per SQL statement,
   `Statements` says over the rows alone what each statement does, `Bans` and `BanRuns` have the
   lazily expired ban tables and whole histories of ban calls, `PostgresStore` the class
   `DBPostgres`. `Interleaving` runs any number of calls at once, one step per SQL statement or
   `channelMap` operation, and `InterleavingTheorems` states what survives. `BanReaders` cuts the
   ban readers into statements; `BanRaces`, `BanSafety` and `AddressRaces` say exactly when
   interleaved bans go wrong. `CallProgress` shows that every call ends, and `SoloRuns`
   that a call that runs alone does what its sequential function says.

`Domain` holds the shared values, and `Uuids` the dash-erasing loop of `GenerateUser`.

A run is a sequence of states joined by steps, so a lemma about `run[i]` speaks of every reachable
state.

## Modelling decisions

- A statement takes effect as a whole or fails and changes nothing but the serial counter, which
  PostgreSQL has already advanced; a failure is the exception the RPC turns into INTERNAL, except in the
  listener, which does not catch it.
- `banned_users.expire` and `banned_ips.expire` are `int` columns (`DB/DBPostgres.cpp:58`, `:63`)
  that the code reads into a `std::tm` (`:122`, `:139`). They are integer instants here, compared
  with the clock as the code compares them: a ban is past when now > expire.
- The delete at `DB/DBPostgres.cpp:129` filters on `uname`, which `banned_users` does not have
  (`:55-58`). The model deletes the rows of that user, as intended.
- `banUser` multiplies days by 24 * 60 * 60 * 1000 in an `int` and adds the result to a time in
  seconds. The model keeps that formula. Signed overflow is undefined in C++: `ChainIsDefined` says
  when no product overflows, and `BanSpan` models the usual two's-complement result otherwise. The
  SQL sum is checked by PostgreSQL, so a sum outside `int` makes the ban fail.
- `varchar(n)` rejects longer text unless the excess is spaces, which it trims. A create call whose
  name was trimmed selects by the full name, finds nothing and returns 0 - or, for a community, a
  variable that was never set (`DB/DBPostgres.cpp:200-207`).
- `channelMapMutex` is declared (`WrongthinkServiceImpl.h:165`) and never locked. Each single
  `std::map` operation is assumed to be atomic.
- In `Interleaving`, `appendMessage` is one step; `LinearLog` is the justification. A call may find
  the connection lost before any statement; that statement then has no effect.
- A clock reading, a random UUID, the caller's name and token, and what an unset `int` holds are
  inputs. Clock readings do not go back within a run of ban calls.
- A select of a user's expiry returns the first row. PostgreSQL may return any of them when
  interleaved bans have left two; `BanSafety` speaks only of bans on which all rows of the user
  agree, so its results do not depend on the choice.
- A null first indicator from `getChannelRow` means that there is no such channel.
- The tables may be read and changed by other calls between any two statements; only a single
  statement is atomic.

## Model

| member | source | states |
|---|---|---|
| ChannelMonitor.MutexStep | SynchronizedChannel.cpp:38-61 | every step keeps mutual exclusion: a thread is in a critical section if and only if it is the holder, also across the release and re-acquisition inside the wait |
| ChannelMonitor.LastStep | SynchronizedChannel.cpp:38-50 | lastMessage_ equals the last log entry in every state except between the push and the assignment of the thread holding the mutex, where it is one entry behind |
| ChannelMonitor.InvStep | SynchronizedChannel.cpp:38-61 | the invariant (mutex, last message, snapshots, and what each thread holds or has written) is inductive for any number of threads |
| ChannelMonitor.ReachableInv | SynchronizedChannel.cpp:38-61 | the invariant holds in every reachable state of every run |
| Deliveries.NextDeliveryIsAsNew | SynchronizedChannel.cpp:38-61 | for every append k, a listener blocked at k's notify next delivers an entry at index k or later, in whatever order the appends notify |
| Deliveries.EveryPushIsNotified | SynchronizedChannel.cpp:38-45 | every log entry has had its notify_all, or its sender is still between push and notify |
| Deliveries.NoLostFinalMessage | WrongthinkServiceImpl.cpp:287-290 | once the channel is quiet, the last entry has been announced and every listener blocked at that announcement has written it as its latest message |
| Deliveries.LastWordExactly | SynchronizedChannel.cpp:57-61 | after the last notify before a quiet state, a listener ends with the last entry if and only if at that notify it was blocked, had already written that entry, or held it or was bound to read it, or it was woken spuriously since |
| Deliveries.ListenerCanMissLastMessage | WrongthinkServiceImpl.cpp:287-290 | a run in which the second notify comes while the listener is still writing, and the second message is never delivered although the channel goes quiet |
| Deliveries.CausesAreCounted | SynchronizedChannel.cpp:57-61 | a listener never woken spuriously has written, and holds, only deliveries caused by a notify |
| Deliveries.OutputIsStutteringSubsequence | WrongthinkServiceImpl.cpp:288-290 | a non-decreasing index sequence into the log yields exactly what the listener wrote; the default message appears only through spurious wake-ups before the first append |
| Deliveries.DeliveryBound | SynchronizedChannel.cpp:38-61 | the exact balance of pushes, deliveries, missed notifies, spurious wakes and pending work; without spurious wakes deliveries never exceed notifies, which never exceed pushes |
| LinearLog.StepIsAtomic | SynchronizedChannel.cpp:38-61 | every monitor step is one step of the atomic log: a call starts, takes effect, returns its answer, or nothing visible happens |
| LinearLog.MonitorIsLinearizable | SynchronizedChannel.cpp:38-61 | every run refines the atomic append-only log with the same invocations and answers, each call taking effect once between them |
| LinearLog.FreeMutexAndSnapshots | SynchronizedChannel.cpp:47-55 | lastMessage_ is the last entry whenever the mutex is free; any two getMessages results are ordered by prefix and are prefixes of the log |
| Progress.NeverStuck | SynchronizedChannel.cpp:38-61 | in every reachable state and for every thread: the holder of the mutex can act; a queueing thread can take the mutex exactly when it is free; a notify or a write never waits; an idle thread can call anything |
| Progress.CallsQueue | SynchronizedChannel.cpp:38-61 | every call of every thread starts by queueing for the mutex and changes nothing else |
| Progress.FinishesAlone | SynchronizedChannel.cpp:38-61 | with the mutex free or its own, any thread alone reaches the end of its call, or the wait set, and leaves the mutex free |
| Progress.EveryCallCanFinish | SynchronizedChannel.cpp:38-61 | from every reachable state every thread can be brought there, after at most the holder of the mutex has finished |
| Progress.AppendCompletes | SynchronizedChannel.cpp:38-45 | a send by any idle thread with the mutex free returns with the log longer by its message, lastMessage_ updated, the mutex free and every waiting listener woken |
| Progress.LastMessageCompletes | SynchronizedChannel.cpp:47-50 | lastMessage by any idle thread returns the answer of the atomic log and leaves the state as it was |
| Progress.GetMessagesCompletes | SynchronizedChannel.cpp:52-55 | the same for getMessages |
| Progress.WokenListenerWrites | WrongthinkServiceImpl.cpp:288-290 | any woken listener with the mutex free writes the last entry of the log and goes back to waiting |
| Progress.ListenerBlocks | SynchronizedChannel.cpp:57-59 | any listener about to wait, with the mutex free, gets into the wait set |
| SynchronizedChannels.SynchronizedChannel.constructor | SynchronizedChannel.cpp:28-32 | a new channel has the given id and name, an empty log and the default last message |
| SynchronizedChannels.SynchronizedChannel.AppendMessage | SynchronizedChannel.cpp:38-45 | the log grows by exactly this message and lastMessage_ follows it |
| SynchronizedChannels.SynchronizedChannel.LastMessage | SynchronizedChannel.cpp:47-50 | the last log entry, or the message with all fields empty for an empty log |
| SynchronizedChannels.SynchronizedChannel.GetMessages | SynchronizedChannel.cpp:52-55 | the whole log, whose last entry is lastMessage_ |
| SynchronizedChannels.NameLessMeans | SynchronizedChannel.cpp:71-77 | a name is less exactly when it ends, or has the smaller character, at the first position where the two differ |
| SynchronizedChannels.NameLessTransitive | SynchronizedChannel.cpp:71-77 | comparison of names is transitive |
| SynchronizedChannels.NameLessTotal | SynchronizedChannel.cpp:71-77 | of any two names exactly one of less, equal, greater holds |
| SynchronizedChannels.ChannelOrder | SynchronizedChannel.cpp:63-77 | the channel operators form a strict total order consistent with operator== |
| Statements.VarcharStores | DB/DBPostgres.cpp:51-52 | a varchar column takes a text exactly when all past its width is spaces, and stores it up to the width |
| Statements.LookupsFind | DB/DBPostgres.cpp:49-89 | a lookup by id finds a row exactly when one of the table has the id, and it is such a row |
| Statements.NamesFind | DB/DBPostgres.cpp:49-78 | the same for lookups by name or address |
| Statements.InsertUserMeans | DB/DBPostgres.cpp:176-177 | accepted exactly when both texts fit and no row has the stored name; the row added with all its fields; nothing else changes but the serial counter |
| Statements.InsertCommunityMeans | DB/DBPostgres.cpp:202-203 | the same, with the foreign key on the admin |
| Statements.InsertChannelMeans | DB/DBPostgres.cpp:188-191 | the same, with the foreign keys on community and admin |
| Statements.InsertValuesMeans | WrongthinkServiceImpl.cpp:217-220 | a message is accepted exactly when its user and channel have rows and the clock is an int; the row added with all its fields |
| Statements.UpdateUserBanMeans | DB/DBPostgres.cpp:160-161 | every row of the user, and no other, gets the sum, unless the sum overflows |
| Statements.InsertUserBanMeans | DB/DBPostgres.cpp:163-164 | accepted exactly when the user has a row and the sum fits; the row added |
| Statements.InsertIpBanMeans | DB/DBPostgres.cpp:132-133 | accepted exactly when the address fits and its stored form has no row; the row added |
| Statements.DeletesMean | DB/DBPostgres.cpp:128-146 | the two deletes remove exactly the rows of the named user and of the address |
| Statements.ExpiriesMean | DB/DBPostgres.cpp:123-140 | the expiries selected are those of a ban row of the user with that name and of a row of the address |
| Tables.UserIsUnique | DB/DBPostgres.cpp:49-53 | a user row is the one found by its name and the one found by its id |
| Tables.LongNamesAreNotStored | DB/DBPostgres.cpp:51 | no row is ever found under a name longer than the column |
| Tables.LookupsSurvive | DB/DBPostgres.cpp:49-78 | user, community and channel rows found by id are found again, unchanged, after any later statement |
| Tables.InsertUserKeeps | DB/DBPostgres.cpp:176-177 | the insert, accepted or refused, keeps every unique, foreign-key and serial constraint of all six tables |
| Tables.InsertCommunityKeeps | DB/DBPostgres.cpp:202-203 | the same for communities |
| Tables.InsertChannelKeeps | DB/DBPostgres.cpp:188-191 | the same for channels |
| Tables.InsertMessageKeeps | WrongthinkServiceImpl.cpp:217-220 | the same for messages; old message rows keep their place |
| Bans.WrapMeans | DB/DBPostgres.cpp:154 | the 32-bit value congruent to a product, equal to it exactly when it fits |
| Bans.BanSpanIsExact | DB/DBPostgres.cpp:154 | the 32-bit chain is the wrapped product, equals the mathematical product, and is defined, exactly for days from -24 to 24 |
| Bans.StoredSumFits | DB/DBPostgres.cpp:160-164 | for non-negative clock and days the stored sum fits the column exactly when days is at most (2^31 - 1 - now) / 86400000 |
| Bans.LongBanCanWrap | DB/DBPostgres.cpp:154 | 50 days wrap to a span of 25032704 that the column accepts, where the true sum would be refused |
| Bans.DeleteUserBanEffect | DB/DBPostgres.cpp:128-131 | deleting an expired user ban removes that user's expiry and nobody else's |
| Bans.DeleteIpBanEffect | DB/DBPostgres.cpp:144-147 | deleting an expired address ban removes that address and no other |
| Bans.InsertIpBanEffect | DB/DBPostgres.cpp:132-133 | the insert succeeds exactly when the stored form of the address fits and has no row, and then only that address changes |
| Bans.BanUserEffect | DB/DBPostgres.cpp:151-169 | banUser succeeds exactly when the user exists and the sum fits; it then sets that user's expiry and no other, with at most one row per user, whether it updated or inserted |
| Bans.IsIpBannedEffect | DB/DBPostgres.cpp:137-149 | true exactly for an address with a ban not yet past; after false no row for the address is left |
| Bans.IsUserBannedEffect | DB/DBPostgres.cpp:120-135 | true exactly for a user with a ban not yet past; the insert into banned_ips cannot fail for an address that fits its column |
| Bans.ThrowsExactly | DB/DBPostgres.cpp:120-135 | isUserBanned throws exactly for a currently banned user at an address longer than its column that is refused, or whose trimmed form has a row |
| Bans.LongAddressThrows | DB/DBPostgres.cpp:120-135 | such a call exists: a banned user at an address of 51 digits |
| BanRuns.HistoryAgrees | DB/DBPostgres.cpp:120-169 | before every event of a run, each table agrees with what the history says: it holds the expiry itself, or nothing once that is past |
| BanRuns.LazyExpiryIsUnobservable | DB/DBPostgres.cpp:120-169 | over every sequential run with a clock that does not go back, isUserBanned is true exactly when the latest successful ban is not past, isIPBanned likewise for the latest recorded expiry, and the one exception is stated exactly |
| BanRuns.OneRowEach | DB/DBPostgres.cpp:55-63 | at every moment of a sequential run there is at most one ban row per user and per address |
| BanRuns.IpBanHasSource | DB/DBPostgres.cpp:132-133 | every address row not in the starting table was inserted by one isUserBanned call that answered true, with the expiry that user's unexpired ban had at that moment |
| BanRuns.EmptyHistory | DB/DBPostgres.cpp:44-99 | a run can start on the tables of an empty database |
| PostgresStore.DBPostgres.IsUserValid | DB/DBPostgres.cpp:101-105 | true if and only if a user row holds both the name and the token |
| PostgresStore.DBPostgres.IsUserAdmin | DB/DBPostgres.cpp:107-111 | true if and only if a user row of that name is an admin |
| PostgresStore.DBPostgres.IsIPBanned | DB/DBPostgres.cpp:137-149 | refines Bans.IsIpBanned and keeps the constraints with one ban row per user and address |
| PostgresStore.DBPostgres.IsUserBanned | DB/DBPostgres.cpp:120-135 | refines Bans.IsUserBanned, the nested isIPBanned call included, and keeps the constraints |
| PostgresStore.DBPostgres.BanUser | DB/DBPostgres.cpp:151-169 | refines Bans.BanUser, and keeps the constraints with one ban row per user |
| PostgresStore.DBPostgres.CreateUser | DB/DBPostgres.cpp:171-181 | accepted exactly when both texts fit and no row has the stored name; the row added with all its fields, admin when no admin row existed; its id returned, or 0 exactly for a trimmed name |
| PostgresStore.DBPostgres.CreateCommunity | DB/DBPostgres.cpp:198-208 | accepted exactly when the name fits, no row has its stored form and the admin has a row; the row added with all its fields; its id returned for every name that was not trimmed |
| PostgresStore.DBPostgres.CreateChannel | DB/DBPostgres.cpp:184-196 | accepted exactly when the name fits, no row has its stored form, and community and admin have rows; the row added with all its fields; its id returned, or 0 exactly for a trimmed name |
| PostgresStore.DBPostgres.GetChannelRow | DB/DBPostgres.cpp:249-256 | none exactly when no channels row has the id; otherwise the name of whichever row has it |
| ServerSpec.CheckMeans | WrongthinkServiceImpl.cpp:358-372 | true exactly when the channel is cached or has a row; a miss that finds a row adds one entry with its name and an empty log, and nothing else changes |
| ServerSpec.AcceptsMeans | WrongthinkServiceImpl.cpp:214-220 | the conditions a stream is judged by, said over rows: a known channel, and a message whose user and channel have rows |
| ServerSpec.SendEffect | WrongthinkServiceImpl.cpp:205-227 | for one send, over rows: INVALID_ARGUMENT exactly for a channel neither cached nor in the table, OK exactly when user and channel have rows, INTERNAL otherwise; the row added on OK with all its fields; the log entry added exactly when the channel is known, and no other log touched |
| ServerSpec.StreamEffect | WrongthinkServiceImpl.cpp:236-269 | the whole effect of a stream judged on the starting state: the messages before the first rejected one become rows with consecutive ids, each log gets its messages in order, and a failed insert leaves one more log entry than rows |
| ServerSpec.SendThenGet | WrongthinkServiceImpl.cpp:303-335 | after any sequential run of sends, lookups and creations, a reader gets what was there before and then exactly the successful sends for the channel, in order, with fields kept and the sender's name |
| ServerSpec.JoinIsStable | DB/DBPostgres.cpp:240-246 | later rows in other tables never change how old messages read |
| ServerSpec.GetIsLosslessAndOrdered | DB/DBPostgres.cpp:240-246 | the inner join drops no row of the channel, and the result is ordered by msg_id |
| ServerSpec.GetIsExact | WrongthinkServiceImpl.cpp:314-328 | a message is written if and only if it shows a message row of the channel and the user row it refers to, field by field |
| Uuids.Find | WrongthinkServiceImpl.cpp:72 | the first dash, or -1 exactly when there is none |
| Uuids.StripDashes | WrongthinkServiceImpl.cpp:72-78 | the erase loop terminates for any string with exactly its dashes filtered out |
| Uuids.OnlyDashesGo | WrongthinkServiceImpl.cpp:72-74 | every character but the dash occurs as often as before; no dash is left |
| Uuids.StripParts | WrongthinkServiceImpl.cpp:72-74 | stripping works piece by piece, so the other characters keep their order |
| Uuids.CanonicalRoundTrip | WrongthinkServiceImpl.cpp:70-74 | a UUID in canonical text form (section 4 of RFC 9562) strips to 32 characters from which it can be rebuilt |
| Uuids.StripIsInjective | WrongthinkServiceImpl.cpp:70-78 | two canonical UUIDs never strip to the same name |
| WrongthinkService.ServerReader.Read | WrongthinkServiceImpl.h:51-60 | yields the messages in order, each once, and then stays at the end |
| WrongthinkService.WrongthinkServiceImpl.CheckForChannel | WrongthinkServiceImpl.cpp:358-372 | refines ServerSpec.Check; after true the entry exists; cached entries stay the same objects |
| WrongthinkService.WrongthinkServiceImpl.SendWrongthinkMessageWeb | WrongthinkServiceImpl.cpp:205-227 | the body of the single send - check, append to the mutable channel, insert of the five bound values - gives the status, logs and rows of ServerSpec.Send, the status also stated over the old rows; cached entries stay the same objects |
| WrongthinkService.WrongthinkServiceImpl.SendWrongthinkMessageImpl | WrongthinkServiceImpl.cpp:236-269 | the separately written loop, with one insert over five variables refreshed by every read, gives the same status, logs and rows as single sends in order up to the first status other than OK, from any state and reader position |
| WrongthinkService.WrongthinkServiceImpl.ListenStart | WrongthinkServiceImpl.cpp:280-287 | the listener gets the very object that channelMap holds; INVALID_ARGUMENT exactly for an unknown channel |
| WrongthinkService.WrongthinkServiceImpl.GetWrongthinkMessagesImpl | WrongthinkServiceImpl.cpp:303-335 | the row loop writes exactly the join of the channel's rows with their senders, in table order |
| Bans.BanRpcMeans | WrongthinkServiceImpl.cpp:47-54 | every status exactly: OK and INTERNAL for a caller for whom one row holds the name, the token and admin = true, by whether the ban succeeds; "Invalid user" without a row of name and token; "Invalid permission" with one but no admin row of the name; a refused caller changes nothing |
| WrongthinkService.WrongthinkServiceImpl.BanUser | WrongthinkServiceImpl.cpp:33-62 | the same for the method, each status stated exactly over the old rows, and a call without credentials refused |
| WrongthinkService.WrongthinkServiceImpl.GenerateUser | WrongthinkServiceImpl.cpp:64-94 | OK exactly when no old row has the stripped UUID as its name; the new row carries the two stripped UUIDs and the returned id, and is an admin exactly when no old row was |
| Interleaving.InvStep | WrongthinkServiceImpl.cpp:205-372 | the invariant covering the tables, the cache and every pending call is inductive under any interleaving, with lost connections; rows and cached logs only grow |
| Interleaving.ReachableInv | WrongthinkServiceImpl.cpp:205-372 | the invariant holds in every reachable interleaved state |
| Interleaving.EmptyWorld | wrongthink.cpp:122-124 | any calls may start on the tables of an empty database |
| Interleaving.UserStep | DB/DBPostgres.cpp:171-181 | each statement of createUser keeps the invariant, including for calls that have already read an admin count |
| Interleaving.EmplaceKeeps | WrongthinkServiceImpl.cpp:363-367 | an emplace that lost a race changes nothing; otherwise it adds the entry of an existing row |
| CallProgress.NeverStuck | WrongthinkServiceImpl.cpp:33-372 | in every reachable state a call can step, in every environment, exactly when it is not at its end |
| CallProgress.StepsAreBounded | WrongthinkServiceImpl.cpp:33-372 | whatever runs beside it, a call takes a bounded number of steps: at most 6 n + 7 for a stream of n messages, at most 6 for any other |
| CallProgress.CallCanEnd | WrongthinkServiceImpl.cpp:33-372 | from every reachable state every call can be brought to its end by its own steps |
| CallProgress.LostNeverSucceeds | WrongthinkServiceImpl.cpp:221-226 | a statement that finds the connection lost changes no table and no cache and ends the call with INTERNAL, or with the exception from a ban reader or the listener |
| CallProgress.LostLeavesTables | WrongthinkServiceImpl.cpp:221-226 | without a connection no step of any call changes a table |
| CallProgress.CacheNeedsNoQuery | WrongthinkServiceImpl.cpp:359 | the lookup in channelMap uses no connection: a cached channel passes at once |
| InterleavingTheorems.AnAdminAlwaysExists | DB/DBPostgres.cpp:171-181 | with the count and the insert as separate steps, a non-empty users table always has an admin |
| InterleavingTheorems.CreateReturnsOwnRow | DB/DBPostgres.cpp:171-208 | under any interleaving a finished create call returns the id of its own row, exactly when the name was stored as given |
| InterleavingTheorems.CreatedIdsAreDistinct | DB/DBPostgres.cpp:171-208 | different successful create calls on one table return different ids |
| InterleavingTheorems.BanIsAuthorised | WrongthinkServiceImpl.cpp:50-54 | whenever a BanUser call is past its two checks, up to the ban write, exactly one row has the supplied name, and it holds the token and admin = true |
| BanReaders.NextKeeps | DB/DBPostgres.cpp:120-149 | each statement of the ban readers keeps every constraint and touches only the ban tables, and only the delete of an expired user ban touches banned_users |
| BanReaders.UserAlone | DB/DBPostgres.cpp:120-149 | with nothing in between, the steps of isUserBanned amount to Bans.IsUserBanned, exception included |
| BanRaces.OneRowUnlessTwoFound | DB/DBPostgres.cpp:157-164 | in every interleaved run, a user has at most one ban row as long as no two banUser calls for that user are both between a select that found nothing and their insert |
| BanRaces.OnePerUserUnlessTwoFound | DB/DBPostgres.cpp:157-164 | in every interleaved run, one ban row per user as long as no two banUser calls for the same user have both found none |
| BanRaces.TwoFoundLeaveTwoRows | DB/DBPostgres.cpp:157-164 | conversely, from every reachable state with two such calls whose sums fit, both can succeed and leave two rows |
| BanRaces.RacingBansLeaveTwoRows | DB/DBPostgres.cpp:157-164 | such a state is reached by two BanUser calls of an admin started together |
| BanSafety.WriteTakesEffect | DB/DBPostgres.cpp:158-164 | a ban write that reports success takes effect exactly when the row its select saw is still there, or, having seen none, no row with another expiry has appeared |
| BanSafety.BanStaysInForce | DB/DBPostgres.cpp:120-131 | a ban in force that no reader threatens stays in force under any interleaving without another ban write for the user, up to any deadline not past its end |
| BanSafety.ThreatenedBanCanGo | DB/DBPostgres.cpp:123-129 | one that a reader threatens at a clock reading, at most the end of the ban, can be gone at most two statements later with the clock still at that reading, and the reader answers false |
| BanSafety.SafeExactlyWithoutThreat | DB/DBPostgres.cpp:120-169 | in every reachable state and for every deadline from the present to the end of the ban, a ban in force survives all continuations up to the deadline with a clock that goes on, if and only if no isUserBanned call is about to delete the user's rows or to compare an expiry before the deadline |
| BanSafety.FreshBanCanGo | DB/DBPostgres.cpp:123-129 | a run, with one and the same clock reading throughout, in which a ban is extended between the reader's select and its delete, is in force, reports success, and is deleted in the second it was written |
| InterleavingTheorems.CacheIsCoherent | WrongthinkServiceImpl.cpp:358-372 | every cached id names a channels row with the cached name, and a call past its check finds its entry |
| InterleavingTheorems.CacheOnlyGrows | WrongthinkServiceImpl.cpp:358-372 | entries are never replaced or removed and no log is reset, racing misses included |
| InterleavingTheorems.OnlyEmplaceAddsKeys | WrongthinkServiceImpl.cpp:258-260 | channelMap[...] after a successful check never creates a default entry; only the emplace adds a key |
| InterleavingTheorems.NamesIdentifyChannels | SynchronizedChannel.cpp:63-77 | in every reachable cache two entries compare equal exactly when their ids are equal |
| InterleavingTheorems.LogIsConserved | WrongthinkServiceImpl.cpp:214-220 | in every reachable state and for every channel, the in-memory log as a multiset is the rows this service inserted, plus the sends between append and insert, plus the failed inserts |
| InterleavingTheorems.RowsFollowLog | WrongthinkServiceImpl.cpp:252-262 | with one sender at a time on a channel, its rows are an order-preserving subsequence of its log |
| AddressRaces.AcceptedExactly | DB/DBPostgres.cpp:132-133 | the insert of an address, trimmed or not, is accepted exactly when its stored form has no row; otherwise isUserBanned throws |
| AddressRaces.InsertSucceeds | DB/DBPostgres.cpp:132-133 | in every interleaved run, the insert of an address that fits its column is never refused as long as no two isUserBanned calls are both about to insert it |
| AddressRaces.SecondInsertThrows | DB/DBPostgres.cpp:132-133 | conversely, of two such calls the one whose insert comes second throws |
| SoloRuns.SendsAgree | WrongthinkServiceImpl.cpp:236-269 | a stream of sends run alone through the interleaved steps ends with the tables, cache and status of ServerSpec.SendAll |
| SoloRuns.CreatesAgree | DB/DBPostgres.cpp:171-181 | createUser run alone ends with the row, the first-admin flag and the id that DBPostgres.CreateUser promises |
| SoloRuns.CommunitiesAgree | DB/DBPostgres.cpp:198-208 | createCommunity run alone ends with the row of its insert and its id, or the unset variable for a trimmed name |
| SoloRuns.ChannelsAgree | DB/DBPostgres.cpp:184-196 | createChannel run alone ends with the row and the id that DBPostgres.CreateChannel promises |
| SoloRuns.ListensAgree | WrongthinkServiceImpl.cpp:283-287 | the listener's check run alone ends with the cache of ServerSpec.Check, holding its channel or refused |
| SoloRuns.BansAgree | WrongthinkServiceImpl.cpp:47-54 | BanUser run alone ends with the tables and status of Bans.BanRpc |
| SoloRuns.ReadersAgree | DB/DBPostgres.cpp:120-149 | isUserBanned run alone ends with the tables and answer of Bans.IsUserBanned |
| SoloRuns.AddressesAgree | DB/DBPostgres.cpp:137-149 | isIPBanned run alone ends with the tables and answer of Bans.IsIpBanned |

## Left out

- InterleavingTheorems.CreateReturnsOwnRow: says nothing of the id returned for a community whose name was trimmed, because the source returns a variable it never set.
- InterleavingTheorems.LogIsConserved: compares the five fields that reach the table (user, channel, thread, thread child, text); the others are never stored.
- WrongthinkService.WrongthinkServiceImpl.ListenStart: stops before the endless loop, which is modelled step by step in ChannelMonitor; blocking in waitMessage is not expressible in the class.
- Bans.DeleteUserBanEffect: models the intended delete, not the error that the statement's own text would raise.
- A commit whose acknowledgement is lost: a lost connection means that the statement had no effect.
- Memory-level races on `std::map`; each single operation is atomic here.
- Overflow of serial columns, and text that PostgreSQL refuses for its encoding.
- Strings are sequences of characters compared by code; no Unicode normalisation or encoding.
- BanRuns.LazyExpiryIsUnobservable: is about sequential runs, for which the source promises it; BanSafety says exactly what interleaving costs.
- gRPC transport, server start-up, logging, signal handling, credential plumbing and interceptors.
- The SQLite backend, which the server does not run.
- `clear`, which runs only before the server starts, and `isUserModerator`, whose query names a missing column and which nothing calls.
- `sendMessage` and `DeleteMessage`, which are stubs.
- The RPC wrappers of the three create calls, which add only the translation of an exception to INTERNAL.
- The community and channel listings, and the `anonymous` field they read from the wrong column.
- The `limit`, `afterid` and `afterdate` request fields, which the source reads and does not use.
- The `control_message` table, which no modelled call reads or writes.
- The length of a ban in days: the code adds milliseconds to seconds, and the model follows the code.
