# A verified model of the OpenSlides vote service

The vote service takes electronic votes. A poll is unknown, started or stopped; only a clear makes it
unknown again. Each user votes at most once, and a stop returns exactly the accepted votes. Three
storage engines implement one contract: memory (two Go maps), Redis (commands and Lua scripts) and
Postgres (REPEATABLE READ transactions that are retried on SQLSTATE 40001). Above them the service
checks entitlement, delegation and ballots, keeps a cache of who has voted, and streams live votes.

| module | models |
|---|---|
| `Orders` | sorted sequences, values of maps |
| `Contract` | the poll machine of the `Backend` interface, and what a run means read off its operations |
| `UserIds` | the packed list of user ids: codec, binary search, insertion into a Go slice |
| `Memory`, `Postgres`, `Redis` (with `RedisKeys`) | the three backends, one call at a time |
| `PostgresProtocol` | concurrent transactions: snapshots, row locks, row versions, the retry loop |
| `RedisProtocol` | concurrent callers at the level of single Redis commands |
| `Agreement` | one run of operations on all three backends |
| `Anonymity` | what Postgres keeps of secret ballots |
| `Ballot` | ballots and `validate` |
| `Entitlement`, `Preload` | who may cast whose vote, which datastore keys that reads, which keys are warm |
| `LiveStream` | the diff loop of the live-vote stream, and a client that folds the diffs |
| `Service`, `Sessions` | the service over a memory and a Postgres backend, with its cache; whole sessions |
| `ServiceProtocol` | concurrent votes and clears on the service, between backend and cache |

Two views of the contract are connected: `Contract.Next` and `Contract.Answer` are a machine with a
state, while `Opened`, `Closed`, `Counted` and `PrescribedAnswer` look only at the sequence of
operations. `Contract.RunIsPrescribed` says that they agree on every run. Every backend, and every
interleaving, is then tied to the machine, so the results can be read without any state: a vote is
accepted if and only if the poll is open and the user has no counted vote, and a stop returns the
counted votes.

## What turned out to be false

Where the code does not keep a promise, the model keeps the code, shows a case and gives the exact
condition under which the promise holds.

- `continueOnTransactionError` returns no error without any attempt if the context is already
  cancelled (`CancelledCallLooksSuccessful`).
- A Redis `Stop` does not always return the votes accepted before its SET: a removal of the poll
  before its HGETALL empties the result (`ClearInsideStop`). For everything that others can do in
  between, `StopReadIff` says exactly when the result is right; if the poll is not started again,
  that is iff it was not removed or had no votes (`StopReadIffNoRestart`).
- A Redis `Clear` that overlaps a restart of the poll hides the poll from `ClearAll`
  (`RestartInsideClear`); `ClearAllAtRestIff` says exactly when `ClearAll` misses no poll.
- The comment of `luaClearAll` names the state prefix first, the call passes the vote prefix first;
  the loop ends in the same store for both orders (`RunClearAllScript`).
- The comment of `handleAllVotedIDs` promises null for a poll that is not active any more. A round
  sends null for a remembered poll iff the snapshot does not list it (`RetractedIff`), that is, iff
  the poll is not in the cache or not configured (`RoundRetracts`, which also says exactly when a
  round crashes). `Clear` leaves the poll in the
  cache with a nil map, so it takes no configured poll back (`ClearedPollStaysInStream`); `ClearAll`
  takes back every poll (`ClearAllRetracts`).
- `AllLiveVotes` can write into a nil map: for some order of iteration iff some cached poll that
  shows its votes has hidden votes and votes in clear (`CrashPossibleIff`), as it has after a restart
  of the service during a long poll and one more vote (`RestartMixesVotes`).
- A poll that appears in the stream with a nil map is sent as null, so the client lacks what the
  handler remembers; this is the only way in which they can differ (`FaithfulIff`), and a restart
  leads there (`RestartDropsPoll`).
- The mutex of the service guards the cache only. A `Clear` inside a `Vote` leaves a voter in the
  cache who is not stored, and a restart with a vote inside a `Clear` loses one
  (`ClearInsideVote`, `VoteInsideClear`). At rest the cache is exact iff every such late write
  was repaired since (`ExactAtRestIff`); without overlap there is none (`ApartIsInTime`).
- Once a poll has appeared with a nil map, a user who is added to it crashes the handler. A stream
  never crashes iff that does not happen (`NeverCrashesIff`); a restart of the service, a clear, a
  start and one vote lead there (`RestartCrashesStream`).
- `preload` does not warm the meetings of further meeting users of a voter (`SecondMeetingIsCold`;
  `PreloadCoversIff` gives the exact condition).
- Postgres cuts user ids to 32 bits and does not return empty objects. An admitted vote and the stop
  behind it are answered as the contract says iff the id fits and the object is not empty
  (`PostgresExactIff`), and the cache of the service stays exact iff the id fits
  (`Service.VoteService.Vote`).

## Model

| member | source | states |
|---|---|---|
| `Contract.RunIsPrescribed` | vote/vote.go:549-582 | for every sequence of operations and every poll, the poll is known iff a start was not cleared, stopped iff a stop followed that start, and its voters and ballots are exactly the counted votes, one per user |
| `Contract.AnswerIsPrescribed` | vote/vote.go:556-569 | every answer follows from the operations alone: not-exist, stopped, double vote or success for a vote; not-exist or exactly the counted votes, users sorted, for a stop |
| `Contract.VotesConserved` | vote/vote.go:556-569 | voters, ballots and votes answered without an error since the last clear are equal in number |
| `Contract.StoppedIsFinal` | vote/vote.go:116-119 | from a stop to the next clear every stop gives the same tally, every vote is refused as stopped, starts change nothing |
| `UserIds.ToInt32` | backend/postgres/postgres.go:140 | Go's conversion: congruent modulo 2^32, identity on 32-bit values |
| `UserIds.DecodeEncode` | backend/postgres/postgres.go:369-384 | decoding an encoded list of 32-bit ids gives it back, negative ids included |
| `UserIds.EncodeDecode` | backend/postgres/postgres.go:369-384 | encoding decoded bytes gives the longest prefix of whole ids |
| `UserIds.WritesLittleEndian` | backend/postgres/postgres.go:377-384 | the column holds each id, modulo 2^32, as four bytes with the least significant first |
| `UserIds.ReadsLittleEndian` | backend/postgres/postgres.go:369-375 | every id read from a column is the one that its four bytes spell in that order |
| `UserIds.StoredOrderInvisible` | backend/postgres/schema.sql:7-10 | two orders of adding the same new users end in the same bytes |
| `UserIds.UserIdList.Search` | backend/postgres/postgres.go:391 | binary search finds the place that splits smaller from not smaller ids |
| `UserIds.UserIdList.Contains` | backend/postgres/postgres.go:403-407 | true iff the id is in the list |
| `UserIds.UserIdList.TailWith` | backend/postgres/postgres.go:397 | the inner append builds a new array, so later writes cannot reach it |
| `UserIds.UserIdList.AppendAt` | backend/postgres/postgres.go:397-398 | the outer append keeps the ids before the place and puts the tail behind them, in place iff the capacity allows it |
| `UserIds.UserIdList.Add` | backend/postgres/postgres.go:387-400 | refuses iff the id is there and then changes nothing; otherwise inserts exactly the id; the list stays strictly increasing |
| `Memory.Backend.Start` | backend/memory/memory.go:43-52 | the start of the contract; a no-op on known polls |
| `Memory.Backend.Stop` | backend/memory/memory.go:55-69 | the stop of the contract with its answer: sorted users, all votes |
| `Memory.Backend.Vote` | backend/memory/memory.go:72-94 | the vote of the contract with its answer |
| `Memory.Backend.Clear` | backend/memory/memory.go:97-104 | the clear of the contract |
| `Memory.Backend.ClearAll` | backend/memory/memory.go:107-114 | the clear-all of the contract |
| `Memory.Backend.LiveVotes` | backend/memory/memory.go:117-127 | the listed users of each poll are its voters, each with the stored vote |
| `Postgres.VotedRowValid` | backend/postgres/postgres.go:135-153 | the row that a vote writes is again packed and strictly increasing and has exactly one more voter |
| `Postgres.StopReads` | backend/postgres/postgres.go:221-266 | ids and objects that a stop reads are the tally of the poll without empty objects |
| `Postgres.CascadeAll` | backend/postgres/schema.sql:13-21 | deleting a poll row removes all its objects and no other |
| `Postgres.Backend.Start` | backend/postgres/postgres.go:85-93 | the start of the contract; an existing row is left alone |
| `Postgres.Backend.Vote` | backend/postgres/postgres.go:106-168 | the vote of the contract with the id cut to 32 bits; on success exactly one row and one object are written, otherwise nothing |
| `Postgres.Backend.Stop` | backend/postgres/postgres.go:191-275 | the stop of the contract, without empty objects |
| `Postgres.Backend.FetchObjects` | backend/postgres/postgres.go:221-243 | the non-empty objects of exactly this poll |
| `Postgres.Backend.Clear` | backend/postgres/postgres.go:278-285 | the clear of the contract, objects included |
| `Postgres.Backend.ClearAll` | backend/postgres/postgres.go:295-306 | the clear-all of the contract |
| `Postgres.Backend.LiveVotes` | backend/postgres/postgres.go:312-341 | lists every poll with exactly its voters, every vote hidden |
| `PostgresProtocol.StepKeepsInv` | backend/postgres/postgres.go:106-275 | every action of every caller keeps: tables well formed, current snapshots right, stale snapshots recognisable, one lock holder per row |
| `PostgresProtocol.StepRefines` | backend/postgres/postgres.go:106-275 | every action is one atomic step of the poll machine with its answer, or none |
| `PostgresProtocol.Linearizable` | backend/postgres/postgres.go:85-285 | under every interleaving the tables are those of the poll machine run on the operations in commit order, and every answer is the machine's at that point |
| `PostgresProtocol.CommittedVoteCounts` | backend/postgres/postgres.go:106-168 | a vote that commits was admitted (open poll, new user) and is counted, with no other vote lost |
| `PostgresProtocol.CommittedStopReturnsCounted` | backend/postgres/postgres.go:191-275 | a stop that commits returns exactly the votes counted before its commit |
| `PostgresProtocol.ContinueOnTransactionError` | backend/postgres/postgres.go:345-365 | all attempts but the last ended in a conflict; the error is that of the last attempt; no attempt and no error iff cancelled before |
| `PostgresProtocol.VoteRetried` | backend/postgres/postgres.go:99-103 | a vote returns success without an attempt iff cancelled before; else the answer of its last attempt |
| `PostgresProtocol.StopRetried` | backend/postgres/postgres.go:174-188 | a stop returns success with no users and no votes, without an attempt, iff cancelled before; else the result or the error of its last attempt |
| `PostgresProtocol.RetriesBounded` | backend/postgres/postgres.go:99-103 | the transactions begun by a running call exceed the writes of others to the row during the call by at most one, and only while its snapshot is current |
| `PostgresProtocol.AttemptsBounded` | backend/postgres/postgres.go:345-365 | the transactions begun by a running call exceed the number of writes to its row since the call began by at most one |
| `PostgresProtocol.WritesIff` | backend/postgres/postgres.go:345-365 | the actions that are counted against retries are exactly those after which the row has another version, is new or is gone |
| `PostgresProtocol.SuccessMeansOneCommit` | backend/postgres/postgres.go:345-365 | a call without error has committed exactly once, or never if it made no attempt; a call with an error has committed nothing |
| `PostgresProtocol.CancelledCallLooksSuccessful` | backend/postgres/postgres.go:345-347 | after any execution a call with a cancelled context returns: a vote success, a stop a tally with no users and no votes; and nothing changes |
| `RedisKeys.ItoaRoundTrip` | backend/redis/redis.go:186-195 | printing and parsing an id gives it back, for all integers |
| `RedisKeys.KeysDiffer` | backend/redis/redis.go:33-37 | state keys and vote keys are injective in the poll id and never collide with each other or the list |
| `RedisKeys.PrintedKeys` | backend/redis/redis.go:33-37 | the keys are the documented prefixes followed by the poll id in decimal |
| `Redis.StartStep` | backend/redis/redis.go:90-95 | SETNX of the state key is the start of the contract and keeps the key invariant |
| `Redis.VoteAnswer` | backend/redis/redis.go:115-159 | the return code of the script is the contract's answer |
| `Redis.VoteStepRefines` | backend/redis/redis.go:115-130 | the script acts as the vote of the contract |
| `Redis.StopStep` | backend/redis/redis.go:171-178 | SET XX of the state key is the stop of the contract |
| `Redis.StopAnswer` | backend/redis/redis.go:164-199 | what HGETALL gives behind the SET is the tally of the poll |
| `Redis.ClearStep` | backend/redis/redis.go:206-212 | DEL of both keys is the clear of the contract |
| `Redis.ClearAllStepRefines` | backend/redis/redis.go:228-250 | the script removes exactly the listed polls, with all their keys, and the list |
| `Redis.ClearAllCompleteIff` | backend/redis/redis.go:228-250 | the script is the clear-all of the contract iff every poll with a state key is listed |
| `Redis.Backend.Start` | backend/redis/redis.go:86-102 | the start of the contract; the list stays exact |
| `Redis.Backend.Vote` | backend/redis/redis.go:135-159 | the vote of the contract with its answer |
| `Redis.Backend.Stop` | backend/redis/redis.go:164-199 | the stop of the contract with its answer: sorted users, all votes |
| `Redis.Backend.Collect` | backend/redis/redis.go:186-198 | parsing the fields in any order gives every user once, sorted, and every vote |
| `Redis.Backend.Clear` | backend/redis/redis.go:202-220 | the clear of the contract; the list stays exact |
| `Redis.Backend.ClearAll` | backend/redis/redis.go:237-250 | the clear-all of the contract |
| `Redis.Backend.RunClearAllScript` | backend/redis/redis.go:225-250 | the loop of the script, in any order of the members and for either order of the two prefixes, deletes exactly the keys of the listed polls and the list |
| `Redis.Backend.LiveVotes` | backend/redis/redis.go:255-287 | lists every known poll with exactly its voters and their votes |
| `RedisProtocol.VotesHaveState` | backend/redis/redis.go:115-130 | under every interleaving of commands a poll with votes has a state key |
| `RedisProtocol.Linearizable` | backend/redis/redis.go:86-250 | under every interleaving in which clear-all finds all polls listed, the whole store is that of the poll machine run on the operations at their first commands |
| `RedisProtocol.LinearizableIff` | backend/redis/redis.go:86-250 | the whole store is that of the poll machine after every command iff every clear-all found all polls listed |
| `RedisProtocol.PollLinearizable` | backend/redis/redis.go:86-250 | under every interleaving, without condition, each poll is what the operations on it prescribe, a clear-all counting as a clear iff the poll is listed |
| `RedisProtocol.VoteAnsweredAtomically` | backend/redis/redis.go:135-159 | under every interleaving a vote is answered as the operations on its poll so far prescribe |
| `RedisProtocol.OverlappingStopsAgree` | backend/redis/redis.go:164-199 | from the first SET to 2, as long as the poll is not removed, every overlapping stop reads the same users and votes: those at that SET |
| `RedisProtocol.StopReadIff` | backend/redis/redis.go:164-220 | whatever others do between the SET and the HGETALL of a stop, it returns the tally at its SET iff the poll was not removed in between or the votes accepted since give the same tally |
| `RedisProtocol.StopReadIffNoRestart` | backend/redis/redis.go:164-250 | if the poll is not started again in between: iff no clear and no clear-all removed it, or it had no votes |
| `RedisProtocol.StopAnsweredIff` | backend/redis/redis.go:164-199 | in every execution a stop returns exactly the votes that count at its HGETALL, and the exact condition for these to be the ones that counted at its SET |
| `RedisProtocol.HistoryAnswered` | backend/redis/redis.go:86-250 | in every execution in which no poll is removed inside a stop, every vote and every stop, also one that finds no poll, is answered as the operations before its point of effect prescribe |
| `RedisProtocol.LiveVotesBetween` | backend/redis/redis.go:252-287 | what a LiveVotes call reads of a poll that is not removed during it lies between the votes at its beginning and at its end, and is what counts at that moment |
| `RedisProtocol.LiveVotesAmong` | backend/redis/redis.go:252-287 | LiveVotes with any commands of others between its reads lists exactly the polls in the list at its beginning, each with its votes at the moment of its own read |
| `RedisProtocol.ClearInsideStop` | backend/redis/redis.go:164-220 | the shortest case: one clear between the two commands of a stop makes it return nothing, which is right iff there were no votes |
| `RedisProtocol.ListStep` | backend/redis/redis.go:86-102 | every command without a clear meeting a start keeps: a known unlisted poll is being started, a listed unknown poll is being cleared |
| `RedisProtocol.QuiescentListExact` | backend/redis/redis.go:86-250 | then, when nobody is between two commands, the list is exactly the polls with a state key, and clear-all leaves no data |
| `RedisProtocol.CoveredIff` | backend/redis/redis.go:202-220 | a command can hide a poll from clear-all iff it is the SREM of a clear after the poll was started again |
| `RedisProtocol.ClearAllAtRestIff` | backend/redis/redis.go:86-250 | in every execution, when nobody is between two commands, clear-all leaves nothing iff every such SREM was followed by a further start or clear of its poll |
| `RedisProtocol.RestartInsideClear` | backend/redis/redis.go:202-220 | such a run from any store: the poll stays after clear-all |
| `Agreement.RunMemory` | backend/memory/memory.go:43-127 | every run gives the contract's answers and LiveVotes the contract's voters |
| `Agreement.RunRedis` | backend/redis/redis.go:86-287 | every run gives the contract's answers and LiveVotes the contract's voters |
| `Agreement.RunPostgres` | backend/postgres/postgres.go:85-341 | every run, with any ids and objects, gives the contract's answers for ids cut to 32 bits, without empty objects |
| `Agreement.Lockstep` | vote/vote.go:549-582 | for all operations with 32-bit ids and non-empty objects the three backends give equal answers, those of the contract, and LiveVotes the same voters |
| `Agreement.PostgresExactIff` | backend/postgres/postgres.go:140-241 | after any operations that fit, Postgres answers an admitted vote and the stop behind it as the contract iff the user id has 32 bits and the object is not empty |
| `Anonymity.CastBallots` | backend/postgres/postgres.go:106-168 | the backend given ballots one by one ends in the tables that the theorem below speaks about |
| `Anonymity.ReassignmentInvisible` | vote/vote.go:261-276 | in a poll that is not named, dealing the same voters differently over the same ballots, with any callers, ends in identical tables |
| `Anonymity.NamedBallotsTell` | vote/vote.go:261-276 | in a named poll two voters cannot be exchanged unnoticed |
| `Ballot.Validate` | vote/vote.go:700-800 | accepts iff the declarative rule holds, whatever the order of map iteration; by the field that is set: a letter iff the poll allows that letter globally, amounts only in Y and N polls, answers only in YN and YNA polls, nothing else |
| `Ballot.ValidateAmounts` | vote/vote.go:732-758 | accepts iff every option is allowed and within bounds and the sum within the limits |
| `Ballot.ValidateAnswers` | vote/vote.go:764-791 | accepts iff every answer is allowed for its option and the number within the limits |
| `Ballot.AcceptedSumBounded` | vote/vote.go:737-757 | no accepted sum, and no partial sum of the loop, exceeds distinct options times the maximum per option |
| `Ballot.AmountBallotExistsIff` | vote/vote.go:701-758 | an acceptable amount ballot exists iff the minimum is within the maximum and within options times the per-option maximum, for all integer limits |
| `Ballot.AnswerBallotExistsIff` | vote/vote.go:764-791 | an acceptable ballot of answers exists iff the minimum is within the maximum and the number of distinct options |
| `Entitlement.GetMeetingUser` | vote/vote.go:318-340 | the first meeting user in the meeting; reads the meetings of all of them |
| `Entitlement.EqualElement` | vote/vote.go:861-872 | true iff the lists share an element |
| `Entitlement.EnsureVoteUser` | vote/vote.go:360-413 | passes iff the owner is in an entitled group and either votes without a forbidding delegation or is represented by the named delegate |
| `Entitlement.Authorize` | vote/vote.go:200-257 | passes iff the declarative entitlement holds; then it has read exactly the listed keys and found the weight |
| `Entitlement.WeightOf` | vote/vote.go:235-257 | the weight is never zero; one if weights are off; else the meeting user's, if that is zero the user's default, and if that is zero one |
| `Entitlement.AtMostTwoCallers` | vote/vote.go:360-413 | if each meeting user belongs to one user, at most two callers can cast a user's vote |
| `Entitlement.AtMostOneCaller` | vote/vote.go:380-395 | at most one, if delegations are off, or the user has delegated and delegators may not vote |
| `Preload.PreloadPoll` | vote/vote.go:586-668 | the loops fetch exactly the warm keys: those of the meeting, the groups, their members, the members' delegates, and the users of both |
| `Preload.PreloadCoversIff` | vote/vote.go:586-668 | for consistent relations, everything an accepted vote reads is warm iff all meeting users of the owner, and of a delegate who calls, were visited |
| `Preload.PreloadSuffices` | vote/vote.go:584-668 | so it is if both have one meeting user |
| `Preload.SecondMeetingIsCold` | vote/vote.go:318-340 | for every poll with groups some consistent datastore has an entitled voter with a cold key |
| `LiveStream.Handler.Tick` | vote/http/http.go:311-349 | one round sends the difference and updates the memory as specified; it crashes iff a nil inner map would be written |
| `LiveStream.FoldIsMemory` | vote/http/http.go:311-342 | for every sequence of snapshots in which no poll appears with a nil map, folding what was sent gives the handler's memory, whose polls are those of the latest snapshot |
| `LiveStream.FaithfulIff` | vote/http/http.go:311-349 | a client that folds has the handler's memory after every round iff no poll appears with a nil map |
| `LiveStream.Stream` | vote/http/http.go:311-349 | handler and client together: a client that skips silent rounds ends with the memory |
| `LiveStream.LevelIff` | vote/http/http.go:319-342 | a round makes the memory equal to the snapshot iff no surviving poll has lost or changed an entry |
| `LiveStream.GrowingStreamExact` | vote/http/http.go:315-342 | if surviving polls only gain users, the client always has the latest snapshot |
| `LiveStream.SentOncePerLifetime` | vote/http/http.go:325-333 | if a user is sent twice for a poll, the poll was gone in between |
| `LiveStream.RetractedIff` | vote/http/http.go:319-342 | a round takes a remembered poll back iff the snapshot does not list it; otherwise it keeps all that it remembers of the poll |
| `LiveStream.NeverCrashesIff` | vote/http/http.go:319-335 | no round of a stream crashes iff no poll that appeared with a nil map gets a user while it stays listed |
| `Service.DelegatedUserIDs` | vote/vote.go:416-446 | exactly the users who delegated to the caller in some meeting |
| `Service.VoteService.constructor` | vote/vote.go:34-63 | over backends with any polls, the cache starts with exactly the stored voters |
| `Service.ExactIff` | vote/vote.go:302-312 | a cache whose users, as the backends keep them, are the stored voters is exact iff all its user ids fit |
| `Service.VoteService.LoadVoted` | vote/vote.go:530-547 | the cache has exactly the stored voters of both backends; votes of long polls are hidden, and no poll mixes hidden votes with votes in clear |
| `Service.VoteService.Start` | vote/vote.go:66-108 | not-exists without configuration, invalid for analog polls, else the start of the contract, after which the poll is in the fast backend iff it is configured as fast, and else in the long one; an exact cache stays exact |
| `Service.VoteService.Stop` | vote/vote.go:120-143 | the stop of the contract on the backend of the poll; an exact cache stays exact |
| `Service.VoteService.Clear` | vote/vote.go:146-160 | the clear of the contract on both backends; the cache keeps the poll with a nil map, and stays exact if it was |
| `Service.VoteService.ClearAll` | vote/vote.go:163-185 | the clear-all of the contract; the cache is empty and exact |
| `Service.VoteService.Vote` | vote/vote.go:188-315 | the first failing check decides the error; otherwise the vote of the contract, for the owner, without user ids unless named; the cache gains the voter iff it was accepted, in clear only if named; on success the user named in the request, else its sender, is among stored voters and cached users; the stored voters stay the cached users as the backends keep them, and an exact cache stays exact iff the vote was refused or kept under the same user id |
| `Service.RequestOwner` | vote/vote.go:209-229 | a request is checked, and its vote stored, for the user it names, else for its sender |
| `Service.RequestObject` | vote/vote.go:261-281 | the object has sender and owner in a named poll and no user id otherwise, the value as sent and the weight of the owner |
| `Service.OutcomeClasses` | vote/vote.go:283-300 | the answers of the backend come out as not-exists, double vote and stopped |
| `Service.VoteService.Voted` | vote/vote.go:449-490 | exactly the requested polls, each with its cached users among the caller and the caller's delegators, once each; with an exact cache these are the stored voters |
| `Service.VoteService.AllLiveVotes` | vote/vote.go:493-527 | for every order of iteration: crashes iff the loop over the users of some poll does, and otherwise gives every cached configured poll, with hidden votes unless named with live voting |
| `Service.PicturedHidden` | vote/vote.go:506-524 | of a poll that is not named or has no live voting, listeners see exactly who has voted and no vote |
| `Service.PicturedShown` | vote/vote.go:508-519 | of a named poll with live voting and no hidden vote they see every vote |
| `Service.ShownCell` | vote/vote.go:508-519 | the loop over the users in a given order crashes, or computes the cell, exactly as the fold over that order does |
| `Service.FoldNilIff` | vote/vote.go:508-519 | for a given order of iteration the loop crashes iff a hidden vote comes before one in clear |
| `Service.CrashPossibleIff` | vote/vote.go:493-527 | some order of iteration makes AllLiveVotes crash iff some cached poll that shows its votes has hidden votes and votes in clear |
| `Service.RestartMixesVotes` | vote/vote.go:530-547 | after a restart during a named long poll with live voting and votes, a vote that passes and is admitted is accepted and mixes the poll, and AllLiveVotes can crash |
| `Service.RestartDropsPoll` | vote/vote.go:508-519 | directly after such a restart the first round of the stream does not crash and sends null for the poll, which the handler remembers and the client lacks |
| `Service.RestartCrashesStream` | vote/http/http.go:325-333 | from there a clear, a start and any vote that passes make the next round of the handler write into the nil map, while AllLiveVotes does not crash |
| `Service.RoundRetracts` | vote/http/http.go:311-349 | a round crashes iff AllLiveVotes does or a remembered nil map would be written; otherwise it takes a remembered poll back iff the poll is not in the cache or not configured, and else keeps all it remembers of it |
| `Service.ClearedPollStaysInStream` | vote/vote.go:146-160 | after a clear, a round crashes under the same exact condition on the cache before the clear, and otherwise takes the poll back iff the poll is not configured |
| `Service.ClearAllRetracts` | vote/vote.go:163-185 | after a clear of everything, a round does not crash and takes back exactly the remembered polls |
| `Sessions.Session` | vote/vote.go:80-490 | in every session of requests on a new service each reply, errors and tallies included, is the one that the operations before it prescribe; every vote answered without an error is listed for the user named in it, else for its sender; Voted then lists for each requested poll exactly the users among caller and delegators whose votes were accepted since the last clear, and these are the counted voters as the backends keep them |
| `ServiceProtocol.CoveredIff` | vote/vote.go:146-315 | while every difference between cache and backends is still to be repaired by a request under way, a step keeps that iff it is no late write: a vote remembered after it was cleared, or a clear that forgets a vote saved behind it |
| `ServiceProtocol.WholeVote` | vote/vote.go:283-312 | the two steps of a vote, undisturbed, are the vote of the service; a refused vote changes nothing |
| `ServiceProtocol.WholeClear` | vote/vote.go:146-160 | the two steps of a clear, undisturbed, are the clear of the service |
| `ServiceProtocol.WholeClearAll` | vote/vote.go:163-185 | the three steps of a clear of everything, undisturbed, leave neither polls nor cache |
| `ServiceProtocol.CacheExactAtRest` | vote/vote.go:283-312 | under every interleaving of votes, clears, starts and stops without a late write, the cache is exact whenever no request is between backend and cache |
| `ServiceProtocol.ExactAtRestIff` | vote/vote.go:146-315 | in every execution, when no request is between backend and cache, the cache is exact iff every late write was followed by a repair at its poll and user |
| `ServiceProtocol.ApartIsInTime` | vote/vote.go:146-185 | if votes and clears of the same poll never overlap, no write is late, whatever else runs at the same time |
| `ServiceProtocol.ClearInsideVote` | vote/vote.go:283-312 | a whole clear between the two steps of a vote leaves a voter in the cache who is not stored |
| `ServiceProtocol.VoteInsideClear` | vote/vote.go:146-160 | a restart and a whole vote between the two steps of a clear leave a stored voter out of the cache |

## Left out

- HTTP routing, authentication, JSON decoding and error texts: requests arrive decoded, and only the class of an error is modelled; the JSON encoder and the decimal formatting of weights are function parameters.
- Infrastructure errors of Redis, Postgres and the datastore, connection pools, waiting and migration.
- The datastore is a record of total functions; its cache appears only as the sets of keys that are read and fetched.
- Concurrency inside the service beyond `ServiceProtocol`: `Service` and `Sessions` run one request at a time, which the code does not enforce, on one instance with memory as fast and Postgres as long backend; the background refresh of other instances is not modelled.
- PostgresProtocol: ClearAll (a dropped schema) does not run concurrently, and a call is not cancelled in the middle of its COMMIT; Postgres is taken to give REPEATABLE READ snapshots, row locks and error 40001 as its documentation, section 13.2.2, says.
- Poll ids are unbounded integers; the 32-bit column for them and the 64-bit range of Go's `int` are not modelled, so neither are overflows of sums, which `Ballot.AcceptedSumBounded` bounds, nor range errors of `Atoi`.
- The order in which Postgres returns objects is taken to be that of insertion; votes are compared as multisets.
- Redis.Backend.LiveVotes: runs without commands of others in between; `RedisProtocol.LiveVotesAmong` is the same call with them.
- ServiceProtocol: user ids are taken to fit, and the two backends of a clear count as one step, since a poll is stored in one of them only.
- RedisProtocol.Linearizable: requires that clear-all finds all polls listed, which is exact (`RedisProtocol.LinearizableIff`); `RedisProtocol.PollLinearizable` and `RedisProtocol.HistoryAnswered`, with all answers, have no such condition.
- LiveStream.GrowingStreamExact: requires non-nil inner maps throughout, since a nil map says nothing about the users of its poll.
- Aliasing of the inner maps that the stream handler shares between its memory and a sent diff; the diff is encoded before the next round changes the memory.
