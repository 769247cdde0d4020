/** Whole sessions of the vote service: what it tells callers in and after any sequence of requests. */
module Sessions {
  import opened Orders
  import opened Contract
  import opened UserIds
  import opened Entitlement
  import opened Anonymity
  import opened Service
  import Memory
  import Postgres

  datatype Call =
    | StartCall(poll: int)
    | StopCall(poll: int)
    | ClearCall(poll: int)
    | ClearAllCall
    | VoteCall(poll: int, requestUser: int, req: Request)

  datatype CallReply =
    | Plain(reply: ServiceReply)
    | Result(users: seq<int>, ballots: multiset<Object>)

  /** What the service is configured with. */
  datatype Setup = Setup(ds: Datastore, marshal: VoteData -> Object, fixed: real -> string)

  /** A vote that reaches postgres is for a user id of 32 bits. */
  ghost predicate Fits(c: Setup, call: Call) {
    call.VoteCall? && Passes(c.ds, call.poll, call.requestUser, call.req) && !Fast(c.ds, call.poll) ==>
      -TWO31 <= VoteUserOf(call.req, call.requestUser) < TWO31
  }

  /** The operation that a call performs on the backends, if it gets that far. */
  ghost function EffectOf(c: Setup, call: Call): seq<Op> {
    match call
    case StartCall(p) => if p in c.ds.polls && c.ds.polls[p].kind != "analog" then [Start(p)] else []
    case StopCall(p) => if p in c.ds.polls then [Stop(p)] else []
    case ClearCall(p) => [Clear(p)]
    case ClearAllCall => [ClearAll]
    case VoteCall(p, u, req) =>
      if Passes(c.ds, p, u, req) then [KeptOp(c.ds, OpFor(c.ds, c.marshal, c.fixed, p, u, req))] else []
  }

  ghost function EffectsOf(c: Setup, calls: seq<Call>): seq<Op> {
    if calls == [] then []
    else EffectsOf(c, calls[..|calls| - 1]) + EffectOf(c, calls[|calls| - 1])
  }

  /** What a caller is told, given the answer of the poll machine to the operation of the call. */
  ghost function ReplyTo(c: Setup, call: Call, answer: Reply): CallReply {
    match call
    case StartCall(p) =>
      Plain(if p !in c.ds.polls then ErrNotExists else if c.ds.polls[p].kind == "analog" then ErrInvalid else Ok)
    case StopCall(p) =>
      if p !in c.ds.polls || !answer.Tally? then Plain(ErrNotExists)
      else Result(answer.users, if Fast(c.ds, p) then answer.ballots else Postgres.WithoutEmpty(answer.ballots))
    case VoteCall(p, u, req) => Plain(VoteOutcome(c.ds, p, u, req, answer))
    case _ => Plain(Ok)
  }

  /** The users that the cache lists for `p` behind a call, given those before it. */
  ghost function ListedAfter(c: Setup, call: Call, answer: Reply, p: int, users: set<int>): set<int> {
    match call
    case ClearCall(q) => if q == p then {} else users
    case ClearAllCall => {}
    case VoteCall(q, u, req) =>
      if q == p && Passes(c.ds, q, u, req) && answer == Done then users + {VoteUserOf(req, u)} else users
    case _ => users
  }

  ghost function MachineAnswer(s: State, effect: seq<Op>): Reply {
    if effect == [] then Done else Answer(s, effect[0])
  }

  /** The answer that the operations alone prescribe for a call behind `calls`. */
  ghost function AnswerAfter(c: Setup, calls: seq<Call>, call: Call): Reply {
    if EffectOf(c, call) == [] then Done else PrescribedAnswer(EffectsOf(c, calls), EffectOf(c, call)[0])
  }

  /** The users whose votes on `p` were accepted since its last clear, as the requests name them. */
  ghost function AcceptedUsers(c: Setup, calls: seq<Call>, p: int): set<int> {
    if calls == [] then {} else
      var before, call := calls[..|calls| - 1], calls[|calls| - 1];
      ListedAfter(c, call, AnswerAfter(c, before, call), p, AcceptedUsers(c, before, p))
  }

  lemma RunOne(s: State, op: Op)
    ensures Run(s, [op]) == Next(s, op)
  {
  }

  lemma AnswerFromRun(c: Setup, calls: seq<Call>, call: Call)
    ensures MachineAnswer(Run(map[], EffectsOf(c, calls)), EffectOf(c, call)) == AnswerAfter(c, calls, call)
  {
    if EffectOf(c, call) != [] {
      AnswerIsPrescribed(EffectsOf(c, calls), EffectOf(c, call)[0]);
    }
  }

  ghost function SetupOf(s: VoteService): Setup {
    Setup(s.ds, s.marshal, s.fixed)
  }

  /** One call: its reply, its effect on the backends and on the cache. */
  ghost predicate Served(c: Setup, call: Call, s: State, live: Cache, s': State, live': Cache, reply: CallReply) {
    var answer := MachineAnswer(s, EffectOf(c, call));
    && reply == ReplyTo(c, call, answer)
    && s' == Run(s, EffectOf(c, call))
    && forall p :: CacheTable(live', p).Keys == ListedAfter(c, call, answer, p, CacheTable(live, p).Keys)
  }

  lemma ServedStart(c: Setup, p: int, s: State, live: Cache, s': State, r: ServiceReply)
    requires Plain(r) == ReplyTo(c, StartCall(p), Done) && s' == if r == Ok then Next(s, Start(p)) else s
    ensures Served(c, StartCall(p), s, live, s', live, Plain(r))
  {
    RunOne(s, Start(p));
  }

  lemma ServedStop(c: Setup, p: int, s: State, live: Cache, s': State, reply: CallReply)
    requires s' == if p in c.ds.polls then Next(s, Stop(p)) else s
    requires reply == ReplyTo(c, StopCall(p), Answer(s, Stop(p)))
    ensures Served(c, StopCall(p), s, live, s', live, reply)
  {
    RunOne(s, Stop(p));
  }

  lemma ServedClear(c: Setup, p: int, s: State, live: Cache)
    ensures Served(c, ClearCall(p), s, live, Next(s, Clear(p)), live[p := None], Plain(Ok))
  {
    RunOne(s, Clear(p));
  }

  lemma ServedClearAll(c: Setup, s: State, live: Cache)
    ensures Served(c, ClearAllCall, s, live, Next(s, ClearAll), map[], Plain(Ok))
  {
    RunOne(s, ClearAll);
  }

  lemma ServedRefusal(c: Setup, p: int, u: int, req: Request, s: State, live: Cache, answer: Reply)
    requires !Passes(c.ds, p, u, req)
    ensures Served(c, VoteCall(p, u, req), s, live, s, live, Plain(VoteOutcome(c.ds, p, u, req, answer)))
  {
  }

  lemma KeptIfFits(c: Setup, p: int, u: int, req: Request)
    requires Passes(c.ds, p, u, req) && Fits(c, VoteCall(p, u, req))
    ensures var op := OpFor(c.ds, c.marshal, c.fixed, p, u, req); KeptOp(c.ds, op) == op
  {
  }

  lemma ServedVote(c: Setup, p: int, u: int, req: Request, s: State, live: Cache, named: bool)
    requires Passes(c.ds, p, u, req)
    ensures var op := OpFor(c.ds, c.marshal, c.fixed, p, u, req);
            Served(c, VoteCall(p, u, req), s, live, Next(s, KeptOp(c.ds, op)), AfterVote(c.ds, live, s, op, named),
                   Plain(ReplyOf(Answer(s, KeptOp(c.ds, op)))))
  {
    var op := OpFor(c.ds, c.marshal, c.fixed, p, u, req);
    RunOne(s, KeptOp(c.ds, op));
    forall q ensures CacheTable(Recalled(live, op, named), q).Keys
                  == CacheTable(live, q).Keys + if q == p then {op.user} else {}
    {
      RecalledUsers(live, op, named, q);
    }
  }

  method DoStop(s: VoteService, p: int) returns (reply: CallReply)
    requires s.Valid()
    modifies s, s.fast, s.long
    ensures s.Valid() && (old(s.Exact()) ==> s.Exact())
    ensures Served(SetupOf(s), StopCall(p), old(s.Polls()), old(s.live), s.Polls(), s.live, reply)
  {
    ghost var before := s.Polls();
    var r, votes, users := s.Stop(p);
    reply := if r == Ok then Result(users, multiset(votes)) else Plain(r);
    ServedStop(SetupOf(s), p, before, s.live, s.Polls(), reply);
  }

  method DoStart(s: VoteService, p: int) returns (reply: CallReply)
    requires s.Valid()
    modifies s, s.fast, s.long
    ensures s.Valid() && (old(s.Exact()) ==> s.Exact())
    ensures Served(SetupOf(s), StartCall(p), old(s.Polls()), old(s.live), s.Polls(), s.live, reply)
  {
    ghost var before := s.Polls();
    var r := s.Start(p);
    reply := Plain(r);
    ServedStart(SetupOf(s), p, before, s.live, s.Polls(), r);
  }

  method DoVote(s: VoteService, p: int, u: int, req: Request) returns (reply: CallReply)
    requires s.Valid()
    modifies s, s.fast, s.long
    ensures s.Valid() && (old(s.Exact()) && Fits(SetupOf(s), VoteCall(p, u, req)) ==> s.Exact())
    ensures Served(SetupOf(s), VoteCall(p, u, req), old(s.Polls()), old(s.live), s.Polls(), s.live, reply)
  {
    if Passes(s.ds, p, u, req) {
      ServedVote(SetupOf(s), p, u, req, s.Polls(), s.live, s.ds.polls[p].kind == "named");
      if Fits(SetupOf(s), VoteCall(p, u, req)) {
        KeptIfFits(SetupOf(s), p, u, req);
      }
    } else {
      ServedRefusal(SetupOf(s), p, u, req, s.Polls(), s.live, Done);
    }
    var r := s.Vote(p, u, req);
    reply := Plain(r);
  }

  method Do(s: VoteService, call: Call) returns (reply: CallReply)
    requires s.Valid()
    modifies s, s.fast, s.long
    ensures s.Valid() && (old(s.Exact()) && Fits(SetupOf(s), call) ==> s.Exact())
    ensures Served(SetupOf(s), call, old(s.Polls()), old(s.live), s.Polls(), s.live, reply)
  {
    match call
    case StartCall(p) => reply := DoStart(s, p);
    case StopCall(p) => reply := DoStop(s, p);
    case ClearCall(p) =>
      ServedClear(SetupOf(s), p, s.Polls(), s.live);
      s.Clear(p);
      reply := Plain(Ok);
    case ClearAllCall =>
      ServedClearAll(SetupOf(s), s.Polls(), s.live);
      s.ClearAll();
      reply := Plain(Ok);
    case VoteCall(p, u, req) => reply := DoVote(s, p, u, req);
  }

  ghost predicate RepliesRight(c: Setup, calls: seq<Call>, replies: seq<CallReply>) {
    && |replies| == |calls|
    && forall i :: 0 <= i < |calls| ==> replies[i] == ReplyTo(c, calls[i], AnswerAfter(c, calls[..i], calls[i]))
  }

  /** Backends and cache behind `calls`. */
  ghost predicate Behind(c: Setup, calls: seq<Call>, s: State, live: Cache) {
    && s == Run(map[], EffectsOf(c, calls))
    && forall p :: CacheTable(live, p).Keys == AcceptedUsers(c, calls, p)
  }

  lemma BehindStep(c: Setup, calls: seq<Call>, call: Call, s: State, live: Cache, s': State, live': Cache, reply: CallReply)
    requires Behind(c, calls, s, live) && Served(c, call, s, live, s', live', reply)
    ensures Behind(c, calls + [call], s', live') && reply == ReplyTo(c, call, AnswerAfter(c, calls, call))
  {
    var all := calls + [call];
    assert all[..|all| - 1] == calls;
    RunConcat(map[], EffectsOf(c, calls), EffectOf(c, call));
    AnswerFromRun(c, calls, call);
    forall p ensures CacheTable(live', p).Keys == AcceptedUsers(c, all, p) {
      assert CacheTable(live, p).Keys == AcceptedUsers(c, calls, p);
    }
  }

  lemma RepliesSnoc(c: Setup, calls: seq<Call>, call: Call, replies: seq<CallReply>, reply: CallReply)
    requires RepliesRight(c, calls, replies) && reply == ReplyTo(c, call, AnswerAfter(c, calls, call))
    ensures RepliesRight(c, calls + [call], replies + [reply])
  {
    var all := calls + [call];
    forall j | 0 <= j < |all|
      ensures (replies + [reply])[j] == ReplyTo(c, all[j], AnswerAfter(c, all[..j], all[j]))
    {
      assert all[..j] == calls[..j];
      assert j == |calls| ==> calls[..j] == calls;
    }
  }

  /** Main theorem: every reply in a session of a service over new backends is the one that the
      operations before it prescribe; and behind the session Voted lists exactly the requested polls,
      and for each the users among the caller and those who delegated to the caller whose votes were
      accepted since the poll was last cleared. The backends count these users as they keep them, which
      are the same users if all ids that reach postgres fit. */
  method Session(c: Setup, calls: seq<Call>, pollIDs: seq<int>, requestUser: int)
    returns (replies: seq<CallReply>, out: map<int, seq<int>>)
    ensures RepliesRight(c, calls, replies)
    ensures OwnersListed(c, calls, replies)
    ensures out.Keys == Elements(pollIDs)
    ensures forall p :: p in out ==>
              && Distinct(out[p])
              && Elements(out[p]) == AcceptedUsers(c, calls, p) * ({requestUser} + Delegators(c.ds, requestUser))
    ensures forall p :: UsersOf(Counted(EffectsOf(c, calls), p)) == KeptUsers(c.ds, p, AcceptedUsers(c, calls, p))
    ensures (forall i :: 0 <= i < |calls| ==> Fits(c, calls[i])) ==>
              forall p :: UsersOf(Counted(EffectsOf(c, calls), p)) == AcceptedUsers(c, calls, p)
  {
    var s;
    s, replies := Serve(c, calls);
    out := s.Voted(pollIDs, requestUser);
    StoredAreCounted(c, calls, s.live, s.Polls());
    forall i | 0 <= i < |calls| && calls[i].VoteCall? && replies[i] == Plain(Ok)
      ensures OwnerOf(calls[i]) in AcceptedUsers(c, calls[..i + 1], calls[i].poll)
    {
      OwnerAccepted(c, calls, i);
    }
  }

  /** The user named in the request, else its sender. */
  ghost function OwnerOf(call: Call): int
    requires call.VoteCall?
  {
    match call.req.user
    case Some(u) => u
    case None => call.requestUser
  }

  /** Every vote that was answered without an error is listed for its owner. */
  ghost predicate OwnersListed(c: Setup, calls: seq<Call>, replies: seq<CallReply>)
    requires |replies| == |calls|
  {
    forall i :: 0 <= i < |calls| && calls[i].VoteCall? && replies[i] == Plain(Ok) ==>
      OwnerOf(calls[i]) in AcceptedUsers(c, calls[..i + 1], calls[i].poll)
  }

  lemma OwnerAccepted(c: Setup, calls: seq<Call>, i: nat)
    requires i < |calls| && calls[i].VoteCall?
    requires ReplyTo(c, calls[i], AnswerAfter(c, calls[..i], calls[i])) == Plain(Ok)
    ensures OwnerOf(calls[i]) in AcceptedUsers(c, calls[..i + 1], calls[i].poll)
  {
    var all := calls[..i + 1];
    assert all[..|all| - 1] == calls[..i] && all[|all| - 1] == calls[i];
  }

  /** The calls, one after the other, on a service over new backends. */
  method Serve(c: Setup, calls: seq<Call>) returns (s: VoteService, replies: seq<CallReply>)
    ensures s.Valid() && SetupOf(s) == c && Behind(c, calls, s.Polls(), s.live) && RepliesRight(c, calls, replies)
    ensures (forall i :: 0 <= i < |calls| ==> Fits(c, calls[i])) ==> s.Exact()
  {
    var fast := new Memory.Backend();
    var long := new Postgres.Backend();
    s := new VoteService(c.ds, c.marshal, c.fixed, fast, long);
    ghost var fit := forall i :: 0 <= i < |calls| ==> Fits(c, calls[i]);
    replies := [];
    for i := 0 to |calls|
      invariant s.Valid() && SetupOf(s) == c && (fit ==> s.Exact())
      invariant fresh(s) && fresh(s.fast) && fresh(s.long)
      invariant Behind(c, calls[..i], s.Polls(), s.live) && RepliesRight(c, calls[..i], replies)
    {
      ghost var before, live := s.Polls(), s.live;
      var reply := Do(s, calls[i]);
      ServedNext(c, calls, i, before, live, s.Polls(), s.live, reply, replies);
      replies := replies + [reply];
    }
    assert calls[..|calls|] == calls;
  }

  lemma PrefixSnoc(calls: seq<Call>, i: nat)
    requires i < |calls|
    ensures calls[..i + 1] == calls[..i] + [calls[i]]
  {
  }

  lemma ServedNext(c: Setup, calls: seq<Call>, i: nat, s: State, live: Cache, s': State, live': Cache,
                   reply: CallReply, replies: seq<CallReply>)
    requires i < |calls| && Behind(c, calls[..i], s, live) && RepliesRight(c, calls[..i], replies)
    requires Served(c, calls[i], s, live, s', live', reply)
    ensures Behind(c, calls[..i + 1], s', live') && RepliesRight(c, calls[..i + 1], replies + [reply])
  {
    PrefixSnoc(calls, i);
    BehindStep(c, calls[..i], calls[i], s, live, s', live', reply);
    RepliesSnoc(c, calls[..i], calls[i], replies, reply);
  }

  lemma StoredAreCounted(c: Setup, calls: seq<Call>, live: Cache, s: State)
    requires Behind(c, calls, s, live) && CacheTracks(c.ds, live, s)
    ensures forall p :: UsersOf(Counted(EffectsOf(c, calls), p)) == KeptUsers(c.ds, p, AcceptedUsers(c, calls, p))
    ensures CacheExact(live, s) ==> forall p :: UsersOf(Counted(EffectsOf(c, calls), p)) == AcceptedUsers(c, calls, p)
  {
    forall p
      ensures UsersOf(Counted(EffectsOf(c, calls), p)) == KeptUsers(c.ds, p, AcceptedUsers(c, calls, p))
      ensures CacheExact(live, s) ==> UsersOf(Counted(EffectsOf(c, calls), p)) == AcceptedUsers(c, calls, p)
    {
      RunIsPrescribed(EffectsOf(c, calls), p);
      assert VotersOf(s, p) == UsersOf(Counted(EffectsOf(c, calls), p));
      assert VotersOf(s, p) == KeptUsers(c.ds, p, CacheTable(live, p).Keys);
    }
  }
}
