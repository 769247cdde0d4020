/** The vote service in single-instance mode: fast polls in memory, long polls in postgres, and a
    cache of who has voted. */
module Service {
  import opened Orders
  import opened Contract
  import opened UserIds
  import opened Ballot
  import opened Entitlement
  import opened LiveStream
  import opened Anonymity
  import Memory
  import Postgres
  import Preload

  datatype ServiceReply =
    | Ok
    | ErrNotExists
    | ErrInvalid
    | ErrNotAllowed
    | ErrDoubleVote
    | ErrStopped

  /** The cache: for each poll the votes by user; a cleared poll keeps a nil map. */
  type Cache = map<int, Option<Table>>

  function CacheTable(live: Cache, p: int): Table {
    if p in live && live[p].Some? then live[p].value else map[]
  }

  function ReplyOf(r: Reply): ServiceReply {
    match r
    case NotExist => ErrNotExists
    case DoubleVote => ErrDoubleVote
    case Stopped => ErrStopped
    case _ => Ok
  }

  /** A decoded request body: for whom, and what. */
  datatype Request = Request(user: Option<int>, value: BallotValue)

  function VoteUserOf(r: Request, requestUser: int): int {
    if r.user.Some? then r.user.value else requestUser
  }

  /** The users who have delegated their votes to `u`, in any meeting. */
  ghost function Delegators(ds: Datastore, u: int): set<int> {
    DelegatorsOfMus(ds, ds.meetingUsers(u))
  }

  ghost function DelegatorsOfMus(ds: Datastore, mus: seq<int>): set<int> {
    set mu, d | mu in mus && d in ds.muDelegationsFrom(mu) :: ds.muUser(d)
  }

  method DelegatedUserIDs(ds: Datastore, user: int) returns (users: seq<int>)
    ensures Elements(users) == Delegators(ds, user)
  {
    var mus := ds.meetingUsers(user);
    users := [];
    for i := 0 to |mus|
      invariant Elements(users) == DelegatorsOfMus(ds, mus[..i])
    {
      var more := UsersOfMeetingUsers(ds, ds.muDelegationsFrom(mus[i]));
      assert mus[..i + 1] == mus[..i] + [mus[i]];
      DelegatorsSnoc(ds, mus[..i], mus[i]);
      ElementsConcat(users, more);
      users := users + more;
    }
    assert mus[..|mus|] == mus;
  }

  method UsersOfMeetingUsers(ds: Datastore, mus: seq<int>) returns (users: seq<int>)
    ensures Elements(users) == set d | d in mus :: ds.muUser(d)
  {
    users := [];
    for i := 0 to |mus|
      invariant Elements(users) == set d | d in mus[..i] :: ds.muUser(d)
    {
      assert mus[..i + 1] == mus[..i] + [mus[i]];
      UsersSnoc(ds, mus[..i], mus[i]);
      Snoc(users, ds.muUser(mus[i]));
      users := users + [ds.muUser(mus[i])];
    }
    assert mus[..|mus|] == mus;
  }

  lemma UsersSnoc(ds: Datastore, mus: seq<int>, mu: int)
    ensures (set d | d in mus + [mu] :: ds.muUser(d)) == (set d | d in mus :: ds.muUser(d)) + {ds.muUser(mu)}
  {
  }

  lemma DelegatorsSnoc(ds: Datastore, mus: seq<int>, mu: int)
    ensures DelegatorsOfMus(ds, mus + [mu]) == DelegatorsOfMus(ds, mus) + set d | d in ds.muDelegationsFrom(mu) :: ds.muUser(d)
  {
  }

  /********** The two backends as one **********/

  /** The routing of a poll; polls without configuration count as long. */
  predicate Fast(ds: Datastore, p: int) {
    p in ds.polls && ds.polls[p].backend == "fast"
  }

  /** Each backend holds only polls that are routed to it. */
  ghost predicate Routed(ds: Datastore, f: State, l: State) {
    && (forall p :: p in f ==> Fast(ds, p))
    && (forall p :: p in l ==> !Fast(ds, p))
  }

  /** The operations on one poll that are sent to one backend only. */
  predicate Single(op: Op, p: int) {
    !op.ClearAll? && !op.Clear? && op.poll == p
  }

  /** Such an operation either leaves the state alone or writes the poll, and depends on the poll only. */
  lemma SingleShape(s: State, t: State, op: Op, p: int)
    requires Single(op, p) && SameAt(s, t, p)
    ensures Answer(s, op) == Answer(t, op)
    ensures (Next(s, op) == s && Next(t, op) == t) ||
            (p in Next(s, op) && Next(s, op) == s[p := Next(s, op)[p]] && Next(t, op) == t[p := Next(s, op)[p]])
  {
  }

  lemma FastStep(ds: Datastore, f: State, l: State, op: Op, p: int)
    requires Routed(ds, f, l) && Single(op, p) && Fast(ds, p)
    ensures Answer(f, op) == Answer(f + l, op)
    ensures Next(f, op) + l == Next(f + l, op) && Routed(ds, Next(f, op), l)
  {
    SingleShape(f, f + l, op, p);
    if Next(f, op) != f {
      assert f[p := Next(f, op)[p]] + l == (f + l)[p := Next(f, op)[p]];
    }
  }

  lemma LongStep(ds: Datastore, f: State, l: State, op: Op, p: int)
    requires Routed(ds, f, l) && Single(op, p) && !Fast(ds, p)
    ensures Answer(l, op) == Answer(f + l, op)
    ensures f + Next(l, op) == Next(f + l, op) && Routed(ds, f, Next(l, op))
  {
    SingleShape(l, f + l, op, p);
    if Next(l, op) != l {
      assert f + l[p := Next(l, op)[p]] == (f + l)[p := Next(l, op)[p]];
    }
  }

  /** The cache knows exactly the stored voters of every poll. */
  ghost predicate CacheExact(live: Cache, s: State) {
    forall p :: CacheTable(live, p).Keys == VotersOf(s, p)
  }

  /** The user id under which the backend of `p` keeps a user: postgres cuts it to 32 bits. */
  function KeptUser(ds: Datastore, p: int, u: int): int {
    if Fast(ds, p) then u else ToInt32(u)
  }

  ghost function KeptUsers(ds: Datastore, p: int, us: set<int>): set<int> {
    set u | u in us :: KeptUser(ds, p, u)
  }

  function KeptOp(ds: Datastore, op: Op): Op {
    if op.Vote? then op.(user := KeptUser(ds, op.poll, op.user)) else op
  }

  /** The stored voters of every poll are the cached users, as the backend keeps them. */
  ghost predicate CacheTracks(ds: Datastore, live: Cache, s: State) {
    forall p :: VotersOf(s, p) == KeptUsers(ds, p, CacheTable(live, p).Keys)
  }

  ghost predicate LiveFits(ds: Datastore, live: Cache) {
    forall p, u :: u in CacheTable(live, p) ==> KeptUser(ds, p, u) == u
  }

  lemma KeptTwice(ds: Datastore, p: int, u: int)
    ensures KeptUser(ds, p, KeptUser(ds, p, u)) == KeptUser(ds, p, u)
  {
  }

  lemma KeptAll(ds: Datastore, p: int, us: set<int>)
    ensures KeptUsers(ds, p, us) == us <==> forall u :: u in us ==> KeptUser(ds, p, u) == u
  {
    if KeptUsers(ds, p, us) == us {
      forall u | u in us ensures KeptUser(ds, p, u) == u {
        assert u in KeptUsers(ds, p, us);
        var v :| v in us && KeptUser(ds, p, v) == u;
        KeptTwice(ds, p, v);
      }
    }
    if forall u :: u in us ==> KeptUser(ds, p, u) == u {
      forall u ensures u in KeptUsers(ds, p, us) <==> u in us {
        assert u in us ==> KeptUser(ds, p, u) in KeptUsers(ds, p, us);
      }
    }
  }

  /** The cache is exact iff all its user ids fit. */
  lemma ExactIff(ds: Datastore, live: Cache, s: State)
    requires CacheTracks(ds, live, s)
    ensures CacheExact(live, s) <==> LiveFits(ds, live)
  {
    forall p ensures CacheTable(live, p).Keys == VotersOf(s, p) <==>
                     forall u :: u in CacheTable(live, p) ==> KeptUser(ds, p, u) == u
    {
      assert VotersOf(s, p) == KeptUsers(ds, p, CacheTable(live, p).Keys);
      KeptAll(ds, p, CacheTable(live, p).Keys);
    }
  }

  lemma CacheUnchanged(ds: Datastore, live: Cache, s: State, op: Op)
    requires CacheTracks(ds, live, s) && (op.Start? || op.Stop? || (op.Vote? && Answer(s, op) != Done))
    ensures CacheTracks(ds, live, Next(s, op)) && (CacheExact(live, s) ==> CacheExact(live, Next(s, op)))
  {
    forall p
      ensures VotersOf(Next(s, op), p) == KeptUsers(ds, p, CacheTable(live, p).Keys)
      ensures CacheExact(live, s) ==> CacheTable(live, p).Keys == VotersOf(Next(s, op), p)
    {
      VotersSame(s, op, p);
      assert VotersOf(s, p) == KeptUsers(ds, p, CacheTable(live, p).Keys);
    }
  }

  lemma VotersSame(s: State, op: Op, p: int)
    requires op.Start? || op.Stop? || (op.Vote? && Answer(s, op) != Done)
    ensures VotersOf(Next(s, op), p) == VotersOf(s, p)
  {
  }

  /** The cache with an accepted vote; only named votes are kept in clear. */
  ghost function Recalled(live: Cache, op: Op, named: bool): Cache
    requires op.Vote?
  {
    live[op.poll := Some(CacheTable(live, op.poll)[op.user := if named then Some(op.vote) else None])]
  }

  lemma RecalledUsers(live: Cache, op: Op, named: bool, p: int)
    requires op.Vote?
    ensures CacheTable(Recalled(live, op, named), p).Keys == CacheTable(live, p).Keys + if p == op.poll then {op.user} else {}
  {
  }

  lemma KeptOneMore(ds: Datastore, p: int, us: set<int>, u: int)
    ensures KeptUsers(ds, p, us + {u}) == KeptUsers(ds, p, us) + {KeptUser(ds, p, u)}
  {
  }

  lemma CacheVoted(ds: Datastore, live: Cache, s: State, op: Op, named: bool)
    requires CacheTracks(ds, live, s) && op.Vote? && Answer(s, KeptOp(ds, op)) == Done
    ensures CacheTracks(ds, Recalled(live, op, named), Next(s, KeptOp(ds, op)))
  {
    NextVote(s, op.poll, KeptOp(ds, op).user, op.vote);
    forall p ensures VotersOf(Next(s, KeptOp(ds, op)), p) == KeptUsers(ds, p, CacheTable(Recalled(live, op, named), p).Keys) {
      assert VotersOf(s, p) == KeptUsers(ds, p, CacheTable(live, p).Keys);
      RecalledUsers(live, op, named, p);
      KeptOneMore(ds, p, CacheTable(live, p).Keys, op.user);
    }
  }

  /** An accepted vote keeps the cache exact iff the backend keeps it under the same user id. */
  lemma CacheVotedIff(ds: Datastore, live: Cache, s: State, op: Op, named: bool)
    requires CacheTracks(ds, live, s) && CacheExact(live, s) && op.Vote? && Answer(s, KeptOp(ds, op)) == Done
    ensures CacheExact(Recalled(live, op, named), Next(s, KeptOp(ds, op))) <==> KeptOp(ds, op) == op
  {
    CacheVoted(ds, live, s, op, named);
    ExactIff(ds, live, s);
    ExactIff(ds, Recalled(live, op, named), Next(s, KeptOp(ds, op)));
    FitsRecalled(ds, live, op, named);
  }

  lemma FitsRecalled(ds: Datastore, live: Cache, op: Op, named: bool)
    requires op.Vote? && LiveFits(ds, live)
    ensures LiveFits(ds, Recalled(live, op, named)) <==> KeptOp(ds, op) == op
  {
    var live' := Recalled(live, op, named);
    assert op.user in CacheTable(live', op.poll);
    if KeptOp(ds, op) == op {
      forall p, u | u in CacheTable(live', p) ensures KeptUser(ds, p, u) == u {
        RecalledUsers(live, op, named, p);
        assert u in CacheTable(live, p) || (p == op.poll && u == op.user);
      }
    }
  }

  /** The cache behind a vote. */
  ghost function AfterVote(ds: Datastore, live: Cache, s: State, op: Op, named: bool): Cache
    requires op.Vote?
  {
    if Answer(s, KeptOp(ds, op)) == Done then Recalled(live, op, named) else live
  }

  lemma CacheAfterVote(ds: Datastore, live: Cache, s: State, op: Op, named: bool)
    requires CacheTracks(ds, live, s) && op.Vote?
    ensures CacheTracks(ds, AfterVote(ds, live, s, op, named), Next(s, KeptOp(ds, op)))
    ensures CacheExact(live, s) ==>
              (CacheExact(AfterVote(ds, live, s, op, named), Next(s, KeptOp(ds, op))) <==>
               Answer(s, KeptOp(ds, op)) != Done || KeptOp(ds, op) == op)
    ensures ReplyOf(Answer(s, KeptOp(ds, op))) == Ok <==> Answer(s, KeptOp(ds, op)) == Done
  {
    if Answer(s, KeptOp(ds, op)) == Done {
      CacheVoted(ds, live, s, op, named);
      if CacheExact(live, s) {
        CacheVotedIff(ds, live, s, op, named);
      }
    } else {
      CacheUnchanged(ds, live, s, KeptOp(ds, op));
    }
  }

  lemma CacheCleared(ds: Datastore, live: Cache, s: State, p: int)
    requires CacheTracks(ds, live, s)
    ensures CacheTracks(ds, live[p := None], Next(s, Clear(p)))
  {
    forall q ensures VotersOf(Next(s, Clear(p)), q) == KeptUsers(ds, q, CacheTable(live[p := None], q).Keys) {
      assert VotersOf(s, q) == KeptUsers(ds, q, CacheTable(live, q).Keys);
    }
  }

  lemma FitsWithout(ds: Datastore, live: Cache, s: State, p: int)
    requires CacheTracks(ds, live, s)
    ensures CacheExact(live, s) ==> CacheExact(live[p := None], Next(s, Clear(p)))
  {
    CacheCleared(ds, live, s, p);
    ExactIff(ds, live, s);
    ExactIff(ds, live[p := None], Next(s, Clear(p)));
    forall q, u | u in CacheTable(live[p := None], q) ensures u in CacheTable(live, q) {
      assert q != p;
    }
  }

  lemma AllCleared(ds: Datastore, f: State, l: State)
    ensures Next(f, ClearAll) + Next(l, ClearAll) == Next(f + l, ClearAll)
    ensures Routed(ds, Next(f, ClearAll), Next(l, ClearAll)) && CacheTracks(ds, map[], Next(f + l, ClearAll))
    ensures CacheExact(map[], Next(f + l, ClearAll))
  {
  }

  /** No vote of these polls is in clear. */
  ghost predicate AllHidden(live: Cache, ps: set<int>) {
    forall p, u :: p in ps && u in CacheTable(live, p) ==> CacheTable(live, p)[u] == None
  }

  lemma CacheLoaded(ds: Datastore, fastLive: LiveTable, longLive: LiveTable, f: State, l: State)
    requires Routed(ds, f, l) && longLive.Keys == l.Keys
    requires forall p :: ListedVoters(fastLive, p) == VotersOf(f, p)
    requires forall p :: ListedVoters(longLive, p) == VotersOf(l, p)
    requires forall p, u :: p in fastLive && u in fastLive[p] ==> fastLive[p][u].Some?
    requires forall p, u :: p in longLive && u in longLive[p] ==> longLive[p][u] == None
    ensures var all := fastLive + longLive; var live: Cache := map p | p in all :: Some(all[p]);
            CacheExact(live, f + l) && AllHidden(live, l.Keys) && forall p :: !Mixed(CacheTable(live, p))
  {
    var all := fastLive + longLive;
    var live: Cache := map p | p in all :: Some(all[p]);
    forall p ensures CacheTable(live, p).Keys == VotersOf(f + l, p) {
      assert ListedVoters(fastLive, p) == VotersOf(f, p);
      assert ListedVoters(longLive, p) == VotersOf(l, p);
    }
  }

  /** What is loaded fits, since postgres holds 32-bit ids only. */
  lemma LoadedTracks(ds: Datastore, live: Cache, f: State, l: State)
    requires CacheExact(live, f + l) && Routed(ds, f, l)
    requires forall p, u :: u in VotersOf(l, p) ==> -TWO31 <= u < TWO31
    ensures CacheTracks(ds, live, f + l)
  {
    forall p ensures VotersOf(f + l, p) == KeptUsers(ds, p, CacheTable(live, p).Keys) {
      assert CacheTable(live, p).Keys == VotersOf(f + l, p);
      forall u | u in VotersOf(f + l, p) ensures KeptUser(ds, p, u) == u {
        assert !Fast(ds, p) ==> u in VotersOf(l, p);
      }
      KeptAll(ds, p, VotersOf(f + l, p));
    }
  }

  /********** What a vote request is answered **********/

  /** The request passes all checks before the backend. */
  ghost predicate Passes(ds: Datastore, p: int, requestUser: int, req: Request) {
    && p in ds.polls
    && Entitled(ds, ds.polls[p], VoteUserOf(req, requestUser), requestUser)
    && Acceptable(ds.polls[p], req.value)
  }

  /** The answer to a request, given what the backend would answer. */
  ghost function VoteOutcome(ds: Datastore, p: int, requestUser: int, req: Request, answer: Reply): ServiceReply {
    if p !in ds.polls then ErrNotExists
    else if !Entitled(ds, ds.polls[p], VoteUserOf(req, requestUser), requestUser) then ErrNotAllowed
    else if !Acceptable(ds.polls[p], req.value) then ErrInvalid
    else ReplyOf(answer)
  }

  /** The operation that a request asks of the backend of the poll. */
  ghost function OpFor(ds: Datastore, marshal: VoteData -> Object, fixed: real -> string,
                       p: int, requestUser: int, req: Request): Op
    requires p in ds.polls
  {
    var poll, u := ds.polls[p], VoteUserOf(req, requestUser);
    Op.Vote(p, u, VoteObject(marshal, poll.kind == "named", requestUser, u, req.value.original, fixed(WeightOf(ds, poll, u))))
  }

  /** For whom a request votes: for the user it names, else for its sender; that user is checked, and
      that user's vote is stored. */
  lemma RequestOwner(ds: Datastore, marshal: VoteData -> Object, fixed: real -> string, p: int, requestUser: int, req: Request)
    requires p in ds.polls
    ensures var owner := match req.user case Some(u) => u case None => requestUser;
            && OpFor(ds, marshal, fixed, p, requestUser, req).user == owner
            && (Passes(ds, p, requestUser, req) <==>
                Entitled(ds, ds.polls[p], owner, requestUser) && Acceptable(ds.polls[p], req.value))
  {
  }

  /** What is stored: with sender and owner in a named poll, else without any user id; always with the
      value as it was sent and the owner's weight. */
  lemma RequestObject(ds: Datastore, marshal: VoteData -> Object, fixed: real -> string, p: int, requestUser: int, req: Request)
    requires p in ds.polls
    ensures var owner := match req.user case Some(u) => u case None => requestUser;
            var weight := fixed(WeightOf(ds, ds.polls[p], owner));
            OpFor(ds, marshal, fixed, p, requestUser, req).vote ==
            if ds.polls[p].kind == "named" then marshal(VoteData(requestUser, owner, req.value.original, weight))
            else marshal(VoteData(0, 0, req.value.original, weight))
  {
  }

  /** The errors by their class. */
  lemma OutcomeClasses(ds: Datastore, p: int, requestUser: int, req: Request)
    ensures Passes(ds, p, requestUser, req) ==>
              && VoteOutcome(ds, p, requestUser, req, Done) == Ok
              && VoteOutcome(ds, p, requestUser, req, NotExist) == ErrNotExists
              && VoteOutcome(ds, p, requestUser, req, Reply.DoubleVote) == ErrDoubleVote
              && VoteOutcome(ds, p, requestUser, req, Reply.Stopped) == ErrStopped
  {
  }

  /** Such a vote has its owner among the stored voters and the cached users. */
  lemma OwnerListed(ds: Datastore, live: Cache, s: State, op: Op, named: bool)
    requires op.Vote? && Answer(s, KeptOp(ds, op)) == Done
    ensures KeptUser(ds, op.poll, op.user) in VotersOf(Next(s, KeptOp(ds, op)), op.poll)
    ensures op.user in CacheTable(AfterVote(ds, live, s, op, named), op.poll)
  {
    NextVote(s, op.poll, KeptOp(ds, op).user, op.vote);
    RecalledUsers(live, op, named, op.poll);
  }

  class VoteService {
    const ds: Datastore
    const marshal: VoteData -> Object
    const fixed: real -> string
    const fast: Memory.Backend
    const long: Postgres.Backend
    var live: Cache

    /** The polls of both backends. */
    ghost function Polls(): State
      reads fast, long
    {
      fast.Abs() + long.Abs()
    }

    ghost predicate Sound()
      reads fast, long
    {
      fast.Valid() && long.Valid() && Routed(ds, fast.Abs(), long.Abs())
    }

    ghost predicate Valid()
      reads this, fast, long
    {
      Sound() && CacheTracks(ds, live, Polls())
    }

    /** The cache knows exactly the stored voters. */
    ghost predicate Exact()
      reads this, fast, long
    {
      Valid() && CacheExact(live, Polls())
    }

    /** Starts over backends that may hold polls from before. */
    constructor (ds: Datastore, marshal: VoteData -> Object, fixed: real -> string,
                 fast: Memory.Backend, long: Postgres.Backend)
      requires fast.Valid() && long.Valid() && Routed(ds, fast.Abs(), long.Abs())
      ensures Exact() && this.ds == ds && this.fast == fast && this.long == long
      ensures this.marshal == marshal && this.fixed == fixed
      ensures AllHidden(live, long.Abs().Keys)
      ensures forall p :: !Mixed(CacheTable(live, p))
    {
      this.ds := ds;
      this.marshal := marshal;
      this.fixed := fixed;
      this.fast := fast;
      this.long := long;
      live := map[];
      new;
      LoadVoted();
    }

    method LoadVoted()
      requires Sound()
      modifies this
      ensures Exact() && AllHidden(live, long.Abs().Keys)
      ensures forall p :: !Mixed(CacheTable(live, p))
    {
      var combined := fast.LiveVotes();
      var longData := long.LiveVotes();
      CacheLoaded(ds, combined, longData, fast.Abs(), long.Abs());
      var all := combined + longData;
      live := map p | p in all :: Some(all[p]);
      forall p, u | u in VotersOf(long.Abs(), p) ensures -TWO31 <= u < TWO31 {
        LongVotersFit(long, p, u);
      }
      LoadedTracks(ds, live, fast.Abs(), long.Abs());
    }

    method Start(p: int) returns (r: ServiceReply)
      requires Valid()
      modifies fast, long
      ensures Valid() && (old(Exact()) ==> Exact())
      ensures r == if p !in ds.polls then ErrNotExists else if ds.polls[p].kind == "analog" then ErrInvalid else Ok
      ensures Polls() == if r == Ok then Next(old(Polls()), Op.Start(p)) else old(Polls())
      ensures r == Ok ==>
                (p in fast.Abs() <==> ds.polls[p].backend == "fast") && (p in long.Abs() <==> ds.polls[p].backend != "fast")
    {
      if p !in ds.polls {
        return ErrNotExists;
      }
      if ds.polls[p].kind == "analog" {
        return ErrInvalid;
      }
      var warmed := Preload.PreloadPoll(ds, ds.polls[p]);
      ghost var before := Polls();
      StartIn(p);
      KnownAfter(before, Op.Start(p), p);
      r := Ok;
    }

    /** The start in the backend of the poll. */
    method StartIn(p: int)
      requires Valid()
      modifies fast, long
      ensures Valid() && (old(Exact()) ==> Exact()) && Polls() == Next(old(Polls()), Op.Start(p))
    {
      ghost var before := Polls();
      CacheUnchanged(ds, live, before, Op.Start(p));
      if Fast(ds, p) {
        FastStep(ds, fast.Abs(), long.Abs(), Op.Start(p), p);
        fast.Start(p);
      } else {
        LongStep(ds, fast.Abs(), long.Abs(), Op.Start(p), p);
        long.Start(p);
      }
      assert Polls() == Next(before, Op.Start(p));
    }

    method Stop(p: int) returns (r: ServiceReply, votes: seq<Object>, users: seq<int>)
      requires Valid()
      modifies fast, long
      ensures Valid() && (old(Exact()) ==> Exact())
      ensures p !in ds.polls ==> r == ErrNotExists && Polls() == old(Polls())
      ensures p in ds.polls ==>
                && Polls() == Next(old(Polls()), Op.Stop(p))
                && (r == Ok <==> p in old(Polls())) && (r != Ok ==> r == ErrNotExists)
                && (r == Ok ==>
                      Tally(users, multiset(votes)) ==
                      if Fast(ds, p) then Answer(old(Polls()), Op.Stop(p)) else Postgres.Shown(Answer(old(Polls()), Op.Stop(p))))
    {
      if p !in ds.polls {
        return ErrNotExists, [], [];
      }
      CacheUnchanged(ds, live, Polls(), Op.Stop(p));
      var found;
      found, votes, users := StopIn(p);
      r := if found then Ok else ErrNotExists;
    }

    /** The stop in the backend of the poll. */
    method StopIn(p: int) returns (found: bool, votes: seq<Object>, users: seq<int>)
      requires Sound()
      modifies fast, long
      ensures Sound() && Polls() == Next(old(Polls()), Op.Stop(p))
      ensures StopReply(found, votes, users) ==
              if Fast(ds, p) then Answer(old(Polls()), Op.Stop(p)) else Postgres.Shown(Answer(old(Polls()), Op.Stop(p)))
    {
      if Fast(ds, p) {
        FastStep(ds, fast.Abs(), long.Abs(), Op.Stop(p), p);
        found, votes, users := fast.Stop(p);
      } else {
        LongStep(ds, fast.Abs(), long.Abs(), Op.Stop(p), p);
        found, votes, users := long.Stop(p);
      }
    }

    method Clear(p: int)
      requires Valid()
      modifies this, fast, long
      ensures Valid() && (old(Exact()) ==> Exact()) && Polls() == Next(old(Polls()), Op.Clear(p))
      ensures live == old(live)[p := None]
    {
      FitsWithout(ds, live, Polls(), p);
      CacheCleared(ds, live, Polls(), p);
      ClearStored(p);
      Forget(p);
    }

    /** The clear in the backends. */
    method ClearStored(p: int)
      requires Sound()
      modifies fast, long
      ensures Sound() && Polls() == Next(old(Polls()), Op.Clear(p))
    {
      ClearBoth(ds, fast.Abs(), long.Abs(), p);
      fast.Clear(p);
      long.Clear(p);
    }

    /** The clear in the cache under its lock. */
    method Forget(p: int)
      modifies this`live
      ensures live == old(live)[p := None]
    {
      live := live[p := None];
    }

    method ClearAll()
      requires Valid()
      modifies this, fast, long
      ensures Exact() && Polls() == Next(old(Polls()), Op.ClearAll) && live == map[]
    {
      fast.ClearAll();
      long.ClearAll();
      live := map[];
      AllCleared(ds, old(fast.Abs()), old(long.Abs()));
    }

    method Vote(p: int, requestUser: int, req: Request) returns (r: ServiceReply)
      requires Valid()
      modifies this, fast, long
      ensures Valid()
      ensures p !in ds.polls ==> r == ErrNotExists
      ensures p in ds.polls ==>
                r == VoteOutcome(ds, p, requestUser, req,
                                 Answer(old(Polls()), KeptOp(ds, OpFor(ds, marshal, fixed, p, requestUser, req))))
      ensures Passes(ds, p, requestUser, req) ==>
                var op := OpFor(ds, marshal, fixed, p, requestUser, req);
                && Polls() == Next(old(Polls()), KeptOp(ds, op))
                && live == AfterVote(ds, old(live), old(Polls()), op, ds.polls[p].kind == "named")
                && (r == Ok <==> Answer(old(Polls()), KeptOp(ds, op)) == Done)
                && (old(Exact()) ==> (Exact() <==> r != Ok || KeptOp(ds, op) == op))
      ensures !Passes(ds, p, requestUser, req) ==> r != Ok && Polls() == old(Polls()) && live == old(live)
      ensures r == Ok && req.user.Some? ==>
                KeptUser(ds, p, req.user.value) in VotersOf(Polls(), p) && req.user.value in CacheTable(live, p)
      ensures r == Ok && req.user.None? ==>
                KeptUser(ds, p, requestUser) in VotersOf(Polls(), p) && requestUser in CacheTable(live, p)
    {
      if p !in ds.polls {
        return ErrNotExists;
      }
      var poll := ds.polls[p];
      var voteUser := VoteUserOf(req, requestUser);
      var ok, weight, keys := Authorize(ds, poll, voteUser, requestUser);
      if !ok {
        return ErrNotAllowed;
      }
      var valid := Validate(poll, req.value);
      if !valid {
        return ErrInvalid;
      }
      var bs := VoteObject(marshal, poll.kind == "named", requestUser, voteUser, req.value.original, fixed(weight));
      ghost var before, cached, op := Polls(), live, Op.Vote(p, voteUser, bs);
      r := Cast(p, voteUser, bs, poll.kind == "named");
      if r == Ok {
        OwnerListed(ds, cached, before, op, poll.kind == "named");
      }
    }

    /** The vote is saved and, if that worked, remembered; only named votes are remembered in clear. */
    method Cast(p: int, voteUser: int, bs: Object, named: bool) returns (r: ServiceReply)
      requires Valid()
      modifies this, fast, long
      ensures Valid()
      ensures var op := Op.Vote(p, voteUser, bs);
              && r == ReplyOf(Answer(old(Polls()), KeptOp(ds, op)))
              && Polls() == Next(old(Polls()), KeptOp(ds, op))
              && live == AfterVote(ds, old(live), old(Polls()), op, named)
              && (r == Ok <==> Answer(old(Polls()), KeptOp(ds, op)) == Done)
              && (old(Exact()) ==> (Exact() <==> r != Ok || KeptOp(ds, op) == op))
    {
      ghost var before, cached, op := Polls(), live, Op.Vote(p, voteUser, bs);
      CacheAfterVote(ds, live, Polls(), op, named);
      var saved := Save(p, voteUser, bs);
      if saved == Done {
        Remember(p, voteUser, bs, named);
      }
      assert live == AfterVote(ds, cached, before, op, named);
      assert Polls() == Next(before, KeptOp(ds, op));
      r := ReplyOf(saved);
    }

    /** The write into the cache under its lock. */
    method Remember(p: int, u: int, bs: Object, named: bool)
      modifies this`live
      ensures live == Recalled(old(live), Op.Vote(p, u, bs), named)
    {
      var shown := if named then Some(bs) else None;
      if p !in live || live[p].None? {
        live := live[p := Some(map[])];
      }
      live := live[p := Some(live[p].value[u := shown])];
    }

    /** The vote in the backend of the poll. */
    method Save(p: int, voteUser: int, bs: Object) returns (saved: Reply)
      requires Sound()
      modifies fast, long
      ensures Sound()
      ensures saved == Answer(old(Polls()), KeptOp(ds, Op.Vote(p, voteUser, bs)))
      ensures Polls() == Next(old(Polls()), KeptOp(ds, Op.Vote(p, voteUser, bs)))
    {
      if Fast(ds, p) {
        FastStep(ds, fast.Abs(), long.Abs(), Op.Vote(p, voteUser, bs), p);
        saved := fast.Vote(p, voteUser, bs);
      } else {
        LongStep(ds, fast.Abs(), long.Abs(), Postgres.Narrow(Op.Vote(p, voteUser, bs)), p);
        saved := long.Vote(p, voteUser, bs);
      }
    }

    /** For each requested poll the users who have voted, of those the caller may ask about. */
    method Voted(pollIDs: seq<int>, requestUser: int) returns (out: map<int, seq<int>>)
      requires Valid()
      ensures out.Keys == Elements(pollIDs)
      ensures forall p :: p in out ==>
                && Distinct(out[p])
                && Elements(out[p]) == CacheTable(live, p).Keys * ({requestUser} + Delegators(ds, requestUser))
                && (Exact() ==> Elements(out[p]) == VotersOf(Polls(), p) * ({requestUser} + Delegators(ds, requestUser)))
    {
      var delegators := DelegatedUserIDs(ds, requestUser);
      var wanted := {requestUser} + (set u | u in delegators);
      assert wanted == {requestUser} + Delegators(ds, requestUser);
      out := VotedIn(live, pollIDs, wanted);
      forall p | p in out ensures Exact() ==> Elements(out[p]) == VotersOf(Polls(), p) * wanted {
        assert Exact() ==> CacheTable(live, p).Keys == VotersOf(Polls(), p);
      }
    }

    /** Snapshot for the stream, for the order in which Go happens to iterate. */
    method AllLiveVotes(it: Iteration) returns (snap: Snapshot, panicked: bool)
      requires Iterates(it, live)
      ensures panicked <==> Crashes(ds, live, it)
      ensures !panicked ==> Pictures(ds, live, snap)
    {
      snap, panicked := map[], false;
      for i := 0 to |it.polls|
        invariant snap.Keys == Elements(it.polls[..i]) * ds.polls.Keys
        invariant forall p :: p in snap ==> snap[p] == ExpectedCell(ds.polls[p], CacheTable(live, p))
        invariant !panicked && forall j :: 0 <= j < i ==> !CrashesAt(ds, live, it, it.polls[j])
      {
        var p := it.polls[i];
        assert p in Elements(it.polls);
        assert it.polls[..i + 1] == it.polls[..i] + [p];
        Snoc(it.polls[..i], p);
        if p in ds.polls {
          var cell;
          cell, panicked := LiveCell(it.users[p], CacheTable(live, p), Shows(ds.polls[p]));
          EnumeratesIn(it.users[p], CacheTable(live, p));
          if panicked {
            assert CrashesAt(ds, live, it, p);
            return;
          }
          snap := snap[p := cell];
        }
      }
      assert it.polls[..|it.polls|] == it.polls;
    }
  }

  /********** Reading the cache **********/

  method VotedIn(live: Cache, pollIDs: seq<int>, wanted: set<int>) returns (out: map<int, seq<int>>)
    ensures out.Keys == Elements(pollIDs)
    ensures forall p :: p in out ==> Distinct(out[p]) && Elements(out[p]) == CacheTable(live, p).Keys * wanted
  {
    out := map[];
    var requested := set p | p in pollIDs;
    var left := live.Keys;
    while left != {}
      invariant left <= live.Keys && out.Keys <= (live.Keys - left) * requested
      invariant forall p :: p in live && p !in left && p in requested && p !in out ==> CacheTable(live, p).Keys * wanted == {}
      invariant forall p :: p in out ==> Distinct(out[p]) && Elements(out[p]) == CacheTable(live, p).Keys * wanted
      decreases left
    {
      var p := AnyOf(left);
      left := left - {p};
      if p in requested {
        var users := Filter(CacheTable(live, p).Keys, wanted);
        if users != [] {
          out := out[p := users];
        } else {
          assert Elements(users) == {};
        }
      }
    }
    for i := 0 to |pollIDs|
      invariant out.Keys <= requested && Elements(pollIDs[..i]) <= out.Keys
      invariant forall p :: p in requested && p !in out ==> CacheTable(live, p).Keys * wanted == {}
      invariant forall p :: p in out ==> Distinct(out[p]) && Elements(out[p]) == CacheTable(live, p).Keys * wanted
    {
      assert pollIDs[..i + 1] == pollIDs[..i] + [pollIDs[i]];
      Snoc(pollIDs[..i], pollIDs[i]);
      if pollIDs[i] !in out {
        var none: seq<int> := [];
        assert Elements(none) == {};
        out := out[pollIDs[i] := none];
      }
    }
    assert pollIDs[..|pollIDs|] == pollIDs;
  }

  /** The wanted ones of the users of a poll, in the order of the map. */
  method Filter(users: set<int>, wanted: set<int>) returns (out: seq<int>)
    ensures Distinct(out) && Elements(out) == users * wanted
  {
    out := [];
    var left := users;
    while left != {}
      invariant left <= users && Distinct(out) && Elements(out) == (users - left) * wanted
      decreases left
    {
      var u := AnyOf(left);
      if u in wanted {
        Snoc(out, u);
        out := out + [u];
      }
      left := left - {u};
    }
  }

  /** Votes are sent in clear only for named polls with live voting. */
  predicate Shows(poll: PollConfig) {
    poll.liveVoting && poll.kind == "named"
  }

  ghost predicate SomeHidden(t: Table) {
    exists u :: u in t && t[u].None?
  }

  /** Some votes are known in clear and some are not, as after a restart of a long named poll. */
  ghost predicate Mixed(t: Table) {
    SomeHidden(t) && exists u :: u in t && t[u].Some?
  }

  function Hidden(t: Table): Table {
    map u | u in t :: None
  }

  ghost function ExpectedCell(poll: PollConfig, t: Table): Cell {
    if !Shows(poll) then Votes(Hidden(t)) else if SomeHidden(t) then NilMap else Votes(t)
  }

  /** The snapshot lists the cached polls that are configured, each with its expected cell. */
  ghost predicate Pictures(ds: Datastore, live: Cache, snap: Snapshot) {
    && snap.Keys == live.Keys * ds.polls.Keys
    && forall p :: p in snap ==> snap[p] == ExpectedCell(ds.polls[p], CacheTable(live, p))
  }

  /** A listener sees who has voted on a poll that is not named or without live voting, and no vote. */
  lemma PicturedHidden(ds: Datastore, live: Cache, snap: Snapshot, p: int)
    requires Pictures(ds, live, snap) && p in snap && (!ds.polls[p].liveVoting || ds.polls[p].kind != "named")
    ensures snap[p].Votes? && snap[p].table.Keys == CacheTable(live, p).Keys
    ensures forall u :: u in snap[p].table ==> snap[p].table[u] == None
  {
  }

  /** And all votes of a named poll with live voting, if none of them is hidden. */
  lemma PicturedShown(ds: Datastore, live: Cache, snap: Snapshot, p: int)
    requires Pictures(ds, live, snap) && p in snap && ds.polls[p].liveVoting && ds.polls[p].kind == "named"
    requires forall u :: u in CacheTable(live, p) ==> CacheTable(live, p)[u].Some?
    ensures snap[p] == Votes(CacheTable(live, p))
  {
  }

  /** `order` lists every key once. */
  ghost predicate Enumerates(order: seq<int>, keys: set<int>) {
    Elements(order) == keys && Distinct(order)
  }

  ghost predicate Inside(order: seq<int>, t: Table) {
    forall i :: 0 <= i < |order| ==> order[i] in t
  }

  lemma EnumeratesIn(order: seq<int>, t: Table)
    requires Enumerates(order, t.Keys)
    ensures Inside(order, t)
  {
    assert forall i :: 0 <= i < |order| ==> order[i] in Elements(order);
  }

  /** The inner loop of AllLiveVotes over the users of one poll. */
  method LiveCell(order: seq<int>, t: Table, shows: bool) returns (cell: Cell, panicked: bool)
    requires Enumerates(order, t.Keys)
    ensures Inside(order, t)
    ensures panicked <==> shows && LiveFold(order, t).None?
    ensures !panicked ==> cell == if !shows then Votes(Hidden(t)) else if SomeHidden(t) then NilMap else Votes(t)
  {
    EnumeratesIn(order, t);
    if shows {
      cell, panicked := ShownCell(order, t);
      if !panicked {
        FoldedCell(order, t);
      }
    } else {
      var table := HiddenTable(order, t);
      cell, panicked := Votes(table), false;
    }
  }

  lemma TablesEqual(a: Table, b: Table)
    requires a.Keys == b.Keys
    requires forall u :: u in a ==> a[u] == b[u]
    ensures a == b
  {
    assert forall u :: u in a <==> u in b;
    assert forall u :: u in b ==> a[u] == b[u];
  }

  method HiddenTable(order: seq<int>, t: Table) returns (table: Table)
    requires Enumerates(order, t.Keys)
    ensures table == Hidden(t)
  {
    table := map[];
    for i := 0 to |order|
      invariant table.Keys == Elements(order[..i]) && forall u :: u in table ==> table[u] == None
    {
      assert order[..i + 1] == order[..i] + [order[i]];
      Snoc(order[..i], order[i]);
      table := table[order[i] := None];
    }
    assert order[..|order|] == order;
    TablesEqual(table, Hidden(t));
  }

  /** The loop for a named poll with live voting: a hidden vote makes the map nil, and a vote in clear
      behind it is written into the nil map. */
  method ShownCell(order: seq<int>, t: Table) returns (cell: Cell, panicked: bool)
    requires Inside(order, t)
    ensures panicked <==> LiveFold(order, t).None?
    ensures !panicked ==> LiveFold(order, t) == Some(cell)
  {
    cell, panicked := Votes(map[]), false;
    for i := 0 to |order|
      invariant !panicked && LiveFold(order[..i], t) == Some(cell)
    {
      var u := order[i];
      assert order[..i + 1][..i] == order[..i];
      if t[u].None? {
        cell := NilMap;
      } else if cell.NilMap? {
        panicked := true;
        CrashStays(order, i + 1, t);
        return;
      } else {
        cell := Votes(cell.table[u := t[u]]);
      }
    }
    assert order[..|order|] == order;
  }

  /** What the loop computes for a given order of iteration; None is the crash. */
  function LiveFold(order: seq<int>, t: Table): Option<Cell>
    requires forall i :: 0 <= i < |order| ==> order[i] in t
  {
    if order == [] then Some(Votes(map[])) else
      var u := order[|order| - 1];
      var before := LiveFold(order[..|order| - 1], t);
      if before.None? then None
      else if t[u].None? then Some(NilMap)
      else if before.value.NilMap? then None
      else Some(Votes(before.value.table[u := t[u]]))
  }

  lemma {:induction false} CrashStays(order: seq<int>, n: nat, t: Table)
    requires Inside(order, t) && n <= |order| && LiveFold(order[..n], t).None?
    ensures LiveFold(order, t).None?
    decreases |order|
  {
    if n == |order| {
      assert order[..n] == order;
    } else {
      assert order[..|order| - 1][..n] == order[..n];
      CrashStays(order[..|order| - 1], n, t);
    }
  }

  lemma {:induction false} FoldNilIff(order: seq<int>, t: Table)
    requires Inside(order, t)
    ensures LiveFold(order, t).None? <==> exists i, j :: 0 <= i < j < |order| && t[order[i]].None? && t[order[j]].Some?
    ensures LiveFold(order, t).Some? ==>
              (LiveFold(order, t).value.NilMap? <==> exists i :: 0 <= i < |order| && t[order[i]].None?)
  {
    if order != [] {
      var n, front := |order| - 1, order[..|order| - 1];
      FoldNilIff(front, t);
      assert forall i :: 0 <= i < n ==> front[i] == order[i];
    }
  }

  lemma {:induction false} FoldVotes(order: seq<int>, t: Table)
    requires Inside(order, t) && LiveFold(order, t).Some? && LiveFold(order, t).value.Votes?
    ensures var table := LiveFold(order, t).value.table;
            table.Keys == Elements(order) && forall u :: u in table ==> u in t && table[u] == t[u]
  {
    if order != [] {
      var front, u := order[..|order| - 1], order[|order| - 1];
      FoldVotes(front, t);
      assert order == front + [u];
      Snoc(front, u);
    }
  }

  /** Without a crash the order does not matter. */
  lemma FoldedCell(order: seq<int>, t: Table)
    requires Enumerates(order, t.Keys) && Inside(order, t) && LiveFold(order, t).Some?
    ensures LiveFold(order, t).value == if SomeHidden(t) then NilMap else Votes(t)
  {
    FoldNilIff(order, t);
    if SomeHidden(t) {
      var u :| u in t && t[u].None?;
      assert u in Elements(order);
      var i :| 0 <= i < |order| && order[i] == u;
    } else {
      FoldVotes(order, t);
      TablesEqual(LiveFold(order, t).value.table, t);
    }
  }

  /** The orders in which Go happens to iterate: over the cached polls, and over the users of each. */
  datatype Iteration = Iteration(polls: seq<int>, users: map<int, seq<int>>)

  ghost predicate Iterates(it: Iteration, live: Cache) {
    && Enumerates(it.polls, live.Keys)
    && forall p :: p in live ==> p in it.users && Enumerates(it.users[p], CacheTable(live, p).Keys)
  }

  method AnyIteration(live: Cache) returns (it: Iteration)
    ensures Iterates(it, live)
  {
    var polls := Filter(live.Keys, live.Keys);
    var users: map<int, seq<int>> := map[];
    for i := 0 to |polls|
      invariant users.Keys == Elements(polls[..i])
      invariant forall p :: p in users ==> Enumerates(users[p], CacheTable(live, p).Keys)
    {
      var order := Filter(CacheTable(live, polls[i]).Keys, CacheTable(live, polls[i]).Keys);
      assert polls[..i + 1] == polls[..i] + [polls[i]];
      Snoc(polls[..i], polls[i]);
      users := users[polls[i] := order];
    }
    assert polls[..|polls|] == polls;
    it := Iteration(polls, users);
  }

  /** The loop over the users of `p` crashes. */
  ghost predicate CrashesAt(ds: Datastore, live: Cache, it: Iteration, p: int) {
    && p in live && p in ds.polls && Shows(ds.polls[p])
    && p in it.users && Inside(it.users[p], CacheTable(live, p)) && LiveFold(it.users[p], CacheTable(live, p)).None?
  }

  ghost predicate Crashes(ds: Datastore, live: Cache, it: Iteration) {
    exists p :: CrashesAt(ds, live, it, p)
  }

  ghost predicate CanCrash(ds: Datastore, live: Cache) {
    exists it :: Iterates(it, live) && Crashes(ds, live, it)
  }

  ghost predicate MixedShown(ds: Datastore, live: Cache, p: int) {
    p in live && p in ds.polls && Shows(ds.polls[p]) && Mixed(CacheTable(live, p))
  }

  /** `order` iterates over the whole table and crashes. */
  ghost predicate CrashesIn(order: seq<int>, t: Table) {
    Enumerates(order, t.Keys) && Inside(order, t) && LiveFold(order, t).None?
  }

  lemma CrashMeansMixed(order: seq<int>, t: Table)
    requires Inside(order, t) && LiveFold(order, t).None?
    ensures Mixed(t)
  {
    FoldNilIff(order, t);
    var i, j :| 0 <= i < j < |order| && t[order[i]].None? && t[order[j]].Some?;
    var u, v := order[i], order[j];
    assert u in t && t[u].None? && v in t && t[v].Some?;
  }

  /** Exact condition: AllLiveVotes crashes for some order of iteration iff some cached poll that shows
      its votes has hidden votes and votes in clear. */
  lemma CrashPossibleIff(ds: Datastore, live: Cache)
    ensures CanCrash(ds, live) <==> exists p :: MixedShown(ds, live, p)
  {
    if CanCrash(ds, live) {
      var it :| Iterates(it, live) && Crashes(ds, live, it);
      var p :| CrashesAt(ds, live, it, p);
      CrashMeansMixed(it.users[p], CacheTable(live, p));
      assert MixedShown(ds, live, p);
    }
    if p :| MixedShown(ds, live, p) {
      MixedCanCrash(ds, live, p);
    }
  }

  /** Some order for every table, except `order` for poll `p`. */
  ghost function IterationWith(live: Cache, p: int, order: seq<int>): Iteration {
    Iteration(SortedSet(live.Keys), map q | q in live :: if q == p then order else SortedSet(CacheTable(live, q).Keys))
  }

  lemma SortedEnumerates(keys: set<int>)
    ensures Enumerates(SortedSet(keys), keys)
  {
  }

  lemma MixedCanCrash(ds: Datastore, live: Cache, p: int)
    requires MixedShown(ds, live, p)
    ensures CanCrash(ds, live)
  {
    var t := CacheTable(live, p);
    var u :| u in t && t[u].None?;
    var v :| v in t && t[v].Some?;
    MixedCrash(t, u, v);
    var order :| CrashesIn(order, t);
    var it := IterationWith(live, p, order);
    SortedEnumerates(live.Keys);
    forall q | q in live ensures q in it.users && Enumerates(it.users[q], CacheTable(live, q).Keys) {
      SortedEnumerates(CacheTable(live, q).Keys);
    }
    assert Iterates(it, live);
    assert CrashesAt(ds, live, it, p);
    assert Crashes(ds, live, it);
  }

  lemma MixedCrash(t: Table, u: int, v: int)
    requires u in t && t[u].None? && v in t && t[v].Some?
    ensures exists order :: CrashesIn(order, t)
  {
    var rest := SortedSet(t.Keys - {u, v});
    var order := [u] + [v] + rest;
    TwoFirst(u, v, rest);
    assert Elements(order) == t.Keys;
    FoldNilIff(order, t);
    assert order[0] == u && order[1] == v;
    assert CrashesIn(order, t);
  }

  lemma TwoFirst(u: int, v: int, rest: seq<int>)
    requires u != v && Increasing(rest) && u !in Elements(rest) && v !in Elements(rest)
    ensures var order := [u] + [v] + rest;
            && Elements(order) == {u, v} + Elements(rest) && Distinct(order)
            && forall i :: 0 <= i < |order| ==> order[i] in Elements(order)
  {
  }

  /********** The stream over the service **********/

  /** Some remembered poll with a nil map has users in the cache that a snapshot lists. */
  ghost predicate NilWritten(ds: Datastore, live: Cache, mem: Snapshot) {
    exists q :: q in mem && mem[q].NilMap? && q in live && q in ds.polls
                && TableOf(ExpectedCell(ds.polls[q], CacheTable(live, q))) != map[]
  }

  lemma PanicsIff(ds: Datastore, live: Cache, mem: Snapshot, snap: Snapshot)
    requires Pictures(ds, live, snap)
    ensures Panics(mem, snap) <==> NilWritten(ds, live, mem)
  {
    if Panics(mem, snap) {
      var q :| q in mem && q in snap && mem[q].NilMap? && TableOf(snap[q]) != map[];
      assert snap[q] == ExpectedCell(ds.polls[q], CacheTable(live, q));
    }
    if NilWritten(ds, live, mem) {
      var q :| q in mem && mem[q].NilMap? && q in live && q in ds.polls
               && TableOf(ExpectedCell(ds.polls[q], CacheTable(live, q))) != map[];
      assert q in snap;
    }
  }

  /** One round of a handler that remembers `p`, for any order of iteration: it crashes iff AllLiveVotes
      does or a nil map would be written; else it takes the poll back iff the poll is not in the cache
      or not configured, and otherwise keeps all it remembers of the poll. */
  method RoundRetracts(s: VoteService, h: Handler, it: Iteration, p: int) returns (diff: Snapshot, panicked: bool)
    requires Iterates(it, s.live) && h.memory.Some? && p in h.memory.value
    modifies h
    ensures panicked <==> Crashes(s.ds, s.live, it) || NilWritten(s.ds, s.live, old(h.memory.value))
    ensures !panicked ==> h.memory.Some? && (Retracts(diff, p) <==> p !in s.live || p !in s.ds.polls)
    ensures !panicked ==> (p in h.memory.value <==> !Retracts(diff, p))
    ensures !panicked && !Retracts(diff, p) ==>
              Within(TableOf(old(h.memory.value[p])), TableOf(h.memory.value[p]))
  {
    diff := map[];
    var snap;
    snap, panicked := s.AllLiveVotes(it);
    if panicked {
      return;
    }
    PanicsIff(s.ds, s.live, h.memory.value, snap);
    RetractedIff(h.memory.value, snap, p);
    var sent;
    diff, sent, panicked := h.Tick(snap);
  }

  /** So a clear takes a poll back only if the poll is not configured any more, although the handler's
      comment promises null for every poll that is not active: `Clear` leaves the key in the cache. */
  method ClearedPollStaysInStream(s: VoteService, h: Handler, it: Iteration, p: int) returns (diff: Snapshot, panicked: bool)
    requires s.Valid() && Iterates(it, s.live[p := None]) && h.memory.Some? && p in h.memory.value
    modifies s, s.fast, s.long, h
    ensures p !in s.Polls()
    ensures panicked <==> Crashes(s.ds, old(s.live)[p := None], it) ||
                          NilWritten(s.ds, old(s.live)[p := None], old(h.memory.value))
    ensures !panicked ==> h.memory.Some? && (Retracts(diff, p) <==> p !in s.ds.polls)
    ensures !panicked && p in s.ds.polls ==>
              p in h.memory.value && Within(TableOf(old(h.memory.value[p])), TableOf(h.memory.value[p]))
  {
    KnownAfter(s.Polls(), Clear(p), p);
    s.Clear(p);
    diff, panicked := RoundRetracts(s, h, it, p);
  }

  /** A clear of everything takes every poll back, and its round never crashes. */
  method ClearAllRetracts(s: VoteService, h: Handler) returns (diff: Snapshot)
    requires s.Valid() && h.memory.Some?
    modifies s, s.fast, s.long, h
    ensures s.Polls() == map[] && h.memory == Some(map[])
    ensures diff.Keys == old(h.memory.value.Keys) && forall p :: p in diff ==> Retracts(diff, p)
  {
    ghost var mem := h.memory.value;
    s.ClearAll();
    var it := AnyIteration(s.live);
    var snap, panicked := s.AllLiveVotes(it);
    NothingPictured(s.ds, snap);
    EmptySnapshotRetracts(mem);
    var sent;
    diff, sent, panicked := h.Tick(snap);
  }

  lemma NothingPictured(ds: Datastore, snap: Snapshot)
    requires Pictures(ds, map[], snap)
    ensures snap == map[]
  {
    var none: Snapshot := map[];
    assert snap.Keys == none.Keys;
  }

  lemma EmptySnapshotRetracts(mem: Snapshot)
    ensures !Panics(mem, map[]) && Remembered(mem, map[]) == map[]
    ensures DiffOf(mem, map[]).Keys == mem.Keys && forall p :: p in mem ==> Retracts(DiffOf(mem, map[]), p)
  {
    forall p | p in mem ensures Retracts(DiffOf(mem, map[]), p) {
      RetractedIff(mem, map[], p);
    }
  }

  /** The vote that a request asks for is one that the backends accept. */
  ghost predicate WouldPass(ds: Datastore, marshal: VoteData -> Object, fixed: real -> string, s: State,
                            p: int, requestUser: int, req: Request)
  {
    Passes(ds, p, requestUser, req) && Answer(s, KeptOp(ds, OpFor(ds, marshal, fixed, p, requestUser, req))) == Done
  }

  /** A restart in the middle of a named long poll with live voting prepares a crash: the votes from
      before come back hidden, the next accepted vote is in clear, and then AllLiveVotes can crash. */
  method RestartMixesVotes(ds: Datastore, marshal: VoteData -> Object, fixed: real -> string,
                           fast: Memory.Backend, long: Postgres.Backend, p: int, requestUser: int, req: Request)
    returns (s: VoteService, r: ServiceReply)
    requires fast.Valid() && long.Valid() && Routed(ds, fast.Abs(), long.Abs())
    requires p in ds.polls && Shows(ds.polls[p]) && VotersOf(long.Abs(), p) != {}
    requires WouldPass(ds, marshal, fixed, fast.Abs() + long.Abs(), p, requestUser, req)
    modifies fast, long
    ensures r == Ok && Mixed(CacheTable(s.live, p)) && CanCrash(ds, s.live)
  {
    s := new VoteService(ds, marshal, fixed, fast, long);
    r := VoteMixes(s, p, requestUser, req);
  }

  /** The next vote, while the votes of the long polls are hidden. */
  method VoteMixes(s: VoteService, p: int, requestUser: int, req: Request) returns (r: ServiceReply)
    requires s.Exact() && AllHidden(s.live, s.long.Abs().Keys)
    requires p in s.ds.polls && Shows(s.ds.polls[p]) && VotersOf(s.long.Abs(), p) != {}
    requires WouldPass(s.ds, s.marshal, s.fixed, s.Polls(), p, requestUser, req)
    modifies s, s.fast, s.long
    ensures r == Ok && Mixed(CacheTable(s.live, p)) && CanCrash(s.ds, s.live)
  {
    ghost var u :| u in VotersOf(s.long.Abs(), p);
    LongVotersFit(s.long, p, u);
    MixedByVote(s.ds, s.live, s.fast.Abs(), s.long.Abs(), OpFor(s.ds, s.marshal, s.fixed, p, requestUser, req), u);
    r := s.Vote(p, requestUser, req);
  }

  lemma MixedByVote(ds: Datastore, live: Cache, f: State, l: State, op: Op, u: int)
    requires CacheExact(live, f + l) && AllHidden(live, l.Keys) && op.Vote? && u in VotersOf(l, op.poll)
    requires -TWO31 <= u < TWO31 && Answer(f + l, KeptOp(ds, op)) == Done
    requires op.poll in ds.polls && Shows(ds.polls[op.poll])
    ensures Mixed(CacheTable(Recalled(live, op, true), op.poll)) && CanCrash(ds, Recalled(live, op, true))
  {
    HiddenVoter(live, f, l, op.poll, u);
    assert u != op.user;
    MixedNow(ds, live, op, u);
  }

  /** And directly after such a restart the stream loses the poll: its first round does not crash, the
      poll appears with a nil map, the handler remembers it, and the client has not got it. */
  method RestartDropsPoll(ds: Datastore, marshal: VoteData -> Object, fixed: real -> string,
                          fast: Memory.Backend, long: Postgres.Backend, p: int)
    returns (h: Handler, diff: Snapshot, view: map<int, Table>)
    requires fast.Valid() && long.Valid() && Routed(ds, fast.Abs(), long.Abs())
    requires p in ds.polls && Shows(ds.polls[p]) && VotersOf(long.Abs(), p) != {}
    ensures h.memory == Some(diff) && p in diff && diff[p] == NilMap
    ensures view == Folded(map[], diff) && p !in view && !AppearWhole([diff])
  {
    var s := new VoteService(ds, marshal, fixed, fast, long);
    h, diff := FirstRound(s, p);
    view := Folded(map[], diff);
    NilAppears(diff, p);
  }

  /** The first round of a new handler on a service that was just started. */
  method FirstRound(s: VoteService, p: int) returns (h: Handler, diff: Snapshot)
    requires s.Exact() && AllHidden(s.live, s.long.Abs().Keys) && forall q :: !Mixed(CacheTable(s.live, q))
    requires p in s.ds.polls && Shows(s.ds.polls[p]) && VotersOf(s.long.Abs(), p) != {}
    ensures fresh(h) && h.memory == Some(diff) && p in diff && diff[p] == NilMap
  {
    ghost var u :| u in VotersOf(s.long.Abs(), p);
    var it := AnyIteration(s.live);
    UnmixedNoCrash(s.ds, s.live, it);
    var snap, panicked := s.AllLiveVotes(it);
    HiddenPicture(s.ds, s.live, s.fast.Abs(), s.long.Abs(), p, u, snap);
    h := new Handler();
    var sent;
    diff, sent, panicked := h.Tick(snap);
  }

  /** From there a clear, a start and one vote crash the handler: the snapshot shows the new vote, and
      the handler writes it into the nil map that it remembers. */
  method RestartCrashesStream(ds: Datastore, marshal: VoteData -> Object, fixed: real -> string,
                              fast: Memory.Backend, long: Postgres.Backend, p: int, requestUser: int, req: Request)
    returns (crashed: bool, panicked: bool)
    requires fast.Valid() && long.Valid() && Routed(ds, fast.Abs(), long.Abs())
    requires p in ds.polls && Shows(ds.polls[p]) && VotersOf(long.Abs(), p) != {}
    requires Passes(ds, p, requestUser, req)
    modifies fast, long
    ensures !crashed && panicked
  {
    var s := new VoteService(ds, marshal, fixed, fast, long);
    var h, first := FirstRound(s, p);
    crashed, panicked := RestartThenRound(s, h, p, requestUser, req);
  }

  method RestartThenRound(s: VoteService, h: Handler, p: int, requestUser: int, req: Request)
    returns (crashed: bool, panicked: bool)
    requires s.Valid() && Passes(s.ds, p, requestUser, req) && Shows(s.ds.polls[p])
    requires forall q :: !Mixed(CacheTable(s.live, q))
    requires h.memory.Some? && p in h.memory.value && h.memory.value[p].NilMap?
    modifies s, s.fast, s.long, h
    ensures !crashed && panicked
  {
    RestartPoll(s, p, requestUser, req);
    crashed, panicked := CrashingRound(s, h, p);
  }

  /** The round that finds a vote in clear where the handler remembers a nil map. */
  method CrashingRound(s: VoteService, h: Handler, p: int) returns (crashed: bool, panicked: bool)
    requires h.memory.Some? && p in h.memory.value && h.memory.value[p].NilMap?
    requires p in s.ds.polls && Shows(s.ds.polls[p]) && forall q :: !Mixed(CacheTable(s.live, q))
    requires p in s.live && AllShown(CacheTable(s.live, p)) && CacheTable(s.live, p) != map[]
    modifies h
    ensures !crashed && panicked
  {
    var it := AnyIteration(s.live);
    UnmixedNoCrash(s.ds, s.live, it);
    var snap;
    snap, crashed := s.AllLiveVotes(it);
    WritesNil(s.ds, s.live, h.memory.value, p);
    PanicsIff(s.ds, s.live, h.memory.value, snap);
    var diff, sent;
    diff, sent, panicked := h.Tick(snap);
  }

  lemma UnmixedNoCrash(ds: Datastore, live: Cache, it: Iteration)
    requires forall q :: !Mixed(CacheTable(live, q))
    ensures !Crashes(ds, live, it)
  {
    if p :| CrashesAt(ds, live, it, p) {
      CrashMeansMixed(it.users[p], CacheTable(live, p));
    }
  }

  /** A clear, a start and an accepted vote: the cache has exactly that vote of the poll, in clear. */
  method RestartPoll(s: VoteService, p: int, requestUser: int, req: Request)
    requires s.Valid() && Passes(s.ds, p, requestUser, req) && Shows(s.ds.polls[p])
    requires forall q :: !Mixed(CacheTable(s.live, q))
    modifies s, s.fast, s.long
    ensures p in s.live && AllShown(CacheTable(s.live, p)) && CacheTable(s.live, p) != map[]
    ensures forall q :: !Mixed(CacheTable(s.live, q))
  {
    ghost var op := OpFor(s.ds, s.marshal, s.fixed, p, requestUser, req);
    ghost var before, polls := s.live, s.Polls();
    s.Clear(p);
    var started := s.Start(p);
    FreshPollAdmits(polls, KeptOp(s.ds, op));
    var r := s.Vote(p, requestUser, req);
    OnlyVote(before, op);
  }

  ghost predicate AllShown(t: Table) {
    forall u :: u in t ==> t[u].Some?
  }

  lemma FreshPollAdmits(s: State, op: Op)
    requires op.Vote?
    ensures Answer(Next(Next(s, Clear(op.poll)), Start(op.poll)), op) == Done
  {
  }

  lemma OnlyVote(live: Cache, op: Op)
    requires op.Vote? && forall q :: !Mixed(CacheTable(live, q))
    ensures var after := Recalled(live[op.poll := None], op, true);
            && op.poll in after && AllShown(CacheTable(after, op.poll)) && CacheTable(after, op.poll) != map[]
            && forall q :: !Mixed(CacheTable(after, q))
  {
    var after := Recalled(live[op.poll := None], op, true);
    assert CacheTable(after, op.poll) == map[op.user := Some(op.vote)];
    assert op.user in CacheTable(after, op.poll);
    forall q ensures !Mixed(CacheTable(after, q)) {
      assert q != op.poll ==> CacheTable(after, q) == CacheTable(live, q);
    }
  }

  lemma WritesNil(ds: Datastore, live: Cache, mem: Snapshot, p: int)
    requires p in mem && mem[p].NilMap? && p in ds.polls && Shows(ds.polls[p])
    requires p in live && AllShown(CacheTable(live, p)) && CacheTable(live, p) != map[]
    ensures NilWritten(ds, live, mem)
  {
    assert ExpectedCell(ds.polls[p], CacheTable(live, p)) == Votes(CacheTable(live, p));
  }

  lemma HiddenPicture(ds: Datastore, live: Cache, f: State, l: State, p: int, u: int, snap: Snapshot)
    requires CacheExact(live, f + l) && AllHidden(live, l.Keys) && u in VotersOf(l, p)
    requires p in ds.polls && Shows(ds.polls[p]) && Pictures(ds, live, snap)
    ensures p in snap && snap[p] == NilMap
  {
    HiddenVoter(live, f, l, p, u);
    assert SomeHidden(CacheTable(live, p));
  }

  lemma NilAppears(snap: Snapshot, p: int)
    requires p in snap && snap[p] == NilMap
    ensures !AppearWhole([snap]) && p !in Folded(map[], snap)
  {
    assert [snap][..0] == [];
    assert p !in Latest([]);
  }

  lemma LongVotersFit(long: Postgres.Backend, p: int, u: int)
    requires u in VotersOf(long.Abs(), p)
    ensures -TWO31 <= u < TWO31
  {
    var ids := FromBytes(long.poll[p].userIds);
    assert u in Elements(ids);
    var i :| 0 <= i < |ids| && ids[i] == u;
    var id: int32 := ids[i];
  }

  lemma HiddenVoter(live: Cache, f: State, l: State, p: int, u: int)
    requires CacheExact(live, f + l) && AllHidden(live, l.Keys) && u in VotersOf(l, p)
    ensures u in VotersOf(f + l, p) && u in CacheTable(live, p) && CacheTable(live, p)[u] == None
  {
  }

  lemma MixedNow(ds: Datastore, live: Cache, op: Op, u: int)
    requires op.Vote? && u != op.user && u in CacheTable(live, op.poll) && CacheTable(live, op.poll)[u] == None
    requires op.poll in ds.polls && Shows(ds.polls[op.poll])
    ensures Mixed(CacheTable(Recalled(live, op, true), op.poll)) && CanCrash(ds, Recalled(live, op, true))
  {
    var t := CacheTable(Recalled(live, op, true), op.poll);
    assert u in t && t[u].None?;
    assert op.user in t && t[op.user].Some?;
    MixedCanCrash(ds, Recalled(live, op, true), op.poll);
  }

  lemma ClearBoth(ds: Datastore, f: State, l: State, p: int)
    requires Routed(ds, f, l)
    ensures Next(f, Clear(p)) + Next(l, Clear(p)) == Next(f + l, Clear(p))
    ensures Routed(ds, Next(f, Clear(p)), Next(l, Clear(p)))
  {
  }
}
