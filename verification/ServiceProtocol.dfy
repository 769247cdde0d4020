/** Concurrent requests on the service: its mutex guards the cache only, so other requests can run
    between the change in a backend and the change in the cache. User ids are taken to fit. */
module ServiceProtocol {
  import opened Contract
  import opened Service

  /** A request between its backend and its cache. */
  datatype Client =
    | Ready
    | Voting(poll: int, user: int, vote: Object, named: bool)
    | Clearing(poll: int)
    | ClearingAll(both: bool)

  /** `fast` routes the polls; the backends together hold `polls`. */
  datatype System = System(fast: int -> bool, polls: State, live: Cache, clients: map<int, Client>)

  datatype Action =
    | StartPoll(poll: int)
    | StopPoll(poll: int)
    | VoteSave(client: int, poll: int, user: int, vote: Object, named: bool)
    | VoteRemember(client: int)
    | ClearStored(client: int, poll: int)
    | ClearForget(client: int)
    | ClearAllFast(client: int)
    | ClearAllLong(client: int)
    | ClearAllForget(client: int)

  function ClientOf(s: System, c: int): Client {
    if c in s.clients then s.clients[c] else Ready
  }

  predicate Enabled(s: System, a: Action) {
    match a
    case VoteSave(c, _, _, _, _) => ClientOf(s, c).Ready?
    case ClearStored(c, _) => ClientOf(s, c).Ready?
    case ClearAllFast(c) => ClientOf(s, c).Ready?
    case VoteRemember(c) => ClientOf(s, c).Voting?
    case ClearForget(c) => ClientOf(s, c).Clearing?
    case ClearAllLong(c) => ClientOf(s, c) == ClearingAll(false)
    case ClearAllForget(c) => ClientOf(s, c) == ClearingAll(true)
    case _ => true
  }

  ghost function PollsAfter(s: System, a: Action): State {
    match a
    case StartPoll(p) => Next(s.polls, Start(p))
    case StopPoll(p) => Next(s.polls, Stop(p))
    case VoteSave(_, p, u, o, _) => Next(s.polls, Vote(p, u, o))
    case ClearStored(_, p) => Next(s.polls, Clear(p))
    case ClearAllFast(_) => map p | p in s.polls && !s.fast(p) :: s.polls[p]
    case ClearAllLong(_) => map p | p in s.polls && s.fast(p) :: s.polls[p]
    case _ => s.polls
  }

  ghost function LiveAfter(s: System, a: Action): Cache
    requires Enabled(s, a)
  {
    match a
    case VoteRemember(c) =>
      var k := ClientOf(s, c);
      Recalled(s.live, Vote(k.poll, k.user, k.vote), k.named)
    case ClearForget(c) => s.live[ClientOf(s, c).poll := None]
    case ClearAllForget(_) => map[]
    case _ => s.live
  }

  ghost function ClientsAfter(s: System, a: Action): map<int, Client> {
    match a
    case VoteSave(c, p, u, o, named) =>
      if Answer(s.polls, Vote(p, u, o)) == Done then s.clients[c := Voting(p, u, o, named)] else s.clients
    case ClearStored(c, p) => s.clients[c := Clearing(p)]
    case ClearAllFast(c) => s.clients[c := ClearingAll(false)]
    case ClearAllLong(c) => s.clients[c := ClearingAll(true)]
    case VoteRemember(c) => s.clients[c := Ready]
    case ClearForget(c) => s.clients[c := Ready]
    case ClearAllForget(c) => s.clients[c := Ready]
    case _ => s.clients
  }

  ghost function Apply(s: System, a: Action): System
    requires Enabled(s, a)
  {
    System(s.fast, PollsAfter(s, a), LiveAfter(s, a), ClientsAfter(s, a))
  }

  /********** The steps of a request, undisturbed, are the whole request **********/

  /** A vote, without and with success: what `VoteService.Vote` does, if the user id fits. */
  lemma WholeVote(s: System, c: int, p: int, u: int, o: Object, named: bool)
    requires ClientOf(s, c).Ready?
    ensures var s1 := Apply(s, VoteSave(c, p, u, o, named));
            && (Answer(s.polls, Vote(p, u, o)) != Done ==> s1 == s)
            && (Answer(s.polls, Vote(p, u, o)) == Done ==>
                  && Enabled(s1, VoteRemember(c))
                  && var s2 := Apply(s1, VoteRemember(c));
                     && s2.polls == Next(s.polls, Vote(p, u, o)) && s2.live == Recalled(s.live, Vote(p, u, o), named)
                     && s2.clients == s.clients[c := Ready])
  {
    NextVote(s.polls, p, u, o);
    if Answer(s.polls, Vote(p, u, o)) == Done {
      var s1 := Apply(s, VoteSave(c, p, u, o, named));
      assert s1.clients[c := Ready] == s.clients[c := Ready];
    }
  }

  /** A clear: what `VoteService.Clear` does. */
  lemma WholeClear(s: System, c: int, p: int)
    requires ClientOf(s, c).Ready?
    ensures var s1 := Apply(s, ClearStored(c, p));
            && Enabled(s1, ClearForget(c))
            && var s2 := Apply(s1, ClearForget(c));
               s2.polls == Next(s.polls, Clear(p)) && s2.live == s.live[p := None] && s2.clients == s.clients[c := Ready]
  {
    assert s.clients[c := Clearing(p)][c := Ready] == s.clients[c := Ready];
  }

  /** A clear of everything: what `VoteService.ClearAll` does. */
  lemma WholeClearAll(s: System, c: int)
    requires ClientOf(s, c).Ready?
    ensures var s1 := Apply(s, ClearAllFast(c));
            && Enabled(s1, ClearAllLong(c))
            && var s2 := Apply(s1, ClearAllLong(c));
            && Enabled(s2, ClearAllForget(c))
            && var s3 := Apply(s2, ClearAllForget(c));
               s3.polls == map[] && s3.live == map[] && s3.clients == s.clients[c := Ready]
  {
    assert s.clients[c := ClearingAll(false)][c := ClearingAll(true)][c := Ready] == s.clients[c := Ready];
  }

  /********** Which difference between cache and backends somebody will repair **********/

  ghost predicate Stored(s: System, p: int, u: int) {
    u in VotersOf(s.polls, p)
  }

  ghost predicate Cached(s: System, p: int, u: int) {
    u in CacheTable(s.live, p)
  }

  predicate Votes(k: Client, p: int, u: int) {
    k.Voting? && k.poll == p && k.user == u
  }

  predicate Forgets(k: Client, p: int) {
    k.ClearingAll? || (k.Clearing? && k.poll == p)
  }

  ghost predicate SomeVoting(s: System, p: int, u: int) {
    exists c :: c in s.clients && Votes(s.clients[c], p, u)
  }

  ghost predicate SomeForgetting(s: System, p: int) {
    exists c :: c in s.clients && Forgets(s.clients[c], p)
  }

  ghost predicate CoveredAt(s: System, p: int, u: int) {
    && (Stored(s, p, u) && !Cached(s, p, u) ==> SomeVoting(s, p, u))
    && (Cached(s, p, u) && !Stored(s, p, u) ==> SomeForgetting(s, p))
  }

  ghost predicate Covered(s: System) {
    forall p, u :: CoveredAt(s, p, u)
  }

  ghost predicate Quiescent(s: System) {
    forall c :: c in s.clients ==> s.clients[c].Ready?
  }

  lemma SameVoters(s: System, p: int)
    requires forall u :: Stored(s, p, u) <==> Cached(s, p, u)
    ensures CacheTable(s.live, p).Keys == VotersOf(s.polls, p)
  {
    var cached, stored := CacheTable(s.live, p).Keys, VotersOf(s.polls, p);
    forall u ensures u in cached <==> u in stored {
      assert Stored(s, p, u) <==> Cached(s, p, u);
    }
  }

  lemma NoVoters(s: System, p: int)
    requires forall u :: !Stored(s, p, u)
    ensures VotersOf(s.polls, p) == {}
  {
    var stored := VotersOf(s.polls, p);
    forall u ensures u !in stored {
      assert !Stored(s, p, u);
    }
  }

  lemma QuiescentExact(s: System)
    requires Quiescent(s)
    ensures Covered(s) <==> CacheExact(s.live, s.polls)
  {
    if Covered(s) {
      forall p ensures CacheTable(s.live, p).Keys == VotersOf(s.polls, p) {
        forall u ensures Stored(s, p, u) <==> Cached(s, p, u) {
          assert CoveredAt(s, p, u);
        }
        SameVoters(s, p);
      }
    }
    if CacheExact(s.live, s.polls) {
      forall p, u ensures CoveredAt(s, p, u) {
        assert CacheTable(s.live, p).Keys == VotersOf(s.polls, p);
      }
    }
  }

  /** The writes into the cache that come too late: a vote is remembered after it was cleared, and no
      clear is to come that forgets it; or a clear forgets a vote that was saved behind it and is not
      to be remembered again. */
  ghost predicate Breaks(s: System, a: Action)
    requires Enabled(s, a)
  {
    match a
    case VoteRemember(c) =>
      var k := ClientOf(s, c);
      !Stored(s, k.poll, k.user) && !SomeForgetting(s, k.poll)
    case ClearForget(c) => exists u :: Stored(s, ClientOf(s, c).poll, u) && !SomeVoting(s, ClientOf(s, c).poll, u)
    case ClearAllForget(_) => exists p, u :: Stored(s, p, u) && !SomeVoting(s, p, u)
    case _ => false
  }

  /** How an action changes what is stored and what is cached. */
  lemma StoredAfter(s: System, a: Action, p: int, u: int)
    requires Enabled(s, a)
    ensures Stored(Apply(s, a), p, u) <==>
              && (Stored(s, p, u) ||
                  (a.VoteSave? && a.poll == p && a.user == u && Answer(s.polls, Vote(p, u, a.vote)) == Done))
              && !(a.ClearStored? && a.poll == p) && !(a.ClearAllFast? && s.fast(p)) && !(a.ClearAllLong? && !s.fast(p))
  {
    if a.VoteSave? {
      NextVote(s.polls, a.poll, a.user, a.vote);
    }
  }

  lemma CachedAfter(s: System, a: Action, p: int, u: int)
    requires Enabled(s, a)
    ensures Cached(Apply(s, a), p, u) <==>
              && (Cached(s, p, u) || (a.VoteRemember? && Votes(ClientOf(s, a.client), p, u)))
              && !(a.ClearForget? && ClientOf(s, a.client).poll == p) && !a.ClearAllForget?
  {
  }

  /** How it changes who is about to write the cache. */
  lemma PendingAfter(s: System, a: Action, p: int, u: int)
    requires Enabled(s, a)
    ensures SomeVoting(s, p, u) && !(a.VoteRemember? && Votes(ClientOf(s, a.client), p, u)) ==> SomeVoting(Apply(s, a), p, u)
    ensures SomeVoting(Apply(s, a), p, u) ==> SomeVoting(s, p, u) || (a.VoteSave? && a.poll == p && a.user == u)
    ensures a.VoteSave? && a.poll == p && a.user == u && Answer(s.polls, Vote(p, u, a.vote)) == Done ==>
              SomeVoting(Apply(s, a), p, u)
    ensures a.VoteRemember? ==> SomeVoting(s, ClientOf(s, a.client).poll, ClientOf(s, a.client).user)
  {
    var s' := Apply(s, a);
    if SomeVoting(s, p, u) {
      var c :| c in s.clients && Votes(s.clients[c], p, u);
      assert c in s'.clients;
    }
    if a.VoteSave? && a.poll == p && a.user == u && Answer(s.polls, Vote(p, u, a.vote)) == Done {
      assert a.client in s'.clients && Votes(s'.clients[a.client], p, u);
    }
    if SomeVoting(s', p, u) {
      var c :| c in s'.clients && Votes(s'.clients[c], p, u);
      assert c in s.clients ==> s'.clients[c] == s.clients[c] || (a.VoteSave? && a.client == c);
    }
  }

  lemma ForgettingAfter(s: System, a: Action, p: int)
    requires Enabled(s, a)
    ensures SomeForgetting(s, p) && !a.ClearAllForget? && !(a.ClearForget? && ClientOf(s, a.client).poll == p) ==>
              SomeForgetting(Apply(s, a), p)
    ensures a.ClearAllFast? || a.ClearAllLong? || (a.ClearStored? && a.poll == p) ==> SomeForgetting(Apply(s, a), p)
    ensures SomeForgetting(Apply(s, a), p) ==> SomeForgetting(s, p) || a.ClearAllFast? || (a.ClearStored? && a.poll == p)
  {
    var s' := Apply(s, a);
    if SomeForgetting(s, p) {
      var c :| c in s.clients && Forgets(s.clients[c], p);
      assert c in s'.clients;
    }
    if a.ClearAllFast? || a.ClearAllLong? || a.ClearStored? {
      assert a.client in s'.clients;
    }
    if SomeForgetting(s', p) {
      var c :| c in s'.clients && Forgets(s'.clients[c], p);
      assert c in s.clients ==> s'.clients[c] == s.clients[c] || a.client == c;
    }
  }

  /** A late write at `p` and `u`. */
  ghost predicate BreaksAt(s: System, a: Action, p: int, u: int)
    requires Enabled(s, a)
  {
    || (a.VoteRemember? && Votes(ClientOf(s, a.client), p, u) && !Stored(s, p, u) && !SomeForgetting(s, p))
    || (a.ClearForget? && ClientOf(s, a.client).poll == p && Stored(s, p, u) && !SomeVoting(s, p, u))
    || (a.ClearAllForget? && Stored(s, p, u) && !SomeVoting(s, p, u))
  }

  lemma BreaksSomewhere(s: System, a: Action)
    requires Enabled(s, a)
    ensures Breaks(s, a) <==> exists p, u :: BreaksAt(s, a, p, u)
  {
    if Breaks(s, a) {
      if a.VoteRemember? {
        assert BreaksAt(s, a, ClientOf(s, a.client).poll, ClientOf(s, a.client).user);
      } else if a.ClearForget? {
        var u :| Stored(s, ClientOf(s, a.client).poll, u) && !SomeVoting(s, ClientOf(s, a.client).poll, u);
        assert BreaksAt(s, a, ClientOf(s, a.client).poll, u);
      } else {
        var p, u :| Stored(s, p, u) && !SomeVoting(s, p, u);
        assert BreaksAt(s, a, p, u);
      }
    }
  }

  /** The steps after which somebody will repair, or has repaired, a difference at `p` and `u`: a stored
      vote is removed again; a cached vote is saved again, or a clear begins that will forget it. */
  ghost predicate Repairs(s: System, a: Action, p: int, u: int)
    requires Enabled(s, a)
  {
    if Stored(s, p, u) then
      (a.ClearStored? && a.poll == p) || (a.ClearAllFast? && s.fast(p)) || (a.ClearAllLong? && !s.fast(p))
    else
      || (a.VoteSave? && a.poll == p && a.user == u && Answer(s.polls, Vote(p, u, a.vote)) == Done)
      || (a.ClearStored? && a.poll == p) || a.ClearAllFast?
  }

  lemma StepCovered(s: System, a: Action, p: int, u: int)
    requires Enabled(s, a)
    ensures CoveredAt(Apply(s, a), p, u) <==> !BreaksAt(s, a, p, u) && (CoveredAt(s, p, u) || Repairs(s, a, p, u))
  {
    StoredAfter(s, a, p, u);
    CachedAfter(s, a, p, u);
    PendingAfter(s, a, p, u);
    ForgettingAfter(s, a, p);
    ActorPending(s, a, p, u);
  }

  lemma ActorPending(s: System, a: Action, p: int, u: int)
    requires Enabled(s, a)
    ensures a.VoteRemember? && Votes(ClientOf(s, a.client), p, u) ==> SomeVoting(s, p, u)
    ensures a.ClearForget? && ClientOf(s, a.client).poll == p ==> SomeForgetting(s, p)
    ensures a.ClearAllForget? || a.ClearAllLong? ==> SomeForgetting(s, p)
    ensures Stored(s, p, u) && a.VoteSave? && a.poll == p && a.user == u ==> Answer(s.polls, Vote(p, u, a.vote)) != Done
    ensures a.VoteSave? && a.poll == p && a.user == u && SomeVoting(Apply(s, a), p, u) ==>
              SomeVoting(s, p, u) || Answer(s.polls, Vote(p, u, a.vote)) == Done
  {
    if a.VoteRemember? || a.ClearForget? || a.ClearAllForget? || a.ClearAllLong? {
      assert a.client in s.clients;
    }
  }

  /** Exact condition: a request spoils the cache beyond repair iff its write into it comes too late. */
  lemma CoveredIff(s: System, a: Action)
    requires Enabled(s, a) && Covered(s)
    ensures Covered(Apply(s, a)) <==> !Breaks(s, a)
  {
    BreaksSomewhere(s, a);
    forall p, u ensures CoveredAt(Apply(s, a), p, u) <==> !BreaksAt(s, a, p, u) {
      assert CoveredAt(s, p, u);
      StepCovered(s, a, p, u);
    }
  }

  /********** Whole executions **********/

  ghost function Init(fast: int -> bool): System {
    System(fast, map[], map[], map[])
  }

  ghost function Exec(fast: int -> bool, acts: seq<Action>): System {
    if acts == [] then Init(fast) else
      var s := Exec(fast, acts[..|acts| - 1]);
      if Enabled(s, acts[|acts| - 1]) then Apply(s, acts[|acts| - 1]) else s
  }

  /** No write into the cache came too late. */
  ghost predicate InTime(fast: int -> bool, acts: seq<Action>) {
    acts == [] ||
    (var s, a := Exec(fast, acts[..|acts| - 1]), acts[|acts| - 1];
     InTime(fast, acts[..|acts| - 1]) && (Enabled(s, a) ==> !Breaks(s, a)))
  }

  lemma {:induction false} InTimeCovered(fast: int -> bool, acts: seq<Action>)
    requires InTime(fast, acts)
    ensures Covered(Exec(fast, acts))
  {
    if acts != [] {
      InTimeCovered(fast, acts[..|acts| - 1]);
      if Enabled(Exec(fast, acts[..|acts| - 1]), acts[|acts| - 1]) {
        CoveredIff(Exec(fast, acts[..|acts| - 1]), acts[|acts| - 1]);
      }
    }
  }

  /** Under every interleaving in which no write into the cache comes too late, the cache
      is exact whenever no request is between backend and cache. */
  lemma CacheExactAtRest(fast: int -> bool, acts: seq<Action>)
    requires InTime(fast, acts) && Quiescent(Exec(fast, acts))
    ensures CacheExact(Exec(fast, acts).live, Exec(fast, acts).polls)
  {
    InTimeCovered(fast, acts);
    QuiescentExact(Exec(fast, acts));
  }

  /** The last late write at `p` and `u` was not followed by a repair. */
  ghost predicate Spoiled(fast: int -> bool, acts: seq<Action>, p: int, u: int) {
    acts != [] &&
    var s, a := Exec(fast, acts[..|acts| - 1]), acts[|acts| - 1];
    var before := Spoiled(fast, acts[..|acts| - 1], p, u);
    if Enabled(s, a) then BreaksAt(s, a, p, u) || (before && !Repairs(s, a, p, u)) else before
  }

  lemma {:induction false} SpoiledIff(fast: int -> bool, acts: seq<Action>, p: int, u: int)
    ensures CoveredAt(Exec(fast, acts), p, u) <==> !Spoiled(fast, acts, p, u)
  {
    if acts != [] {
      var s, a := Exec(fast, acts[..|acts| - 1]), acts[|acts| - 1];
      SpoiledIff(fast, acts[..|acts| - 1], p, u);
      if Enabled(s, a) {
        StepCovered(s, a, p, u);
      }
    }
  }

  /** Main theorem, exact for every execution: when no request is between backend and cache, the cache
      is exact iff every late write was followed by a repair. */
  lemma ExactAtRestIff(fast: int -> bool, acts: seq<Action>)
    requires Quiescent(Exec(fast, acts))
    ensures CacheExact(Exec(fast, acts).live, Exec(fast, acts).polls) <==> forall p, u :: !Spoiled(fast, acts, p, u)
  {
    QuiescentExact(Exec(fast, acts));
    CoveredUnspoiled(fast, acts);
  }

  lemma CoveredUnspoiled(fast: int -> bool, acts: seq<Action>)
    ensures Covered(Exec(fast, acts)) <==> forall p, u :: !Spoiled(fast, acts, p, u)
  {
    var s := Exec(fast, acts);
    if Covered(s) {
      forall p, u ensures !Spoiled(fast, acts, p, u) {
        assert CoveredAt(s, p, u);
        SpoiledIff(fast, acts, p, u);
      }
    } else {
      var p, u :| !CoveredAt(s, p, u);
      SpoiledIff(fast, acts, p, u);
      assert Spoiled(fast, acts, p, u);
    }
  }

  /********** Votes and clears of one poll that do not overlap **********/

  /** No vote on a poll is saved while a clear of it is under way, and no clear begins while a vote is. */
  ghost predicate Apart(s: System, a: Action) {
    match a
    case VoteSave(_, p, _, _, _) => !SomeForgetting(s, p)
    case ClearStored(_, p) => forall u :: !SomeVoting(s, p, u)
    case ClearAllFast(_) => forall p, u :: !SomeVoting(s, p, u)
    case _ => true
  }

  /** What then holds of every caller: a vote under way is stored, and a clear under way has left
      nothing of what it has cleared. */
  ghost predicate CallerOk(s: System, k: Client) {
    && (k.Voting? ==> Stored(s, k.poll, k.user) && !SomeForgetting(s, k.poll))
    && (k.Clearing? ==> VotersOf(s.polls, k.poll) == {})
    && (k.ClearingAll? ==> forall p :: k.both || s.fast(p) ==> VotersOf(s.polls, p) == {})
  }

  ghost predicate ApartInv(s: System) {
    forall c :: c in s.clients ==> CallerOk(s, s.clients[c])
  }

  lemma CallerKept(s: System, a: Action, k: Client)
    requires Enabled(s, a) && Apart(s, a) && CallerOk(s, k)
    requires exists c :: c in s.clients && s.clients[c] == k
    requires k.Voting? ==> SomeVoting(s, k.poll, k.user)
    ensures CallerOk(Apply(s, a), k)
  {
    var s' := Apply(s, a);
    if k.Voting? {
      StoredAfter(s, a, k.poll, k.user);
      ForgettingAfter(s, a, k.poll);
    } else if k.Clearing? {
      forall u ensures !Stored(s', k.poll, u) {
        StoredAfter(s, a, k.poll, u);
      }
      NoVoters(s', k.poll);
    } else if k.ClearingAll? {
      forall p | k.both || s.fast(p) ensures VotersOf(s'.polls, p) == {} {
        forall u ensures !Stored(s', p, u) {
          StoredAfter(s, a, p, u);
        }
        NoVoters(s', p);
      }
    }
  }

  lemma ActorOk(s: System, a: Action, c: int)
    requires ApartInv(s) && Enabled(s, a) && Apart(s, a)
    requires c in Apply(s, a).clients && !(c in s.clients && Apply(s, a).clients[c] == s.clients[c])
    ensures CallerOk(Apply(s, a), Apply(s, a).clients[c])
  {
    var s' := Apply(s, a);
    match a
    case VoteSave(_, p, u, o, _) =>
      StoredAfter(s, a, p, u);
      ForgettingAfter(s, a, p);
    case ClearStored(_, p) =>
      KnownAfter(s.polls, Clear(p), p);
    case ClearAllFast(_) =>
    case ClearAllLong(_) =>
      assert CallerOk(s, s.clients[a.client]);
      forall p ensures VotersOf(s'.polls, p) == {} {
        forall u ensures !Stored(s', p, u) {
          StoredAfter(s, a, p, u);
        }
        NoVoters(s', p);
      }
    case _ =>
  }

  lemma ApartStep(s: System, a: Action)
    requires ApartInv(s) && Enabled(s, a) && Apart(s, a)
    ensures ApartInv(Apply(s, a)) && !Breaks(s, a)
  {
    var s' := Apply(s, a);
    forall c | c in s'.clients ensures CallerOk(s', s'.clients[c]) {
      if c in s.clients && s'.clients[c] == s.clients[c] {
        if s.clients[c].Voting? {
          assert Votes(s.clients[c], s.clients[c].poll, s.clients[c].user);
        }
        CallerKept(s, a, s.clients[c]);
      } else {
        ActorOk(s, a, c);
      }
    }
    if a.VoteRemember? || a.ClearForget? || a.ClearAllForget? {
      assert CallerOk(s, s.clients[a.client]);
    }
  }

  ghost predicate AllApart(fast: int -> bool, acts: seq<Action>) {
    acts == [] ||
    (var s, a := Exec(fast, acts[..|acts| - 1]), acts[|acts| - 1];
     AllApart(fast, acts[..|acts| - 1]) && (Enabled(s, a) ==> Apart(s, a)))
  }

  /** If votes and clears of the same poll never overlap, no write comes too late, whatever else runs
      at the same time. */
  lemma {:induction false} ApartIsInTime(fast: int -> bool, acts: seq<Action>)
    requires AllApart(fast, acts)
    ensures InTime(fast, acts) && ApartInv(Exec(fast, acts))
  {
    if acts != [] {
      ApartIsInTime(fast, acts[..|acts| - 1]);
      if Enabled(Exec(fast, acts[..|acts| - 1]), acts[|acts| - 1]) {
        ApartStep(Exec(fast, acts[..|acts| - 1]), acts[|acts| - 1]);
      }
    }
  }

  /********** The two overlaps that spoil the cache **********/

  /** A whole clear between the two steps of a vote: the cache knows a voter who is not stored. */
  lemma ClearInsideVote(s: System, c: int, d: int, p: int, u: int, o: Object, named: bool)
    requires Quiescent(s) && c != d && Answer(s.polls, Vote(p, u, o)) == Done
    ensures var s1 := Apply(s, VoteSave(c, p, u, o, named));
            && ClientOf(s1, d).Ready? && ClientOf(s1, c).Voting?
            && var s2 := Apply(s1, ClearStored(d, p));
            && ClientOf(s2, d) == Clearing(p)
            && var s3 := Apply(s2, ClearForget(d));
            && ClientOf(s3, c) == Voting(p, u, o, named)
            && var s4 := Apply(s3, VoteRemember(c));
            && Quiescent(s4) && Cached(s4, p, u) && !Stored(s4, p, u)
  {
    var s1 := Apply(s, VoteSave(c, p, u, o, named));
    var s2 := Apply(s1, ClearStored(d, p));
    assert ClientOf(s1, d).Ready? && ClientOf(s2, d) == Clearing(p);
    var s3 := Apply(s2, ClearForget(d));
    assert ClientOf(s3, c) == Voting(p, u, o, named);
    StoredAfter(s1, ClearStored(d, p), p, u);
    StoredAfter(s2, ClearForget(d), p, u);
    StoredAfter(s3, VoteRemember(c), p, u);
    CachedAfter(s3, VoteRemember(c), p, u);
  }

  /** A restart and a whole vote between the two steps of a clear: a stored voter is not in the cache. */
  lemma VoteInsideClear(s: System, c: int, d: int, p: int, u: int, o: Object, named: bool)
    requires Quiescent(s) && c != d
    ensures var s1 := Apply(s, ClearStored(d, p));
            var s2 := Apply(s1, StartPoll(p));
            && ClientOf(s2, c).Ready? && Answer(s2.polls, Vote(p, u, o)) == Done
            && var s3 := Apply(s2, VoteSave(c, p, u, o, named));
            && ClientOf(s3, c).Voting?
            && var s4 := Apply(s3, VoteRemember(c));
            && ClientOf(s4, d) == Clearing(p)
            && var s5 := Apply(s4, ClearForget(d));
            && Quiescent(s5) && Stored(s5, p, u) && !Cached(s5, p, u)
  {
    var s1 := Apply(s, ClearStored(d, p));
    var s2 := Apply(s1, StartPoll(p));
    assert ClientOf(s2, c).Ready? && ClientOf(s2, d) == Clearing(p);
    FreshPoll(s.polls, p, u, o);
    var s3 := Apply(s2, VoteSave(c, p, u, o, named));
    StoredAfter(s2, VoteSave(c, p, u, o, named), p, u);
    var s4 := Apply(s3, VoteRemember(c));
    StoredAfter(s3, VoteRemember(c), p, u);
    StoredAfter(s4, ClearForget(d), p, u);
    CachedAfter(s4, ClearForget(d), p, u);
  }

  lemma FreshPoll(s: State, p: int, u: int, o: Object)
    ensures Answer(Next(Next(s, Clear(p)), Start(p)), Vote(p, u, o)) == Done
  {
  }
}
