/** The three backends are interchangeable: one run of operations, three stores, the same answers. */
module Agreement {
  import opened Orders
  import opened Contract
  import Memory
  import Redis
  import Postgres

  method DoMemory(b: Memory.Backend, op: Op) returns (r: Reply)
    requires b.Valid()
    modifies b
    ensures b.Valid() && b.Abs() == Next(old(b.Abs()), op)
    ensures r == Answer(old(b.Abs()), op)
  {
    r := Done;
    match op
    case Start(p) => b.Start(p);
    case Vote(p, u, o) => r := b.Vote(p, u, o);
    case Stop(p) =>
      var found, votes, users := b.Stop(p);
      r := StopReply(found, votes, users);
    case Clear(p) => b.Clear(p);
    case ClearAll => b.ClearAll();
  }

  method DoRedis(b: Redis.Backend, op: Op) returns (r: Reply)
    requires b.Valid()
    modifies b
    ensures b.Valid() && Redis.Abs(b.store) == Next(old(Redis.Abs(b.store)), op)
    ensures r == Answer(old(Redis.Abs(b.store)), op)
  {
    r := Done;
    match op
    case Start(p) => b.Start(p);
    case Vote(p, u, o) => r := b.Vote(p, u, o);
    case Stop(p) =>
      var found, votes, users := b.Stop(p);
      r := StopReply(found, votes, users);
    case Clear(p) => b.Clear(p);
    case ClearAll => b.ClearAll();
  }

  method DoPostgres(b: Postgres.Backend, op: Op) returns (r: Reply)
    requires b.Valid()
    modifies b
    ensures b.Valid() && b.Abs() == Next(old(b.Abs()), Postgres.Narrow(op))
    ensures r == Postgres.Shown(Answer(old(b.Abs()), Postgres.Narrow(op)))
  {
    r := Done;
    match op
    case Start(p) => b.Start(p);
    case Vote(p, u, o) => r := b.Vote(p, u, o);
    case Stop(p) =>
      var found, votes, users := b.Stop(p);
      r := StopReply(found, votes, users);
    case Clear(p) => b.Clear(p);
    case ClearAll => b.ClearAll();
  }

  ghost predicate NoEmptyBallot(s: State) {
    forall p :: p in s ==> [] !in s[p].ballots
  }

  lemma NoEmptyStep(s: State, op: Op)
    requires NoEmptyBallot(s) && Postgres.Fits(op)
    ensures NoEmptyBallot(Next(s, op))
    ensures Postgres.Narrow(op) == op && Postgres.Shown(Answer(s, op)) == Answer(s, op)
  {
  }

  lemma {:induction false} NoEmptyRun(ops: seq<Op>)
    requires forall i :: 0 <= i < |ops| ==> Postgres.Fits(ops[i])
    ensures NoEmptyBallot(Run(map[], ops))
  {
    if ops != [] {
      NoEmptyRun(ops[..|ops| - 1]);
      NoEmptyStep(Run(map[], ops[..|ops| - 1]), ops[|ops| - 1]);
    }
  }

  lemma PrefixStep(ops: seq<Op>, i: nat)
    requires i < |ops|
    ensures Run(map[], ops[..i + 1]) == Next(Run(map[], ops[..i]), ops[i])
    ensures Replies(map[], ops[..i + 1]) == Replies(map[], ops[..i]) + [Answer(Run(map[], ops[..i]), ops[i])]
  {
    assert ops[..i + 1] == ops[..i] + [ops[i]];
    RunSnoc(map[], ops[..i], ops[i]);
  }

  /** LiveVotes shows exactly the voters of every poll; a backend need not list a poll without votes. */
  ghost predicate Lists(live: LiveTable, s: State) {
    forall p :: ListedVoters(live, p) == VotersOf(s, p)
  }

  /** A whole run on a new memory backend, and LiveVotes after it. */
  method RunMemory(ops: seq<Op>) returns (replies: seq<Reply>, live: LiveTable)
    ensures replies == Replies(map[], ops)
    ensures Lists(live, Run(map[], ops))
  {
    var b := new Memory.Backend();
    replies := [];
    for i := 0 to |ops|
      invariant fresh(b) && b.Valid() && b.Abs() == Run(map[], ops[..i])
      invariant replies == Replies(map[], ops[..i])
    {
      PrefixStep(ops, i);
      var r := DoMemory(b, ops[i]);
      replies := replies + [r];
    }
    assert ops[..|ops|] == ops;
    live := b.LiveVotes();
  }

  /** A whole run on a new redis backend. */
  method RunRedis(ops: seq<Op>) returns (replies: seq<Reply>, live: LiveTable)
    ensures replies == Replies(map[], ops)
    ensures Lists(live, Run(map[], ops))
  {
    var b := new Redis.Backend();
    replies := [];
    for i := 0 to |ops|
      invariant fresh(b) && b.Valid() && Redis.Abs(b.store) == Run(map[], ops[..i])
      invariant replies == Replies(map[], ops[..i])
    {
      PrefixStep(ops, i);
      var r := DoRedis(b, ops[i]);
      replies := replies + [r];
    }
    assert ops[..|ops|] == ops;
    live := b.LiveVotes();
  }

  /** What postgres answers to any operations: user ids are cut to 32 bits, empty objects are not shown. */
  ghost function PostgresReplies(ops: seq<Op>): seq<Reply> {
    if ops == [] then [] else
      var before := ops[..|ops| - 1];
      PostgresReplies(before) +
      [Postgres.Shown(Answer(Run(map[], Narrowed(before)), Postgres.Narrow(ops[|ops| - 1])))]
  }

  function Narrowed(ops: seq<Op>): (r: seq<Op>)
    ensures |r| == |ops|
  {
    seq(|ops|, i requires 0 <= i < |ops| => Postgres.Narrow(ops[i]))
  }

  lemma PostgresPrefixStep(ops: seq<Op>, i: nat)
    requires i < |ops|
    ensures Run(map[], Narrowed(ops[..i + 1])) == Next(Run(map[], Narrowed(ops[..i])), Postgres.Narrow(ops[i]))
    ensures PostgresReplies(ops[..i + 1]) ==
            PostgresReplies(ops[..i]) + [Postgres.Shown(Answer(Run(map[], Narrowed(ops[..i])), Postgres.Narrow(ops[i])))]
  {
    assert ops[..i + 1][..i] == ops[..i];
    assert Narrowed(ops[..i + 1]) == Narrowed(ops[..i]) + [Postgres.Narrow(ops[i])];
    RunSnoc(map[], Narrowed(ops[..i]), Postgres.Narrow(ops[i]));
  }

  /** A whole run on new postgres tables, without any condition on the operations. */
  method RunPostgres(ops: seq<Op>) returns (replies: seq<Reply>, live: LiveTable)
    ensures replies == PostgresReplies(ops)
    ensures Lists(live, Run(map[], Narrowed(ops)))
  {
    var b := new Postgres.Backend();
    replies := [];
    for i := 0 to |ops|
      invariant fresh(b) && b.Valid() && b.Abs() == Run(map[], Narrowed(ops[..i]))
      invariant replies == PostgresReplies(ops[..i])
    {
      PostgresPrefixStep(ops, i);
      var r := DoPostgres(b, ops[i]);
      replies := replies + [r];
    }
    assert ops[..|ops|] == ops;
    live := b.LiveVotes();
  }

  lemma {:induction false} PostgresExact(ops: seq<Op>)
    requires forall i :: 0 <= i < |ops| ==> Postgres.Fits(ops[i])
    ensures PostgresReplies(ops) == Replies(map[], ops)
  {
    if ops != [] {
      var before := ops[..|ops| - 1];
      PostgresExact(before);
      assert Narrowed(before) == before;
      NoEmptyRun(before);
      NoEmptyStep(Run(map[], before), ops[|ops| - 1]);
    }
  }

  /** Main theorem: for every sequence of operations with 32-bit user ids and non-empty objects all
      three backends give the answers of the contract: the same errors, the same users in the same
      order, the same votes; and LiveVotes shows the same voters. */
  method Lockstep(ops: seq<Op>)
    returns (memory: seq<Reply>, redis: seq<Reply>, postgres: seq<Reply>,
             liveMemory: LiveTable, liveRedis: LiveTable, livePostgres: LiveTable)
    requires forall i :: 0 <= i < |ops| ==> Postgres.Fits(ops[i])
    ensures memory == redis == postgres == Replies(map[], ops)
    ensures Lists(liveMemory, Run(map[], ops)) && Lists(liveRedis, Run(map[], ops)) && Lists(livePostgres, Run(map[], ops))
  {
    memory, liveMemory := RunMemory(ops);
    redis, liveRedis := RunRedis(ops);
    postgres, livePostgres := RunPostgres(ops);
    PostgresExact(ops);
    assert Narrowed(ops) == ops;
  }

  /** Whether a vote is told from the one that postgres keeps of it, by the answers to the vote and
      to a stop behind it. */
  lemma MisfitShows(s: State, p: int, u: int, o: Object)
    requires p in s && !s[p].stopped && u !in s[p].voters && !Postgres.Fits(Vote(p, u, o))
    ensures var n := Postgres.Narrow(Vote(p, u, o));
            Answer(s, n) != Done ||
            Postgres.Shown(Answer(Next(s, n), Stop(p))) != Answer(Next(s, Vote(p, u, o)), Stop(p))
  {
    var n := Postgres.Narrow(Vote(p, u, o));
    if Answer(s, n) == Done {
      NextVote(s, p, n.user, o);
      NextVote(s, p, u, o);
      var kept, given := s[p].voters + {n.user}, s[p].voters + {u};
      if n.user != u {
        assert n.user in kept && n.user !in given;
        assert Elements(SortedSet(kept)) != Elements(SortedSet(given));
      } else {
        var ballots := s[p].ballots + multiset{o};
        assert o == [] && Postgres.WithoutEmpty(ballots)[[]] == 0 != ballots[[]];
      }
    }
  }

  lemma TwoMore(ops: seq<Op>, a: Op, b: Op)
    ensures var all := ops + [a] + [b]; var s := Run(map[], ops);
            Replies(map[], all) == Replies(map[], ops) + [Answer(s, a)] + [Answer(Next(s, a), b)]
  {
    RunSnoc(map[], ops, a);
    RunSnoc(map[], ops + [a], b);
  }

  lemma PostgresSnoc(ops: seq<Op>, op: Op)
    ensures Narrowed(ops + [op]) == Narrowed(ops) + [Postgres.Narrow(op)]
    ensures PostgresReplies(ops + [op]) ==
            PostgresReplies(ops) + [Postgres.Shown(Answer(Run(map[], Narrowed(ops)), Postgres.Narrow(op)))]
  {
    assert (ops + [op])[..|ops|] == ops;
  }

  lemma PostgresTwoMore(ops: seq<Op>, a: Op, b: Op)
    ensures var all := ops + [a] + [b]; var s, n := Run(map[], Narrowed(ops)), Postgres.Narrow(a);
            PostgresReplies(all) == PostgresReplies(ops) + [Postgres.Shown(Answer(s, n))]
                                  + [Postgres.Shown(Answer(Next(s, n), Postgres.Narrow(b)))]
  {
    PostgresSnoc(ops, a);
    PostgresSnoc(ops + [a], b);
    RunSnoc(map[], Narrowed(ops), Postgres.Narrow(a));
  }

  lemma MisfitDiffers(ops: seq<Op>, p: int, u: int, o: Object)
    requires forall i :: 0 <= i < |ops| ==> Postgres.Fits(ops[i])
    requires Admits(ops, p, u) && !Postgres.Fits(Vote(p, u, o))
    ensures var all := ops + [Vote(p, u, o)] + [Stop(p)]; PostgresReplies(all) != Replies(map[], all)
  {
    var v, s := Vote(p, u, o), Run(map[], ops);
    var n := Postgres.Narrow(v);
    assert Narrowed(ops) == ops;
    RunIsPrescribed(ops, p);
    MisfitShows(s, p, u, o);
    PostgresExact(ops);
    TwoMore(ops, v, Stop(p));
    PostgresTwoMore(ops, v, Stop(p));
    LastTwoDiffer(Replies(map[], ops), Postgres.Shown(Answer(s, n)), Postgres.Shown(Answer(Next(s, n), Stop(p))),
                  Done, Answer(Next(s, v), Stop(p)));
  }

  lemma LastTwoDiffer(rs: seq<Reply>, a: Reply, b: Reply, c: Reply, d: Reply)
    requires a != c || b != d
    ensures rs + [a] + [b] != rs + [c] + [d]
  {
    var x, y := rs + [a] + [b], rs + [c] + [d];
    assert x[|rs|] == a && x[|rs| + 1] == b && y[|rs|] == c && y[|rs| + 1] == d;
  }

  /** Exact condition: after any operations that fit, postgres answers a vote that the contract
      admits, and the stop behind it, as the contract does iff the vote fits: its user id has 32 bits
      and its object is not empty. */
  lemma PostgresExactIff(ops: seq<Op>, p: int, u: int, o: Object)
    requires forall i :: 0 <= i < |ops| ==> Postgres.Fits(ops[i])
    requires Admits(ops, p, u)
    ensures var all := ops + [Vote(p, u, o)] + [Stop(p)];
            PostgresReplies(all) == Replies(map[], all) <==> Postgres.Fits(Vote(p, u, o))
  {
    if Postgres.Fits(Vote(p, u, o)) {
      PostgresExact(ops + [Vote(p, u, o)] + [Stop(p)]);
    } else {
      MisfitDiffers(ops, p, u, o);
    }
  }
}
