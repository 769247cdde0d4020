/** The backend that keeps everything in two maps. */
module Memory {
  import opened Orders
  import opened Contract

  datatype PollState = Unknown | Started | Ended

  function Table(votes: map<int, map<int, Object>>, p: int): map<int, Object> {
    if p in votes then votes[p] else map[]
  }

  ghost function AbsOf(state: map<int, PollState>, votes: map<int, map<int, Object>>): State {
    map p | p in state :: PollOf(state[p] == Ended, Table(votes, p))
  }

  lemma AbsUpdate(state: map<int, PollState>, votes: map<int, map<int, Object>>, p: int, m: map<int, Object>)
    requires p in state
    ensures AbsOf(state, votes[p := m]) == AbsOf(state, votes)[p := PollOf(state[p] == Ended, m)]
  {
    assert forall q :: q != p ==> Table(votes[p := m], q) == Table(votes, q);
  }

  lemma AbsState(state: map<int, PollState>, votes: map<int, map<int, Object>>, p: int, to: PollState)
    ensures AbsOf(state[p := to], votes) == AbsOf(state, votes)[p := PollOf(to == Ended, Table(votes, p))]
  {
  }

  lemma AbsStart(state: map<int, PollState>, votes: map<int, map<int, Object>>, p: int)
    requires votes.Keys <= state.Keys && (p in state ==> state[p] == Started)
    ensures AbsOf(state[p := Started], votes) == Next(AbsOf(state, votes), Start(p))
  {
    AbsState(state, votes, p, Started);
    if p in state {
      assert state[p := Started] == state;
    } else {
      assert PollOf(false, map[]) == Poll(false, {}, multiset{});
    }
  }

  lemma AbsStop(state: map<int, PollState>, votes: map<int, map<int, Object>>, p: int)
    requires p in state
    ensures AbsOf(state[p := Ended], votes) == Next(AbsOf(state, votes), Stop(p))
    ensures Answer(AbsOf(state, votes), Stop(p)) == Tally(SortedSet(Table(votes, p).Keys), Values(Table(votes, p)))
  {
    AbsState(state, votes, p, Ended);
  }

  lemma AbsVote(state: map<int, PollState>, votes: map<int, map<int, Object>>, p: int, u: int, o: Object)
    requires p in state && state[p] == Started && u !in Table(votes, p)
    ensures AbsOf(state, votes[p := Table(votes, p)[u := o]]) == Next(AbsOf(state, votes), Vote(p, u, o))
  {
    AbsUpdate(state, votes, p, Table(votes, p)[u := o]);
    PollOfInsert(Table(votes, p), u, o);
  }

  class Backend {
    var votes: map<int, map<int, Object>>
    var state: map<int, PollState>

    ghost predicate Valid()
      reads this
    {
      && votes.Keys <= state.Keys
      && forall p :: p in state ==> state[p] != Unknown
    }

    /** Go's b.state[p], with the zero value for a missing key. */
    function StateOf(p: int): PollState
      reads this
    {
      if p in state then state[p] else Unknown
    }

    /** Go's b.votes[p]; a nil map reads like an empty one. */
    function VotesOf(p: int): map<int, Object>
      reads this
    {
      Table(votes, p)
    }

    ghost function Abs(): State
      reads this
    {
      AbsOf(state, votes)
    }

    constructor ()
      ensures Valid() && Abs() == map[]
    {
      votes := map[];
      state := map[];
    }

    method Start(p: int)
      requires Valid()
      modifies this
      ensures Valid() && Abs() == Next(old(Abs()), Op.Start(p))
    {
      if StateOf(p) == Ended {
        return;
      }
      AbsStart(state, votes, p);
      state := state[p := Started];
    }

    method Stop(p: int) returns (found: bool, objects: seq<Object>, users: seq<int>)
      requires Valid()
      modifies this
      ensures Valid() && Abs() == Next(old(Abs()), Op.Stop(p))
      ensures StopReply(found, objects, users) == Answer(old(Abs()), Op.Stop(p))
    {
      if StateOf(p) == Unknown {
        return false, [], [];
      }
      AbsStop(state, votes, p);
      state := state[p := Ended];
      found := true;
      users := SortedKeys(VotesOf(p));
      objects := CollectValues(VotesOf(p));
    }

    method Vote(p: int, u: int, vote: Object) returns (r: Reply)
      requires Valid()
      modifies this
      ensures Valid() && Abs() == Next(old(Abs()), Op.Vote(p, u, vote))
      ensures r == Answer(old(Abs()), Op.Vote(p, u, vote))
    {
      if StateOf(p) == Unknown {
        return NotExist;
      }
      if StateOf(p) == Ended {
        return Stopped;
      }
      if p !in votes {
        votes := votes[p := map[]];
      }
      if u in votes[p] {
        return DoubleVote;
      }
      votes := votes[p := votes[p][u := vote]];
      assert votes == old(votes)[p := old(VotesOf(p))[u := vote]];
      AbsVote(state, old(votes), p, u, vote);
      r := Done;
    }

    method Clear(p: int)
      requires Valid()
      modifies this
      ensures Valid() && Abs() == Next(old(Abs()), Op.Clear(p))
    {
      votes := votes - {p};
      state := state - {p};
    }

    method ClearAll()
      requires Valid()
      modifies this
      ensures Valid() && Abs() == Next(old(Abs()), Op.ClearAll)
    {
      votes := map[];
      state := map[];
    }

    /** Lists the polls that have votes, with every vote in clear. */
    method LiveVotes() returns (live: LiveTable)
      requires Valid()
      ensures forall p :: ListedVoters(live, p) == VotersOf(Abs(), p)
      ensures forall p, u :: p in live && u in live[p] ==> u in VotesOf(p) && live[p][u] == Some(VotesOf(p)[u])
    {
      live := map p | p in votes :: map u | u in votes[p] :: Some(votes[p][u]);
    }
  }
}
