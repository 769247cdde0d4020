/** The poll machine that the Backend interface describes, and what it promises over whole runs. */
module Contract {
  import opened Orders

  type byte = b: int | 0 <= b < 256
  type Object = seq<byte>

  /** What a backend knows about a poll that was started and not cleared. */
  datatype Poll = Poll(stopped: bool, voters: set<int>, ballots: multiset<Object>)

  /** Polls that are not in the map are unknown. */
  type State = map<int, Poll>

  datatype Op =
    | Start(poll: int)
    | Vote(poll: int, user: int, vote: Object)
    | Stop(poll: int)
    | Clear(poll: int)
    | ClearAll

  datatype Reply =
    | Done
    | NotExist
    | DoubleVote
    | Stopped
    | Tally(users: seq<int>, ballots: multiset<Object>)

  datatype Option<+T> = None | Some(value: T)

  /** What LiveVotes returns: for each listed poll the users and their votes; a vote may be hidden. */
  type LiveTable = map<int, map<int, Option<Object>>>

  ghost function VotersOf(s: State, p: int): set<int> {
    if p in s then s[p].voters else {}
  }

  ghost function ListedVoters(live: LiveTable, p: int): set<int> {
    if p in live then live[p].Keys else {}
  }

  /** The poll that is stored as a map from each user to the vote. */
  ghost function PollOf(stopped: bool, votes: map<int, Object>): Poll {
    Poll(stopped, votes.Keys, Values(votes))
  }

  lemma PollOfInsert(votes: map<int, Object>, u: int, o: Object)
    requires u !in votes
    ensures PollOf(false, votes[u := o]) == Poll(false, votes.Keys + {u}, Values(votes) + multiset{o})
  {
    ValuesInsert(votes, u, o);
  }

  /** Go's iteration over a map takes the keys in some order; this is one step of it. */
  method AnyOf<T(==)>(s: set<T>) returns (x: T)
    requires s != {}
    ensures x in s
  {
    ghost var any := Pick(s);
    x :| x in s;
  }

  /** slices.Collect(maps.Keys(m)) followed by sort.Ints. */
  method SortedKeys(m: map<int, Object>) returns (users: seq<int>)
    ensures users == SortedSet(m.Keys)
  {
    users := [];
    var left := m.Keys;
    while left != {}
      invariant left <= m.Keys
      invariant Elements(users) == m.Keys - left && Distinct(users)
      decreases left
    {
      var u := AnyOf(left);
      Snoc(users, u);
      left := left - {u};
      users := users + [u];
    }
    assert Elements(users) == m.Keys;
    SortIntsSorts(users);
    users := SortInts(users);
  }

  /** slices.Collect(maps.Values(m)). */
  method CollectValues(m: map<int, Object>) returns (objects: seq<Object>)
    ensures multiset(objects) == Values(m)
  {
    objects := [];
    var left := m.Keys;
    while left != {}
      invariant left <= m.Keys
      invariant multiset(objects) + ValuesOn(m, left) == Values(m)
      decreases left
    {
      var u := AnyOf(left);
      ValuesOnSplit(m, left, u);
      left := left - {u};
      objects := objects + [m[u]];
    }
  }

  /** The reply of a Stop that returned `votes` and `users`, or that found no poll. */
  function StopReply(found: bool, votes: seq<Object>, users: seq<int>): Reply {
    if found then Tally(users, multiset(votes)) else NotExist
  }

  ghost function Answer(s: State, op: Op): Reply {
    match op
    case Vote(p, u, _) =>
      if p !in s then NotExist
      else if s[p].stopped then Stopped
      else if u in s[p].voters then DoubleVote
      else Done
    case Stop(p) =>
      if p !in s then NotExist else Tally(SortedSet(s[p].voters), s[p].ballots)
    case _ => Done
  }

  ghost function Next(s: State, op: Op): State {
    match op
    case Start(p) =>
      if p in s then s else s[p := Poll(false, {}, multiset{})]
    case Vote(p, u, o) =>
      if Answer(s, op) != Done then s
      else s[p := s[p].(voters := s[p].voters + {u}, ballots := s[p].ballots + multiset{o})]
    case Stop(p) =>
      if p !in s then s else s[p := s[p].(stopped := true)]
    case Clear(p) => s - {p}
    case ClearAll => map[]
  }

  lemma NextVote(s: State, p: int, u: int, o: Object)
    ensures Answer(s, Vote(p, u, o)) != Done ==> Next(s, Vote(p, u, o)) == s
    ensures Answer(s, Vote(p, u, o)) == Done ==>
              && p in s
              && Next(s, Vote(p, u, o)) == s[p := Poll(false, s[p].voters + {u}, s[p].ballots + multiset{o})]
  {
  }

  ghost function Run(s: State, ops: seq<Op>): State {
    if ops == [] then s else Next(Run(s, ops[..|ops| - 1]), ops[|ops| - 1])
  }

  /** The replies of a run, one for each operation. */
  ghost function Replies(s: State, ops: seq<Op>): (r: seq<Reply>)
    ensures |r| == |ops|
  {
    if ops == [] then [] else
      var before := ops[..|ops| - 1];
      Replies(s, before) + [Answer(Run(s, before), ops[|ops| - 1])]
  }

  lemma RunSnoc(s: State, ops: seq<Op>, op: Op)
    ensures Run(s, ops + [op]) == Next(Run(s, ops), op)
    ensures Replies(s, ops + [op]) == Replies(s, ops) + [Answer(Run(s, ops), op)]
  {
  }

  lemma RunClearAll(s: State, ops: seq<Op>)
    ensures Run(s, ops + [ClearAll]) == map[]
  {
    RunSnoc(s, ops, ClearAll);
  }

  lemma {:induction false} RunConcat(s: State, a: seq<Op>, b: seq<Op>)
    ensures Run(s, a + b) == Run(Run(s, a), b)
    decreases |b|
  {
    if b == [] {
      assert a + b == a;
    } else {
      var front := b[..|b| - 1];
      assert (a + b)[..|a + b| - 1] == a + front;
      RunConcat(s, a, front);
    }
  }

  /** Two states hold the same for `p`. */
  ghost predicate SameAt(s: State, t: State, p: int) {
    (p in s <==> p in t) && (p in s ==> s[p] == t[p])
  }

  /** What happens to a poll, and what is answered about it, depends on that poll only. */
  lemma NextLocal(s: State, t: State, op: Op, p: int)
    requires SameAt(s, t, p)
    ensures SameAt(Next(s, op), Next(t, op), p)
    ensures (op.Vote? || op.Stop?) && op.poll == p ==> Answer(s, op) == Answer(t, op)
  {
  }

  /********** What a run means, read off the operations alone **********/

  predicate Clears(op: Op, p: int) {
    op == Clear(p) || op == ClearAll
  }

  /** The number of leading operations whose effect on `p` was cleared. */
  function Forgotten(ops: seq<Op>, p: int): (n: nat)
    ensures n <= |ops|
  {
    if ops == [] then 0
    else if Clears(ops[|ops| - 1], p) then |ops|
    else Forgotten(ops[..|ops| - 1], p)
  }

  /** A start of `p` was not cleared since. */
  ghost predicate Opened(ops: seq<Op>, p: int) {
    exists i :: Forgotten(ops, p) <= i < |ops| && ops[i] == Start(p)
  }

  /** A stop of `p` came after a start of `p`, and neither was cleared since. */
  ghost predicate Closed(ops: seq<Op>, p: int) {
    exists i, j :: Forgotten(ops, p) <= i < j < |ops| && ops[i] == Start(p) && ops[j] == Stop(p)
  }

  /** The votes on `p` that count: cast on an open poll, the first one of each user, not cleared since. */
  ghost function Counted(ops: seq<Op>, p: int): seq<(int, Object)>
    decreases ops, 0
  {
    if ops == [] then [] else
      var before, op := ops[..|ops| - 1], ops[|ops| - 1];
      if Clears(op, p) then []
      else if op.Vote? && op.poll == p && Admits(before, p, op.user) then Counted(before, p) + [(op.user, op.vote)]
      else Counted(before, p)
  }

  ghost predicate Admits(ops: seq<Op>, p: int, u: int)
    decreases ops, 1
  {
    Opened(ops, p) && !Closed(ops, p) && u !in UsersOf(Counted(ops, p))
  }

  ghost function UsersOf(votes: seq<(int, Object)>): set<int> {
    set v | v in votes :: v.0
  }

  ghost function ObjectsOf(votes: seq<(int, Object)>): (r: seq<Object>)
    ensures |r| == |votes|
  {
    seq(|votes|, i requires 0 <= i < |votes| => votes[i].1)
  }

  lemma OpenedSnoc(ops: seq<Op>, op: Op, p: int)
    ensures Opened(ops + [op], p) <==> !Clears(op, p) && (Opened(ops, p) || op == Start(p))
    ensures Closed(ops + [op], p) <==> !Clears(op, p) && (Closed(ops, p) || (Opened(ops, p) && op == Stop(p)))
  {
    var all := ops + [op];
    assert all[..|ops|] == ops;
    if !Clears(op, p) {
      assert Forgotten(all, p) == Forgotten(ops, p);
      if Opened(ops, p) {
        var i :| Forgotten(ops, p) <= i < |ops| && ops[i] == Start(p);
        assert all[i] == Start(p);
        if op == Stop(p) {
          assert all[|ops|] == Stop(p);
        }
      }
      if op == Start(p) {
        assert all[|ops|] == Start(p);
      }
      if Closed(ops, p) {
        var i, j :| Forgotten(ops, p) <= i < j < |ops| && ops[i] == Start(p) && ops[j] == Stop(p);
        assert all[i] == Start(p) && all[j] == Stop(p);
      }
      if Opened(all, p) {
        var i :| Forgotten(all, p) <= i < |all| && all[i] == Start(p);
        assert i < |ops| ==> ops[i] == Start(p);
      }
      if Closed(all, p) {
        var i, j :| Forgotten(all, p) <= i < j < |all| && all[i] == Start(p) && all[j] == Stop(p);
        assert ops[i] == Start(p);
        assert j < |ops| ==> ops[j] == Stop(p);
      }
    }
  }

  lemma CountedAdmitted(ops: seq<Op>, p: int, u: int, o: Object)
    requires Admits(ops, p, u)
    ensures Counted(ops + [Vote(p, u, o)], p) == Counted(ops, p) + [(u, o)]
  {
  }

  /** The state that the operations alone prescribe for poll `p`. */
  ghost predicate Prescribed(s: State, ops: seq<Op>, p: int) {
    && (p in s <==> Opened(ops, p))
    && (p in s ==>
          && (s[p].stopped <==> Closed(ops, p))
          && s[p].voters == UsersOf(Counted(ops, p))
          && s[p].ballots == multiset(ObjectsOf(Counted(ops, p)))
          && |s[p].voters| == |Counted(ops, p)|)
    && (p !in s ==> Counted(ops, p) == [])
  }

  /** A clear makes it irrelevant where the run began. */
  lemma {:induction false} RunForgets(s: State, ops: seq<Op>, p: int)
    requires Forgotten(ops, p) > 0
    ensures SameAt(Run(s, ops), Run(map[], ops), p)
  {
    var before, op := ops[..|ops| - 1], ops[|ops| - 1];
    if Clears(op, p) {
      KnownAfter(Run(s, before), op, p);
      KnownAfter(Run(map[], before), op, p);
    } else {
      RunForgets(s, before, p);
      NextLocal(Run(s, before), Run(map[], before), op, p);
    }
  }

  lemma CountedSnoc(votes: seq<(int, Object)>, u: int, o: Object)
    ensures UsersOf(votes + [(u, o)]) == UsersOf(votes) + {u}
    ensures ObjectsOf(votes + [(u, o)]) == ObjectsOf(votes) + [o]
  {
  }

  /** Main theorem: after every run from the empty backend, each poll is exactly what the operations prescribe. */
  lemma {:induction false} RunIsPrescribed(ops: seq<Op>, p: int)
    ensures Prescribed(Run(map[], ops), ops, p)
  {
    if ops == [] {
      assert Forgotten(ops, p) == 0;
    } else {
      var before, op := ops[..|ops| - 1], ops[|ops| - 1];
      assert ops == before + [op];
      RunIsPrescribed(before, p);
      OpenedSnoc(before, op, p);
      PrescribedStep(Run(map[], before), before, op, p);
    }
  }

  lemma PrescribedStep(s: State, ops: seq<Op>, op: Op, p: int)
    requires Prescribed(s, ops, p)
    ensures Prescribed(Next(s, op), ops + [op], p)
  {
    if op.Vote? && op.poll == p {
      PrescribedVote(s, ops, p, op.user, op.vote);
    } else {
      PrescribedOther(s, ops, op, p);
    }
  }

  lemma PrescribedVote(s: State, ops: seq<Op>, p: int, u: int, o: Object)
    requires Prescribed(s, ops, p)
    ensures Prescribed(Next(s, Vote(p, u, o)), ops + [Vote(p, u, o)], p)
  {
    OpenedSnoc(ops, Vote(p, u, o), p);
    CountedStep(ops, Vote(p, u, o), p);
    NextVote(s, p, u, o);
    assert Answer(s, Vote(p, u, o)) == Done <==> Admits(ops, p, u);
    CountedSnoc(Counted(ops, p), u, o);
  }

  lemma PrescribedOther(s: State, ops: seq<Op>, op: Op, p: int)
    requires Prescribed(s, ops, p) && !(op.Vote? && op.poll == p)
    ensures Prescribed(Next(s, op), ops + [op], p)
  {
    OpenedSnoc(ops, op, p);
    CountedStep(ops, op, p);
    KnownAfter(s, op, p);
    assert Closed(ops, p) ==> Opened(ops, p);
    if p in s && !Clears(op, p) && op != Stop(p) {
      assert Next(s, op)[p] == s[p];
    }
  }

  lemma CountedStep(ops: seq<Op>, op: Op, p: int)
    ensures Counted(ops + [op], p) ==
            if Clears(op, p) then []
            else if op.Vote? && op.poll == p && Admits(ops, p, op.user) then Counted(ops, p) + [(op.user, op.vote)]
            else Counted(ops, p)
  {
  }

  /** The votes as a stop returns them. */
  ghost function TallyOf(votes: seq<(int, Object)>): Reply {
    Tally(SortedSet(UsersOf(votes)), multiset(ObjectsOf(votes)))
  }

  /** The answers that the operations alone prescribe. */
  ghost function PrescribedAnswer(ops: seq<Op>, op: Op): Reply {
    match op
    case Vote(p, u, _) =>
      if !Opened(ops, p) then NotExist
      else if Closed(ops, p) then Stopped
      else if u in UsersOf(Counted(ops, p)) then DoubleVote
      else Done
    case Stop(p) =>
      if !Opened(ops, p) then NotExist
      else TallyOf(Counted(ops, p))
    case _ => Done
  }

  /** A vote is taken iff the poll is open and the user is new; a stop returns exactly the votes that count. */
  lemma AnswerIsPrescribed(ops: seq<Op>, op: Op)
    ensures Answer(Run(map[], ops), op) == PrescribedAnswer(ops, op)
  {
    if op.Vote? || op.Stop? {
      RunIsPrescribed(ops, op.poll);
    }
  }

  /** The votes on `p` since its last clear that were answered without an error, by their positions. */
  ghost function Successes(ops: seq<Op>, p: int): set<int> {
    set i | 0 <= i < |ops| && SuccessAt(ops, p, i)
  }

  ghost predicate SuccessAt(ops: seq<Op>, p: int, i: int)
    requires 0 <= i < |ops|
  {
    Forgotten(ops, p) <= i && ops[i].Vote? && ops[i].poll == p && Replies(map[], ops)[i] == Done
  }

  lemma SuccessesStep(ops: seq<Op>, op: Op, p: int)
    ensures Successes(ops + [op], p) ==
            if Clears(op, p) then {}
            else if op.Vote? && op.poll == p && Answer(Run(map[], ops), op) == Done then Successes(ops, p) + {|ops|}
            else Successes(ops, p)
  {
    var more := op.Vote? && op.poll == p && Answer(Run(map[], ops), op) == Done;
    var after := if Clears(op, p) then {} else if more then Successes(ops, p) + {|ops|} else Successes(ops, p);
    var successes := Successes(ops + [op], p);
    forall i ensures i in successes <==> i in after {
      if 0 <= i <= |ops| {
        SuccessAtStep(ops, op, p, i);
      }
    }
    assert successes == after;
  }

  lemma SuccessAtStep(ops: seq<Op>, op: Op, p: int, i: int)
    requires 0 <= i <= |ops|
    ensures SuccessAt(ops + [op], p, i) <==>
            !Clears(op, p) && if i < |ops| then SuccessAt(ops, p, i)
                              else op.Vote? && op.poll == p && Answer(Run(map[], ops), op) == Done
  {
    assert (ops + [op])[..|ops|] == ops;
    RunSnoc(map[], ops, op);
  }

  lemma {:induction false} SuccessesCounted(ops: seq<Op>, p: int)
    ensures |Successes(ops, p)| == |Counted(ops, p)|
  {
    if ops == [] {
      assert Successes(ops, p) == {};
    } else {
      var before, op := ops[..|ops| - 1], ops[|ops| - 1];
      assert ops == before + [op];
      SuccessesCounted(before, p);
      SuccessesStep(before, op, p);
      CountedStep(before, op, p);
      AnswerIsPrescribed(before, op);
    }
  }

  /** Conservation: users, objects and votes that were answered without an error since the last clear
      are equal in number. */
  lemma VotesConserved(ops: seq<Op>, p: int)
    ensures |Successes(ops, p)| == |Counted(ops, p)|
    ensures p in Run(map[], ops) ==>
              |Run(map[], ops)[p].voters| == |Run(map[], ops)[p].ballots| == |Successes(ops, p)|
    ensures p !in Run(map[], ops) ==> Successes(ops, p) == {}
  {
    RunIsPrescribed(ops, p);
    SuccessesCounted(ops, p);
  }

  /** Which polls are known after an operation. */
  lemma KnownAfter(s: State, op: Op, p: int)
    ensures p in Next(s, op) <==> (p in s || op == Start(p)) && !Clears(op, p)
  {
  }

  lemma StoppedStep(s: State, op: Op, p: int)
    requires p in s && s[p].stopped && !Clears(op, p)
    ensures p in Next(s, op) && Next(s, op)[p] == s[p]
  {
  }

  /** From a stop to the next clear nothing about the poll changes: later starts, stops and votes
      leave it alone, every vote is refused as stopped and every stop gives the same tally. */
  lemma {:induction false} StoppedIsFinal(s: State, ops: seq<Op>, p: int)
    requires p in s && s[p].stopped
    requires forall i :: 0 <= i < |ops| ==> !Clears(ops[i], p)
    ensures p in Run(s, ops) && Run(s, ops)[p] == s[p]
    ensures forall i :: 0 <= i < |ops| && ops[i].Vote? && ops[i].poll == p ==> Replies(s, ops)[i] == Stopped
    ensures forall i :: 0 <= i < |ops| && ops[i] == Stop(p) ==> Replies(s, ops)[i] == Answer(s, Stop(p))
  {
    if ops != [] {
      StoppedIsFinal(s, ops[..|ops| - 1], p);
    }
  }
}
