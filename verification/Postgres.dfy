/** The two tables of the postgres backend and its operations, run one at a time. */
module Postgres {
  import opened Orders
  import opened Contract
  import opened UserIds

  /** A row of vote.poll; user_ids that are NULL read as no bytes. */
  datatype Row = Row(stopped: bool, userIds: seq<byte>)

  type Rows = map<int, Row>

  /** The table vote.objects in the order of its serial id: poll_id and vote. */
  type ObjectRows = seq<(int, Object)>

  /** The objects of one poll. */
  function ObjectsIn(objects: ObjectRows, p: int): seq<Object> {
    if objects == [] then [] else
      var last := objects[|objects| - 1];
      ObjectsIn(objects[..|objects| - 1], p) + if last.0 == p then [last.1] else []
  }

  /** ON DELETE CASCADE. */
  function Cascade(objects: ObjectRows, p: int): ObjectRows {
    if objects == [] then [] else
      var last := objects[|objects| - 1];
      Cascade(objects[..|objects| - 1], p) + if last.0 == p then [] else [last]
  }

  lemma {:induction false} CascadeObjects(objects: ObjectRows, p: int, q: int)
    ensures ObjectsIn(Cascade(objects, p), q) == if q == p then [] else ObjectsIn(objects, q)
  {
    if objects != [] {
      var front, last := objects[..|objects| - 1], objects[|objects| - 1];
      CascadeObjects(front, p, q);
      ObjectsSnoc(Cascade(front, p), last, q);
      assert Cascade(objects, p) == Cascade(front, p) + if last.0 == p then [] else [last];
      assert Cascade(front, p) + [] == Cascade(front, p);
    }
  }

  lemma ObjectsSnoc(objects: ObjectRows, row: (int, Object), q: int)
    ensures ObjectsIn(objects + [row], q) == ObjectsIn(objects, q) + if row.0 == q then [row.1] else []
  {
  }

  /** The rows of objects that stopOnce keeps: the empty ones are skipped. */
  function NonEmpty(objects: seq<Object>): seq<Object> {
    if objects == [] then [] else
      var last := objects[|objects| - 1];
      NonEmpty(objects[..|objects| - 1]) + if last == [] then [] else [last]
  }

  /********** Abstraction **********/

  ghost predicate ValidRow(row: Row) {
    |row.userIds| % 4 == 0 && Increasing(FromBytes(row.userIds))
  }

  ghost predicate ValidTables(rows: Rows, objects: ObjectRows) {
    && (forall p :: p in rows ==> ValidRow(rows[p]))
    && (forall p :: p !in rows ==> ObjectsIn(objects, p) == [])
  }

  ghost function AbsPoll(row: Row, objects: seq<Object>): Poll {
    Poll(row.stopped, Elements(FromBytes(row.userIds)), multiset(objects))
  }

  ghost function AbsOf(rows: Rows, objects: ObjectRows): State {
    map p | p in rows :: AbsPoll(rows[p], ObjectsIn(objects, p))
  }

  /** The operation that is stored: user ids are cut to 32 bits. */
  function Narrow(op: Op): Op {
    if op.Vote? then op.(user := ToInt32(op.user)) else op
  }

  /** The reply that is sent: a stop leaves out empty objects. */
  function Shown(r: Reply): Reply {
    if r.Tally? then r.(ballots := WithoutEmpty(r.ballots)) else r
  }

  function WithoutEmpty(ballots: multiset<Object>): multiset<Object> {
    var empty: Object := [];
    ballots[empty := 0]
  }

  lemma {:induction false} NonEmptyShown(objects: seq<Object>)
    ensures multiset(NonEmpty(objects)) == WithoutEmpty(multiset(objects))
  {
    if objects != [] {
      var front, last := objects[..|objects| - 1], objects[|objects| - 1];
      assert objects == front + [last];
      NonEmptyShown(front);
    }
  }

  /** The identifiers and objects for which nothing is lost. */
  predicate Fits(op: Op) {
    op.Vote? ==> -TWO31 <= op.user < TWO31 && op.vote != []
  }

  /********** How each statement changes the abstract state **********/

  lemma AbsPut(rows: Rows, objects: ObjectRows, p: int, row: Row, objects': ObjectRows)
    requires forall q :: q != p ==> ObjectsIn(objects', q) == ObjectsIn(objects, q)
    ensures AbsOf(rows[p := row], objects') == AbsOf(rows, objects)[p := AbsPoll(row, ObjectsIn(objects', p))]
  {
  }

  lemma StartedTablesValid(rows: Rows, objects: ObjectRows, p: int)
    requires ValidTables(rows, objects)
    ensures ValidTables(rows[p := Row(false, [])], objects)
  {
  }

  lemma AbsStart(rows: Rows, objects: ObjectRows, p: int)
    requires ValidTables(rows, objects) && p !in rows
    ensures AbsOf(rows[p := Row(false, [])], objects) == Next(AbsOf(rows, objects), Start(p))
  {
    AbsPut(rows, objects, p, Row(false, []), objects);
    EmptyElements(FromBytes([]));
    assert ObjectsIn(objects, p) == [];
  }

  /** The row that voteOnce writes. */
  function VotedRow(row: Row, id: int32): Row {
    row.(userIds := ToBytes(InsertedId(FromBytes(row.userIds), id)))
  }

  lemma VotedRowValid(row: Row, id: int32)
    requires ValidRow(row) && id !in FromBytes(row.userIds)
    ensures ValidRow(VotedRow(row, id))
    ensures Elements(FromBytes(VotedRow(row, id).userIds)) == Elements(FromBytes(row.userIds)) + {id}
  {
    var ids := FromBytes(row.userIds);
    InsertedIncreasing(ids, id);
    DecodeEncode(InsertedId(ids, id));
  }

  lemma ObjectsAppend(objects: ObjectRows, p: int, o: Object)
    ensures forall q :: q != p ==> ObjectsIn(objects + [(p, o)], q) == ObjectsIn(objects, q)
    ensures ObjectsIn(objects + [(p, o)], p) == ObjectsIn(objects, p) + [o]
  {
  }

  lemma PollVoted(row: Row, objects: seq<Object>, id: int32, o: Object)
    requires ValidRow(row) && id !in FromBytes(row.userIds)
    ensures AbsPoll(VotedRow(row, id), objects + [o])
         == Poll(row.stopped, AbsPoll(row, objects).voters + {id}, AbsPoll(row, objects).ballots + multiset{o})
  {
    VotedRowValid(row, id);
  }

  lemma VotedTablesValid(rows: Rows, objects: ObjectRows, p: int, id: int32, o: Object)
    requires ValidTables(rows, objects) && p in rows && id !in FromBytes(rows[p].userIds)
    ensures ValidTables(rows[p := VotedRow(rows[p], id)], objects + [(p, o)])
  {
    ObjectsAppend(objects, p, o);
    VotedRowValid(rows[p], id);
  }

  lemma AbsVoted(rows: Rows, objects: ObjectRows, p: int, id: int32, o: Object)
    requires ValidTables(rows, objects) && p in rows
    requires !rows[p].stopped && id !in FromBytes(rows[p].userIds)
    ensures AbsOf(rows[p := VotedRow(rows[p], id)], objects + [(p, o)])
         == Next(AbsOf(rows, objects), Vote(p, id, o))
  {
    ObjectsAppend(objects, p, o);
    AbsPut(rows, objects, p, VotedRow(rows[p], id), objects + [(p, o)]);
    PollVoted(rows[p], ObjectsIn(objects, p), id, o);
  }

  /** What voteOnce decides from the row it reads. */
  ghost function VoteVerdict(rows: Rows, p: int, id: int32): Reply {
    if p !in rows then NotExist
    else if rows[p].stopped then Stopped
    else if id in FromBytes(rows[p].userIds) then DoubleVote
    else Done
  }

  lemma VerdictIsAnswer(rows: Rows, objects: ObjectRows, p: int, id: int32, o: Object)
    ensures VoteVerdict(rows, p, id) == Answer(AbsOf(rows, objects), Vote(p, id, o))
  {
  }

  lemma StoppedTablesValid(rows: Rows, objects: ObjectRows, p: int)
    requires ValidTables(rows, objects) && p in rows
    ensures ValidTables(rows[p := rows[p].(stopped := true)], objects)
  {
  }

  lemma AbsStopped(rows: Rows, objects: ObjectRows, p: int)
    requires p in rows
    ensures AbsOf(rows[p := rows[p].(stopped := true)], objects) == Next(AbsOf(rows, objects), Stop(p))
  {
    AbsPut(rows, objects, p, rows[p].(stopped := true), objects);
  }

  /** What stopOnce reads is the tally of the poll, without empty objects. */
  lemma StopReads(rows: Rows, objects: ObjectRows, p: int)
    requires ValidTables(rows, objects) && p in rows
    ensures Shown(Answer(AbsOf(rows, objects), Stop(p)))
         == Tally(FromBytes(rows[p].userIds), multiset(NonEmpty(ObjectsIn(objects, p))))
  {
    NonEmptyShown(ObjectsIn(objects, p));
    SortedIds(rows[p]);
  }

  lemma SortedIds(row: Row)
    requires ValidRow(row)
    ensures SortedSet(Elements(FromBytes(row.userIds))) == FromBytes(row.userIds)
  {
    IncreasingUnique(FromBytes(row.userIds), SortedSet(Elements(FromBytes(row.userIds))));
  }

  lemma CascadeAll(objects: ObjectRows, p: int)
    ensures ObjectsIn(Cascade(objects, p), p) == []
    ensures forall q :: q != p ==> ObjectsIn(Cascade(objects, p), q) == ObjectsIn(objects, q)
  {
    CascadeObjects(objects, p, p);
    forall q | q != p ensures ObjectsIn(Cascade(objects, p), q) == ObjectsIn(objects, q) {
      CascadeObjects(objects, p, q);
    }
  }

  lemma ClearedTablesValid(rows: Rows, objects: ObjectRows, p: int)
    requires ValidTables(rows, objects)
    ensures ValidTables(rows - {p}, Cascade(objects, p))
  {
    CascadeAll(objects, p);
  }

  lemma AbsCleared(rows: Rows, objects: ObjectRows, p: int)
    ensures AbsOf(rows - {p}, Cascade(objects, p)) == Next(AbsOf(rows, objects), Clear(p))
  {
    CascadeAll(objects, p);
    AbsDrop(rows, objects, p, Cascade(objects, p));
  }

  lemma AbsDrop(rows: Rows, objects: ObjectRows, p: int, objects': ObjectRows)
    requires forall q :: q != p ==> ObjectsIn(objects', q) == ObjectsIn(objects, q)
    ensures AbsOf(rows - {p}, objects') == AbsOf(rows, objects) - {p}
  {
  }

  class Backend {
    var poll: Rows
    var objects: ObjectRows

    ghost predicate Valid()
      reads this
    {
      ValidTables(poll, objects)
    }

    ghost function Abs(): State
      reads this
    {
      AbsOf(poll, objects)
    }

    constructor ()
      ensures Valid() && Abs() == map[]
    {
      poll := map[];
      objects := [];
    }

    method Start(p: int)
      requires Valid()
      modifies this
      ensures Valid() && Abs() == Next(old(Abs()), Op.Start(p))
    {
      if p !in poll {
        AbsStart(poll, objects, p);
        StartedTablesValid(poll, objects, p);
        poll := poll[p := Row(false, [])];
      }
    }

    /** voteOnce in a transaction that nobody disturbs. */
    method Vote(p: int, u: int, vote: Object) returns (r: Reply)
      requires Valid()
      modifies this
      ensures Valid() && Abs() == Next(old(Abs()), Narrow(Op.Vote(p, u, vote)))
      ensures r == Answer(old(Abs()), Narrow(Op.Vote(p, u, vote)))
      ensures r == VoteVerdict(old(poll), p, ToInt32(u))
      ensures r == Done ==> poll == old(poll)[p := VotedRow(old(poll)[p], ToInt32(u))] && objects == old(objects) + [(p, vote)]
      ensures r != Done ==> poll == old(poll) && objects == old(objects)
    {
      VerdictIsAnswer(poll, objects, p, ToInt32(u), vote);
      if p !in poll {
        return NotExist;
      }
      var row := poll[p];
      if row.stopped {
        return Stopped;
      }
      var ids := new UserIdList(FromBytes(row.userIds), 0);
      var double := ids.Add(ToInt32(u));
      if double {
        return DoubleVote;
      }
      var raw := ToBytes(ids.Contents());
      poll := poll[p := row.(userIds := raw)];
      objects := objects + [(p, vote)];
      assert poll == old(poll)[p := VotedRow(row, ToInt32(u))];
      AbsVoted(old(poll), old(objects), p, ToInt32(u), vote);
      VotedTablesValid(old(poll), old(objects), p, ToInt32(u), vote);
      r := Done;
    }

    /** stopOnce in a transaction that nobody disturbs. */
    method Stop(p: int) returns (found: bool, votes: seq<Object>, users: seq<int>)
      requires Valid()
      modifies this
      ensures Valid() && Abs() == Next(old(Abs()), Op.Stop(p))
      ensures StopReply(found, votes, users) == Shown(Answer(old(Abs()), Op.Stop(p)))
    {
      if p !in poll {
        return false, [], [];
      }
      AbsStopped(poll, objects, p);
      StoppedTablesValid(poll, objects, p);
      StopReads(poll, objects, p);
      poll := poll[p := poll[p].(stopped := true)];
      found := true;
      votes := FetchObjects(p);
      users := FromBytes(poll[p].userIds);
    }

    /** The loop over the joined rows: only the poll's own, and of these only the non-empty ones. */
    method FetchObjects(p: int) returns (votes: seq<Object>)
      ensures votes == NonEmpty(ObjectsIn(objects, p))
    {
      votes := [];
      var i := 0;
      while i < |objects|
        invariant 0 <= i <= |objects|
        invariant votes == NonEmpty(ObjectsIn(objects[..i], p))
      {
        var (owner, bs) := objects[i];
        ObjectsSnoc(objects[..i], objects[i], p);
        assert objects[..i + 1] == objects[..i] + [objects[i]];
        ghost var before := ObjectsIn(objects[..i], p);
        assert (before + [bs])[..|before|] == before;
        assert before + [] == before;
        if owner == p && |bs| != 0 {
          votes := votes + [bs];
        }
        i := i + 1;
      }
      assert objects[..i] == objects;
    }

    method Clear(p: int)
      requires Valid()
      modifies this
      ensures Valid() && Abs() == Next(old(Abs()), Op.Clear(p))
    {
      AbsCleared(poll, objects, p);
      ClearedTablesValid(poll, objects, p);
      poll := poll - {p};
      objects := Cascade(objects, p);
    }

    /** Drops the schema and creates it again. */
    method ClearAll()
      requires Valid()
      modifies this
      ensures Valid() && Abs() == Next(old(Abs()), Op.ClearAll)
    {
      poll := map[];
      objects := [];
    }

    /** Lists every poll, with every vote hidden. */
    method LiveVotes() returns (live: LiveTable)
      requires Valid()
      ensures forall p :: ListedVoters(live, p) == VotersOf(Abs(), p)
      ensures live.Keys == Abs().Keys
      ensures forall p, u :: p in live && u in live[p] ==> live[p][u] == None
    {
      live := map[];
      var left := poll.Keys;
      while left != {}
        invariant left <= poll.Keys && live.Keys == poll.Keys - left
        invariant forall p :: p in live ==> live[p].Keys == Elements(FromBytes(poll[p].userIds))
        invariant forall p, u :: p in live && u in live[p] ==> live[p][u] == None
        decreases left
      {
        var p := AnyOf(left);
        var row := NilVotes(FromBytes(poll[p].userIds));
        live := live[p := row];
        left := left - {p};
      }
    }

    static method NilVotes(ids: seq<int32>) returns (row: map<int, Option<Object>>)
      ensures row.Keys == Elements(ids)
      ensures forall u :: u in row ==> row[u] == None
    {
      row := map[];
      for i := 0 to |ids|
        invariant row.Keys == Elements(ids[..i])
        invariant forall u :: u in row ==> row[u] == None
      {
        assert ids[..i + 1] == ids[..i] + [ids[i]];
        Snoc(ids[..i], ids[i]);
        row := row[ids[i] := None];
      }
      assert ids[..|ids|] == ids;
    }
  }
}
