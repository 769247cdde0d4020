/** What postgres keeps of a poll that is not named does not tell who cast which ballot. */
module Anonymity {
  import opened Orders
  import opened Contract
  import opened UserIds
  import opened Postgres

  /** The data that is stored for a vote; user ids of zero are left out. */
  datatype VoteData = VoteData(requestUser: int, voteUser: int, value: string, weight: string)

  /** The object of a vote; `marshal` is the JSON encoder. */
  function VoteObject(marshal: VoteData -> Object, named: bool, requestUser: int, voteUser: int,
                      value: string, weight: string): Object
  {
    marshal(if named then VoteData(requestUser, voteUser, value, weight) else VoteData(0, 0, value, weight))
  }

  /** A cast ballot: who sends it, for whom, and what it says. */
  datatype Cast = Cast(requestUser: int, voteUser: int32, value: string, weight: string)

  datatype Tables = Tables(rows: Rows, objects: ObjectRows)

  ghost function CastOne(t: Tables, marshal: VoteData -> Object, named: bool, p: int, c: Cast): Tables {
    if VoteVerdict(t.rows, p, c.voteUser) != Done then t
    else Tables(t.rows[p := VotedRow(t.rows[p], c.voteUser)],
                t.objects + [(p, VoteObject(marshal, named, c.requestUser, c.voteUser, c.value, c.weight))])
  }

  ghost function CastAll(t: Tables, marshal: VoteData -> Object, named: bool, p: int, cs: seq<Cast>): Tables {
    if cs == [] then t
    else CastOne(CastAll(t, marshal, named, p, cs[..|cs| - 1]), marshal, named, p, cs[|cs| - 1])
  }

  /** The backend given the ballots one after the other ends in these tables. */
  method CastBallots(b: Backend, marshal: VoteData -> Object, named: bool, p: int, cs: seq<Cast>)
    requires b.Valid()
    modifies b
    ensures b.Valid() && Tables(b.poll, b.objects) == CastAll(old(Tables(b.poll, b.objects)), marshal, named, p, cs)
  {
    for i := 0 to |cs|
      invariant b.Valid()
      invariant Tables(b.poll, b.objects) == CastAll(old(Tables(b.poll, b.objects)), marshal, named, p, cs[..i])
    {
      var c := cs[i];
      assert cs[..i + 1][..i] == cs[..i];
      var r := b.Vote(p, c.voteUser, VoteObject(marshal, named, c.requestUser, c.voteUser, c.value, c.weight));
    }
    assert cs[..|cs|] == cs;
  }

  function Voters(cs: seq<Cast>): (us: seq<int32>)
    ensures |us| == |cs|
  {
    seq(|cs|, i requires 0 <= i < |cs| => cs[i].voteUser)
  }

  function SecretObjects(marshal: VoteData -> Object, p: int, cs: seq<Cast>): ObjectRows {
    seq(|cs|, i requires 0 <= i < |cs| => (p, marshal(VoteData(0, 0, cs[i].value, cs[i].weight))))
  }

  /** The poll is open and knows none of the voters, who are all different. */
  ghost predicate Fresh(t: Tables, p: int, cs: seq<Cast>) {
    && p in t.rows && ValidRow(t.rows[p]) && !t.rows[p].stopped
    && Distinct(Voters(cs)) && Elements(Voters(cs)) !! Elements(FromBytes(t.rows[p].userIds))
  }

  lemma FreshFront(t: Tables, p: int, cs: seq<Cast>)
    requires Fresh(t, p, cs) && cs != []
    ensures Fresh(t, p, cs[..|cs| - 1])
    ensures Voters(cs) == Voters(cs[..|cs| - 1]) + [cs[|cs| - 1].voteUser]
    ensures cs[|cs| - 1].voteUser !in Elements(Voters(cs[..|cs| - 1]))
    ensures cs[|cs| - 1].voteUser !in Elements(FromBytes(t.rows[p].userIds))
  {
    var front, x := cs[..|cs| - 1], cs[|cs| - 1].voteUser;
    assert Voters(cs) == Voters(front) + [x];
    Snoc(Voters(front), x);
    assert forall i :: 0 <= i < |front| ==> Voters(cs)[i] == Voters(front)[i] && Voters(cs)[i] != Voters(cs)[|front|];
  }

  /** The tables after a series of accepted secret ballots. */
  ghost function Shape(t: Tables, marshal: VoteData -> Object, p: int, cs: seq<Cast>): Tables
    requires p in t.rows
  {
    Tables(t.rows[p := Row(false, AddAll(t.rows[p].userIds, Voters(cs)))], t.objects + SecretObjects(marshal, p, cs))
  }

  lemma ShapeStep(t: Tables, marshal: VoteData -> Object, p: int, front: seq<Cast>, c: Cast)
    requires p in t.rows && c.voteUser !in FromBytes(AddAll(t.rows[p].userIds, Voters(front)))
    ensures CastOne(Shape(t, marshal, p, front), marshal, false, p, c) == Shape(t, marshal, p, front + [c])
  {
    var raw := t.rows[p].userIds;
    ListsSnoc(marshal, p, front, c);
    AddAllSnoc(raw, Voters(front), c.voteUser);
    var mid := Row(false, AddAll(raw, Voters(front)));
    assert VotedRow(mid, c.voteUser) == Row(false, AddAll(raw, Voters(front + [c])));
    assert t.rows[p := mid][p := VotedRow(mid, c.voteUser)] == t.rows[p := VotedRow(mid, c.voteUser)];
    var o := [(p, marshal(VoteData(0, 0, c.value, c.weight)))];
    assert t.objects + SecretObjects(marshal, p, front) + o == t.objects + (SecretObjects(marshal, p, front) + o);
  }

  lemma ListsSnoc(marshal: VoteData -> Object, p: int, front: seq<Cast>, c: Cast)
    ensures Voters(front + [c]) == Voters(front) + [c.voteUser]
    ensures SecretObjects(marshal, p, front + [c])
         == SecretObjects(marshal, p, front) + [(p, marshal(VoteData(0, 0, c.value, c.weight)))]
  {
  }

  lemma {:induction false} CastAllShape(t: Tables, marshal: VoteData -> Object, p: int, cs: seq<Cast>)
    requires Fresh(t, p, cs)
    ensures CastAll(t, marshal, false, p, cs) == Shape(t, marshal, p, cs)
  {
    if cs == [] {
      assert t.rows[p := t.rows[p]] == t.rows;
      assert t.objects + SecretObjects(marshal, p, cs) == t.objects;
    } else {
      var front, c := cs[..|cs| - 1], cs[|cs| - 1];
      FreshFront(t, p, cs);
      CastAllShape(t, marshal, p, front);
      AddAllSorts(t.rows[p].userIds, Voters(front));
      assert c.voteUser !in Elements(FromBytes(AddAll(t.rows[p].userIds, Voters(front))));
      ShapeStep(t, marshal, p, front, c);
      assert front + [c] == cs;
    }
  }

  lemma AddAllSnoc(raw: seq<byte>, ids: seq<int32>, x: int32)
    ensures AddAll(raw, ids + [x]) == ToBytes(InsertedId(FromBytes(AddAll(raw, ids)), x))
  {
  }

  /** Two series of ballots that say the same in the same order, with the voters dealt differently. */
  ghost predicate SameBallots(a: seq<Cast>, b: seq<Cast>) {
    && |a| == |b|
    && (forall i :: 0 <= i < |a| ==> a[i].value == b[i].value && a[i].weight == b[i].weight)
    && Elements(Voters(a)) == Elements(Voters(b))
  }

  /** Main theorem: dealing the same voters differently over the same ballots, with any request
      users, ends in identical tables. */
  lemma ReassignmentInvisible(t: Tables, marshal: VoteData -> Object, p: int, a: seq<Cast>, b: seq<Cast>)
    requires Fresh(t, p, a) && Fresh(t, p, b) && SameBallots(a, b)
    ensures CastAll(t, marshal, false, p, a) == CastAll(t, marshal, false, p, b)
  {
    CastAllShape(t, marshal, p, a);
    CastAllShape(t, marshal, p, b);
    StoredOrderInvisible(t.rows[p].userIds, Voters(a), Voters(b));
    assert SecretObjects(marshal, p, a) == SecretObjects(marshal, p, b);
  }

  /** In a named poll the objects do tell: with an encoder that loses nothing, two voters cannot be
      exchanged unnoticed. */
  lemma NamedBallotsTell(t: Tables, marshal: VoteData -> Object, p: int, c: Cast, d: Cast)
    requires forall x, y :: marshal(x) == marshal(y) ==> x == y
    requires VoteVerdict(t.rows, p, c.voteUser) == Done && VoteVerdict(t.rows, p, d.voteUser) == Done
    requires c.voteUser != d.voteUser
    ensures CastOne(t, marshal, true, p, c) != CastOne(t, marshal, true, p, d)
  {
    var x, y := CastOne(t, marshal, true, p, c), CastOne(t, marshal, true, p, d);
    assert x.objects[|t.objects|].1 != y.objects[|t.objects|].1;
  }
}
