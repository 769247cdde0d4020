/** Concurrent votes and stops on postgres: REPEATABLE READ transactions, row locks and the retry loop. */
module PostgresProtocol {
  import opened Orders
  import opened Contract
  import opened UserIds
  import opened Postgres

  datatype Call =
    | VoteCall(poll: int, user: int, vote: Object)
    | StopCall(poll: int)

  /** What a transaction sees of its poll from its first SELECT on. */
  datatype Snapshot = Snapshot(row: Row, version: nat, objects: seq<Object>)

  /** What the call returns: an answer, or an error that is no answer (cancelled, or 40001). */
  datatype Outcome = Returned(reply: Reply) | Failed

  /** Where a caller is in continueOnTransactionError; `attempts` counts the transactions begun. */
  datatype Client =
    | Idle
    | Trying(call: Call, attempts: nat)
    | Reading(call: Call, attempts: nat, snap: Snapshot)
    | Holding(call: Call, attempts: nat, snap: Snapshot)
    | Finished(call: Call, outcome: Outcome)

  /** The committed tables, a version for each row (as xmin is), and all callers. */
  datatype System = System(rows: Rows, objects: ObjectRows, versions: map<int, nat>, clock: nat,
                           clients: map<int, Client>)

  datatype Action =
    | Invoke(client: int, call: Call)
    | Begin(client: int)
    | Update(client: int)
    | Commit(client: int)
    | Cancel(client: int)
    | StartPoll(poll: int)
    | ClearPoll(poll: int)

  const Init := System(map[], [], map[], 0, map[])

  function ClientOf(s: System, c: int): Client {
    if c in s.clients then s.clients[c] else Idle
  }

  predicate Active(k: Client) {
    k.Trying? || k.Reading? || k.Holding?
  }

  /** Some caller has updated the row of `p` and not committed yet. */
  ghost predicate Locked(s: System, p: int) {
    exists c :: c in s.clients && s.clients[c].Holding? && s.clients[c].call.poll == p
  }

  /** The row was not written since the snapshot. */
  predicate Current(s: System, p: int, snap: Snapshot) {
    p in s.rows && p in s.versions && s.versions[p] == snap.version
  }

  ghost predicate Enabled(s: System, a: Action) {
    match a
    case Invoke(c, _) => !Active(ClientOf(s, c))
    case Begin(c) => ClientOf(s, c).Trying?
    case Update(c) => ClientOf(s, c).Reading? && !Locked(s, ClientOf(s, c).call.poll)
    case Commit(c) => ClientOf(s, c).Holding?
    case Cancel(c) => Active(ClientOf(s, c))
    case StartPoll(_) => true
    case ClearPoll(p) => !Locked(s, p)
  }

  function OpOf(call: Call): Op {
    match call
    case VoteCall(p, u, o) => Narrow(Vote(p, u, o))
    case StopCall(p) => Stop(p)
  }

  /** The answer of the checks on the first SELECT; Done if the transaction goes on. */
  ghost function Verdict(s: System, call: Call): Reply {
    match call
    case VoteCall(p, u, _) => VoteVerdict(s.rows, p, ToInt32(u))
    case StopCall(p) => if p in s.rows then Done else NotExist
  }

  /** The answer of a transaction that commits, computed from what it has seen. */
  function CommitReply(call: Call, snap: Snapshot): Reply {
    match call
    case VoteCall(_, _, _) => Done
    case StopCall(_) => Tally(FromBytes(snap.row.userIds), multiset(NonEmpty(snap.objects)))
  }

  /** The zero values that the calls return when no attempt ran. */
  function NilReply(call: Call): Reply {
    match call
    case VoteCall(_, _, _) => Done
    case StopCall(_) => Tally([], multiset{})
  }

  function WriteRow(s: System, p: int, row: Row, objects: ObjectRows): System {
    s.(rows := s.rows[p := row], objects := objects, versions := s.versions[p := s.clock], clock := s.clock + 1)
  }

  ghost function Written(s: System, call: Call, snap: Snapshot): System {
    match call
    case VoteCall(p, u, o) => WriteRow(s, p, VotedRow(snap.row, ToInt32(u)), s.objects + [(p, o)])
    case StopCall(p) => WriteRow(s, p, snap.row.(stopped := true), s.objects)
  }

  ghost function Put(s: System, c: int, k: Client): System {
    s.(clients := s.clients[c := k])
  }

  ghost function Apply(s: System, a: Action): System {
    if !Enabled(s, a) then s else
    match a
    case Invoke(c, call) => Put(s, c, Trying(call, 0))
    case Begin(c) =>
      var k := ClientOf(s, c);
      var p := k.call.poll;
      if Verdict(s, k.call) != Done || p !in s.versions then Put(s, c, Finished(k.call, Returned(Verdict(s, k.call))))
      else Put(s, c, Reading(k.call, k.attempts + 1, Snapshot(s.rows[p], s.versions[p], ObjectsIn(s.objects, p))))
    case Update(c) =>
      var k := ClientOf(s, c);
      if Current(s, k.call.poll, k.snap) then Put(s, c, Holding(k.call, k.attempts, k.snap))
      else Put(s, c, Trying(k.call, k.attempts))
    case Commit(c) =>
      var k := ClientOf(s, c);
      Put(Written(s, k.call, k.snap), c, Finished(k.call, Returned(CommitReply(k.call, k.snap))))
    case Cancel(c) =>
      var k := ClientOf(s, c);
      Put(s, c, Finished(k.call, if k.Trying? && k.attempts == 0 then Returned(NilReply(k.call)) else Failed))
    case StartPoll(p) =>
      if p in s.rows then s else WriteRow(s, p, Row(false, []), s.objects)
    case ClearPoll(p) =>
      s.(rows := s.rows - {p}, objects := Cascade(s.objects, p), versions := s.versions - {p})
  }

  /** The operation of the poll machine that an action performs, if any, and the answer it gives. */
  ghost function Effect(s: System, a: Action): Option<(Op, Reply)> {
    if !Enabled(s, a) then None else
    match a
    case Begin(c) =>
      var call := ClientOf(s, c).call;
      if Verdict(s, call) != Done then Some((OpOf(call), Verdict(s, call))) else None
    case Commit(c) =>
      var k := ClientOf(s, c);
      Some((OpOf(k.call), CommitReply(k.call, k.snap)))
    case StartPoll(p) => Some((Start(p), Done))
    case ClearPoll(p) => Some((Clear(p), Done))
    case _ => None
  }

  /********** The invariant **********/

  ghost predicate SnapshotOk(s: System, call: Call, snap: Snapshot) {
    && snap.version < s.clock
    && (Current(s, call.poll, snap) ==>
          s.rows[call.poll] == snap.row && ObjectsIn(s.objects, call.poll) == snap.objects)
    && (call.VoteCall? ==> !snap.row.stopped && ToInt32(call.user) !in FromBytes(snap.row.userIds))
  }

  ghost predicate ClientOk(s: System, k: Client) {
    && (k.Reading? || k.Holding? ==> k.attempts > 0 && SnapshotOk(s, k.call, k.snap))
    && (k.Holding? ==> Current(s, k.call.poll, k.snap))
  }

  ghost predicate TablesOk(s: System) {
    && ValidTables(s.rows, s.objects)
    && s.versions.Keys == s.rows.Keys
    && forall p :: p in s.versions ==> s.versions[p] < s.clock
  }

  /** At most one caller holds the lock of a row. */
  ghost predicate Exclusive(s: System) {
    forall c, d ::
      (&& c in s.clients && s.clients[c].Holding?
       && d in s.clients && s.clients[d].Holding?
       && s.clients[c].call.poll == s.clients[d].call.poll) ==> c == d
  }

  ghost predicate Inv(s: System) {
    && TablesOk(s)
    && (forall c :: c in s.clients ==> ClientOk(s, s.clients[c]))
    && Exclusive(s)
  }

  ghost function Abs(s: System): State {
    AbsOf(s.rows, s.objects)
  }

  /** `s'` differs from `s` in the tables at most by a new version of the row of `p`, or by its removal. */
  ghost predicate WritesOnly(s: System, s': System, p: int) {
    && s.clock <= s'.clock
    && (p in s'.versions ==> s'.versions[p] >= s.clock)
    && (forall q :: q != p ==> (q in s.rows <==> q in s'.rows) && (q in s.versions <==> q in s'.versions))
    && (forall q :: q != p && q in s.rows && q in s'.rows ==> s.rows[q] == s'.rows[q])
    && (forall q :: q != p && q in s.versions && q in s'.versions ==> s.versions[q] == s'.versions[q])
    && (forall q :: q != p ==> ObjectsIn(s'.objects, q) == ObjectsIn(s.objects, q))
  }

  /** A write leaves every other snapshot either current and right, or recognisably stale. */
  lemma WriteKeepsClient(s: System, s': System, p: int, k: Client)
    requires WritesOnly(s, s', p) && ClientOk(s, k)
    requires !(k.Holding? && k.call.poll == p)
    ensures ClientOk(s', k)
  {
  }

  lemma WriteRowTables(s: System, p: int, row: Row, objects: ObjectRows)
    requires TablesOk(s) && ValidTables(s.rows[p := row], objects)
    requires forall q :: q != p ==> ObjectsIn(objects, q) == ObjectsIn(s.objects, q)
    ensures TablesOk(WriteRow(s, p, row, objects)) && WritesOnly(s, WriteRow(s, p, row, objects), p)
  {
  }

  lemma CommitTables(s: System, call: Call, snap: Snapshot)
    requires TablesOk(s) && SnapshotOk(s, call, snap) && Current(s, call.poll, snap)
    ensures TablesOk(Written(s, call, snap)) && WritesOnly(s, Written(s, call, snap), call.poll)
    ensures Abs(Written(s, call, snap)) == Next(Abs(s), OpOf(call))
    ensures CommitReply(call, snap) == Shown(Answer(Abs(s), OpOf(call)))
  {
    match call
    case VoteCall(p, u, o) =>
      ObjectsAppend(s.objects, p, o);
      VotedTablesValid(s.rows, s.objects, p, ToInt32(u), o);
      WriteRowTables(s, p, VotedRow(snap.row, ToInt32(u)), s.objects + [(p, o)]);
      AbsVoted(s.rows, s.objects, p, ToInt32(u), o);
      VerdictIsAnswer(s.rows, s.objects, p, ToInt32(u), o);
    case StopCall(p) =>
      AbsStopped(s.rows, s.objects, p);
      StoppedTablesValid(s.rows, s.objects, p);
      StopReads(s.rows, s.objects, p);
      WriteRowTables(s, p, snap.row.(stopped := true), s.objects);
  }

  lemma StartTables(s: System, p: int)
    requires TablesOk(s)
    ensures var s' := Apply(s, StartPoll(p));
            TablesOk(s') && (p !in s.rows ==> WritesOnly(s, s', p)) && Abs(s') == Next(Abs(s), Start(p))
  {
    if p !in s.rows {
      AbsStart(s.rows, s.objects, p);
      StartedTablesValid(s.rows, s.objects, p);
      WriteRowTables(s, p, Row(false, []), s.objects);
    }
  }

  lemma ClearTables(s: System, p: int)
    requires TablesOk(s) && Enabled(s, ClearPoll(p))
    ensures var s' := Apply(s, ClearPoll(p));
            TablesOk(s') && WritesOnly(s, s', p) && Abs(s') == Next(Abs(s), Clear(p))
  {
    CascadeAll(s.objects, p);
    ClearedTablesValid(s.rows, s.objects, p);
    AbsCleared(s.rows, s.objects, p);
  }

  /** A write by nobody (start, clear) or by the lock holder `c`, who then stops holding. */
  lemma WriteKeepsInv(s: System, s': System, p: int)
    requires Inv(s) && TablesOk(s') && WritesOnly(s, s', p) && s'.clients == s.clients && !Locked(s, p)
    ensures Inv(s')
  {
  }

  lemma CommitKeepsOther(s: System, c: int, d: int)
    requires Inv(s) && Enabled(s, Commit(c)) && d in s.clients && d != c
    ensures ClientOk(Apply(s, Commit(c)), s.clients[d])
  {
    var k := s.clients[c];
    var w := Written(s, k.call, k.snap);
    CommitTables(s, k.call, k.snap);
    WriteKeepsClient(s, w, k.call.poll, s.clients[d]);
    SameTables(w, Apply(s, Commit(c)), s.clients[d]);
  }

  lemma CommitKeepsTables(s: System, c: int)
    requires Inv(s) && Enabled(s, Commit(c))
    ensures TablesOk(Apply(s, Commit(c)))
  {
    CommitTables(s, s.clients[c].call, s.clients[c].snap);
  }

  lemma CommitKeepsInv(s: System, c: int)
    requires Inv(s) && Enabled(s, Commit(c))
    ensures Inv(Apply(s, Commit(c)))
  {
    var s' := Apply(s, Commit(c));
    CommitKeepsTables(s, c);
    assert s'.clients == s.clients[c := s'.clients[c]] && s'.clients[c].Finished?;
    forall d | d in s'.clients ensures ClientOk(s', s'.clients[d]) {
      if d != c {
        CommitKeepsOther(s, c, d);
      }
    }
  }

  lemma SameTables(s: System, s': System, k: Client)
    requires s' == s.(clients := s'.clients)
    ensures ClientOk(s', k) <==> ClientOk(s, k)
  {
  }

  /** An action that only moves one caller. */
  lemma MoveKeepsInv(s: System, c: int, k: Client)
    requires Inv(s) && ClientOk(s, k) && (k.Holding? ==> !Locked(s, k.call.poll))
    ensures Inv(Put(s, c, k))
  {
    var s' := Put(s, c, k);
    forall d | d in s'.clients ensures ClientOk(s', s'.clients[d]) {
      SameTables(s, s', s'.clients[d]);
    }
  }

  lemma StepKeepsInv(s: System, a: Action)
    requires Inv(s) && Enabled(s, a)
    ensures Inv(Apply(s, a))
  {
    match a
    case Commit(c) => CommitKeepsInv(s, c);
    case StartPoll(p) =>
      StartTables(s, p);
      if p !in s.rows {
        WriteKeepsInv(s, Apply(s, a), p);
      }
    case ClearPoll(p) =>
      ClearTables(s, p);
      WriteKeepsInv(s, Apply(s, a), p);
    case Begin(c) => MoveKeepsInv(s, c, Apply(s, a).clients[c]);
    case Update(c) => MoveKeepsInv(s, c, Apply(s, a).clients[c]);
    case Invoke(c, _) => MoveKeepsInv(s, c, Apply(s, a).clients[c]);
    case Cancel(c) => MoveKeepsInv(s, c, Apply(s, a).clients[c]);
  }

  /** The poll machine and its answer agree with the effect of an action. */
  ghost predicate Agrees(s: State, s': State, effect: Option<(Op, Reply)>) {
    match effect
    case None => s' == s
    case Some((op, reply)) => s' == Next(s, op) && reply == Shown(Answer(s, op))
  }

  lemma BeginRefines(s: System, c: int)
    requires Enabled(s, Begin(c))
    ensures Agrees(Abs(s), Abs(Apply(s, Begin(c))), Effect(s, Begin(c)))
  {
    var call := ClientOf(s, c).call;
    if call.VoteCall? {
      VerdictIsAnswer(s.rows, s.objects, call.poll, ToInt32(call.user), call.vote);
    }
  }

  lemma CommitRefines(s: System, c: int)
    requires Inv(s) && Enabled(s, Commit(c))
    ensures Agrees(Abs(s), Abs(Apply(s, Commit(c))), Effect(s, Commit(c)))
  {
    CommitTables(s, s.clients[c].call, s.clients[c].snap);
  }

  /** Each action is one atomic step of the poll machine, or none. */
  lemma StepRefines(s: System, a: Action)
    requires Inv(s) && Enabled(s, a)
    ensures Agrees(Abs(s), Abs(Apply(s, a)), Effect(s, a))
  {
    match a
    case Commit(c) => CommitRefines(s, c);
    case Begin(c) => BeginRefines(s, c);
    case StartPoll(p) => StartTables(s, p);
    case ClearPoll(p) => ClearTables(s, p);
    case _ =>
  }

  /********** Whole executions **********/

  ghost function Exec(acts: seq<Action>): System {
    if acts == [] then Init else Apply(Exec(acts[..|acts| - 1]), acts[|acts| - 1])
  }

  /** Every action was enabled when it was taken. */
  ghost predicate Legal(acts: seq<Action>) {
    acts == [] || (Legal(acts[..|acts| - 1]) && Enabled(Exec(acts[..|acts| - 1]), acts[|acts| - 1]))
  }

  /** The operations performed by an execution with the answers that the callers get, in the order
      in which they take effect. */
  ghost function Trace(acts: seq<Action>): seq<(Op, Reply)> {
    if acts == [] then [] else
      var before := acts[..|acts| - 1];
      match Effect(Exec(before), acts[|acts| - 1])
      case Some(e) => Trace(before) + [e]
      case None => Trace(before)
  }

  ghost function OpsOf(t: seq<(Op, Reply)>): (ops: seq<Op>)
    ensures |ops| == |t|
  {
    seq(|t|, i requires 0 <= i < |t| => t[i].0)
  }

  ghost function Ops(acts: seq<Action>): seq<Op> {
    OpsOf(Trace(acts))
  }

  /** The answers are those of the poll machine run on the operations one after the other. */
  ghost predicate AnswersAtomic(t: seq<(Op, Reply)>) {
    forall i :: 0 <= i < |t| ==> t[i].1 == Shown(Answer(Run(map[], OpsOf(t)[..i]), t[i].0))
  }

  lemma OpsSnoc(t: seq<(Op, Reply)>, e: (Op, Reply))
    ensures OpsOf(t + [e]) == OpsOf(t) + [e.0]
  {
  }

  lemma AtomicSnoc(t: seq<(Op, Reply)>, e: (Op, Reply))
    requires AnswersAtomic(t) && e.1 == Shown(Answer(Run(map[], OpsOf(t)), e.0))
    ensures OpsOf(t + [e]) == OpsOf(t) + [e.0]
    ensures Run(map[], OpsOf(t + [e])) == Next(Run(map[], OpsOf(t)), e.0)
    ensures AnswersAtomic(t + [e])
  {
    var all := t + [e];
    OpsSnoc(t, e);
    RunSnoc(map[], OpsOf(t), e.0);
    assert OpsOf(all)[..|t|] == OpsOf(t);
    forall i | 0 <= i < |all| ensures all[i].1 == Shown(Answer(Run(map[], OpsOf(all)[..i]), all[i].0)) {
      if i < |t| {
        assert OpsOf(all)[..i] == OpsOf(t)[..i];
      }
    }
  }

  lemma {:induction false} ExecInv(acts: seq<Action>)
    requires Legal(acts)
    ensures Inv(Exec(acts))
  {
    if acts != [] {
      ExecInv(acts[..|acts| - 1]);
      StepKeepsInv(Exec(acts[..|acts| - 1]), acts[|acts| - 1]);
    }
  }

  /** Main theorem: under every interleaving the committed tables and all answers are those of the
      poll machine run on the operations one after the other. */
  lemma {:induction false} Linearizable(acts: seq<Action>)
    requires Legal(acts)
    ensures Abs(Exec(acts)) == Run(map[], Ops(acts))
    ensures AnswersAtomic(Trace(acts))
  {
    if acts != [] {
      var before, a := acts[..|acts| - 1], acts[|acts| - 1];
      var s := Exec(before);
      Linearizable(before);
      ExecInv(before);
      StepRefines(s, a);
      if Effect(s, a).Some? {
        AtomicSnoc(Trace(before), Effect(s, a).value);
      }
    }
  }

  lemma TraceSnoc(acts: seq<Action>, a: Action)
    ensures Trace(acts + [a]) == match Effect(Exec(acts), a) case Some(e) => Trace(acts) + [e] case None => Trace(acts)
    ensures Exec(acts + [a]) == Apply(Exec(acts), a)
    ensures Legal(acts) && Enabled(Exec(acts), a) ==> Legal(acts + [a])
  {
  }

  lemma CommitTrace(acts: seq<Action>, c: int)
    requires Legal(acts) && Enabled(Exec(acts), Commit(c))
    ensures Legal(acts + [Commit(c)])
    ensures Ops(acts + [Commit(c)]) == Ops(acts) + [OpOf(ClientOf(Exec(acts), c).call)]
  {
    TraceSnoc(acts, Commit(c));
    OpsSnoc(Trace(acts), Effect(Exec(acts), Commit(c)).value);
  }

  lemma CommitPrescribed(acts: seq<Action>, c: int)
    requires Legal(acts) && Enabled(Exec(acts), Commit(c))
    ensures var k := ClientOf(Exec(acts), c);
            CommitReply(k.call, k.snap) == Shown(PrescribedAnswer(Ops(acts), OpOf(k.call)))
  {
    var k := ClientOf(Exec(acts), c);
    Linearizable(acts);
    ExecInv(acts);
    CommitTables(Exec(acts), k.call, k.snap);
    AnswerIsPrescribed(Ops(acts), OpOf(k.call));
  }

  /** A committed vote counts: it is the first of its user on an open poll, and no later commit loses it. */
  lemma CommittedVoteCounts(acts: seq<Action>, c: int)
    requires Legal(acts) && Enabled(Exec(acts), Commit(c)) && ClientOf(Exec(acts), c).call.VoteCall?
    ensures var call := ClientOf(Exec(acts), c).call;
            var id := ToInt32(call.user);
            && Admits(Ops(acts), call.poll, id)
            && Legal(acts + [Commit(c)])
            && Counted(Ops(acts + [Commit(c)]), call.poll) == Counted(Ops(acts), call.poll) + [(id, call.vote)]
  {
    var op := OpOf(ClientOf(Exec(acts), c).call);
    CommitPrescribed(acts, c);
    CommitTrace(acts, c);
    CountedAdmitted(Ops(acts), op.poll, op.user, op.vote);
  }

  /** A stop that commits returns exactly the votes that count at its commit. */
  lemma CommittedStopReturnsCounted(acts: seq<Action>, c: int)
    requires Legal(acts) && Enabled(Exec(acts), Commit(c)) && ClientOf(Exec(acts), c).call.StopCall?
    ensures var p := ClientOf(Exec(acts), c).call.poll;
            var votes := Counted(Ops(acts), p);
            ClientOf(Apply(Exec(acts), Commit(c)), c).outcome
              == Returned(Tally(SortedSet(UsersOf(votes)), WithoutEmpty(multiset(ObjectsOf(votes)))))
  {
    CommitPrescribed(acts, c);
    Linearizable(acts);
    RunIsPrescribed(Ops(acts), ClientOf(Exec(acts), c).call.poll);
  }

  /********** The retry loop **********/

  /** How one attempt ends: without error, with SQLSTATE 40001, or with the answer that ends the call. */
  datatype Attempt = Nil | Conflict | Refused(reply: Reply)

  /** The loop itself, for a context that is cancelled at `cancelled` and attempts that end as in `f`.
      It ends because some round, `last`, finds the context cancelled or no competitor. No error
      means that exactly the last attempt succeeded, or that none was made. */
  method ContinueOnTransactionError(f: nat -> Attempt, cancelled: nat -> bool, ghost last: nat)
    returns (err: Attempt, attempts: nat)
    requires cancelled(last) || f(last) != Conflict
    ensures attempts <= last + 1
    ensures forall i: nat :: i < attempts ==> !cancelled(i) && (i < attempts - 1 ==> f(i) == Conflict)
    ensures attempts == 0 <==> cancelled(0)
    ensures attempts == 0 ==> err == Nil
    ensures attempts > 0 ==> err == f(attempts - 1) && (err == Conflict ==> cancelled(attempts))
  {
    err, attempts := Nil, 0;
    while !cancelled(attempts)
      invariant attempts <= last
      invariant forall i: nat :: i < attempts ==> !cancelled(i) && f(i) == Conflict
      invariant err == if attempts == 0 then Nil else Conflict
      decreases last - attempts
    {
      err := f(attempts);
      attempts := attempts + 1;
      if err != Conflict {
        break;
      }
    }
  }

  /** Vote, for attempts that end as in `f`: the error of the last attempt is the answer. */
  method VoteRetried(f: nat -> Attempt, cancelled: nat -> bool, ghost last: nat) returns (out: Outcome, attempts: nat)
    requires cancelled(last) || f(last) != Conflict
    ensures cancelled(0) ==> attempts == 0 && out == Returned(Done)
    ensures !cancelled(0) ==>
              && attempts > 0
              && (f(attempts - 1) == Nil ==> out == Returned(Done))
              && (f(attempts - 1) == Conflict ==> out == Failed)
              && (f(attempts - 1).Refused? ==> out == Returned(f(attempts - 1).reply))
  {
    var err;
    err, attempts := ContinueOnTransactionError(f, cancelled, last);
    out := match err case Nil => Returned(Done) case Conflict => Failed case Refused(r) => Returned(r);
  }

  /** Stop, for attempts that end as in `f` and then have read `users` and `objects`: only an attempt
      without error sets the results, which are nil before. */
  method StopRetried(f: nat -> Attempt, users: nat -> seq<int>, objects: nat -> seq<Object>,
                     cancelled: nat -> bool, ghost last: nat) returns (out: Outcome, attempts: nat)
    requires cancelled(last) || f(last) != Conflict
    ensures cancelled(0) ==> attempts == 0 && out == Returned(Tally([], multiset{}))
    ensures !cancelled(0) ==>
              && attempts > 0
              && (f(attempts - 1) == Nil ==> out == Returned(Tally(users(attempts - 1), multiset(objects(attempts - 1)))))
              && (f(attempts - 1) == Conflict ==> out == Failed)
              && (f(attempts - 1).Refused? ==> out == Returned(f(attempts - 1).reply))
  {
    var objs: seq<Object>, ids: seq<int> := [], [];
    var err;
    err, attempts := ContinueOnTransactionError(f, cancelled, last);
    if attempts > 0 && f(attempts - 1) == Nil {
      objs, ids := objects(attempts - 1), users(attempts - 1);
    }
    out := match err case Nil => Returned(Tally(ids, multiset(objs))) case Conflict => Failed case Refused(r) => Returned(r);
  }

  /** Whether the action writes the row of `p`. */
  ghost predicate Writes(s: System, a: Action, p: int) {
    match a
    case Commit(d) => ClientOf(s, d).Holding? && ClientOf(s, d).call.poll == p
    case StartPoll(q) => q == p && p !in s.rows
    case ClearPoll(q) => q == p && p in s.rows
    case _ => false
  }

  /** These are exactly the actions after which the row has another version, or is there or gone. */
  lemma WritesIff(s: System, a: Action, p: int)
    requires Inv(s) && Enabled(s, a)
    ensures Writes(s, a, p) <==>
            (p in s.versions <==> p !in Apply(s, a).versions) ||
            (p in s.versions && p in Apply(s, a).versions && s.versions[p] != Apply(s, a).versions[p])
  {
  }

  /** How often the row of `p` was written since the last call of `c` began. */
  ghost function WritesDuring(acts: seq<Action>, c: int, p: int): nat {
    if acts == [] then 0 else
      var before, a := acts[..|acts| - 1], acts[|acts| - 1];
      if a.Invoke? && a.client == c then 0
      else WritesDuring(before, c, p) + if Writes(Exec(before), a, p) then 1 else 0
  }

  /** The position behind the beginning of the last call of `c`. */
  function CallAt(acts: seq<Action>, c: int): nat {
    if acts == [] then 0
    else if acts[|acts| - 1].Invoke? && acts[|acts| - 1].client == c then |acts|
    else CallAt(acts[..|acts| - 1], c)
  }

  ghost predicate WrittenAt(acts: seq<Action>, c: int, p: int, i: int)
    requires 0 <= i < |acts|
  {
    CallAt(acts, c) <= i && Writes(Exec(acts[..i]), acts[i], p)
  }

  /** The positions of the writes that are counted. */
  ghost function WritePositions(acts: seq<Action>, c: int, p: int): set<int> {
    set i | 0 <= i < |acts| && WrittenAt(acts, c, p, i)
  }

  lemma {:induction false} CallAtBound(acts: seq<Action>, c: int)
    ensures CallAt(acts, c) <= |acts|
  {
    if acts != [] {
      CallAtBound(acts[..|acts| - 1], c);
    }
  }

  lemma WrittenAtStep(acts: seq<Action>, c: int, p: int, i: int)
    requires 0 <= i < |acts|
    ensures var before, a := acts[..|acts| - 1], acts[|acts| - 1];
            WrittenAt(acts, c, p, i) <==>
            !(a.Invoke? && a.client == c) && if i < |before| then WrittenAt(before, c, p, i) else Writes(Exec(before), a, p)
  {
    var before := acts[..|acts| - 1];
    CallAtBound(before, c);
    assert acts[..i] == before[..i];
    assert i == |before| ==> before[..i] == before;
  }

  lemma PositionsStep(acts: seq<Action>, c: int, p: int)
    requires acts != []
    ensures var before, a := acts[..|acts| - 1], acts[|acts| - 1];
            WritePositions(acts, c, p) ==
            if a.Invoke? && a.client == c then {}
            else if Writes(Exec(before), a, p) then WritePositions(before, c, p) + {|before|}
            else WritePositions(before, c, p)
  {
    var before, a := acts[..|acts| - 1], acts[|acts| - 1];
    var positions := WritePositions(acts, c, p);
    var after := if a.Invoke? && a.client == c then {}
                 else if Writes(Exec(before), a, p) then WritePositions(before, c, p) + {|before|}
                 else WritePositions(before, c, p);
    forall i ensures i in positions <==> i in after {
      if 0 <= i < |acts| {
        WrittenAtStep(acts, c, p, i);
      }
    }
    assert positions == after;
  }

  lemma {:induction false} WritesAreCounted(acts: seq<Action>, c: int, p: int)
    ensures WritesDuring(acts, c, p) == |WritePositions(acts, c, p)|
  {
    if acts == [] {
      assert WritePositions(acts, c, p) == {};
    } else {
      WritesAreCounted(acts[..|acts| - 1], c, p);
      PositionsStep(acts, c, p);
    }
  }

  /** The transactions that `c` began (Begin) or finished (Commit) since its last call began. */
  function StepsDuring(acts: seq<Action>, c: int, step: Action): nat {
    if acts == [] then 0 else
      var before, a := acts[..|acts| - 1], acts[|acts| - 1];
      if a.Invoke? && a.client == c then 0
      else StepsDuring(before, c, step) + if a == step then 1 else 0
  }

  /** Retries are paid for by writes of others. */
  ghost predicate Paid(s: System, k: Client, writes: nat) {
    && (k.Trying? ==> k.attempts <= writes)
    && (k.Reading? || k.Holding? ==>
          k.attempts <= writes + if Current(s, k.call.poll, k.snap) then 1 else 0)
  }

  lemma UnwrittenStaysCurrent(s: System, a: Action, p: int, snap: Snapshot)
    requires Inv(s) && Enabled(s, a) && !Writes(s, a, p)
    ensures Current(Apply(s, a), p, snap) <==> Current(s, p, snap)
  {
  }

  predicate By(a: Action, c: int) {
    !a.StartPoll? && !a.ClearPoll? && a.client == c
  }

  lemma OthersLeave(s: System, a: Action, c: int)
    requires !By(a, c)
    ensures ClientOf(Apply(s, a), c) == ClientOf(s, c)
  {
  }

  lemma PaidStep(s: System, a: Action, c: int, writes: nat)
    requires Inv(s) && Enabled(s, a) && !(a.Invoke? && a.client == c)
    requires Active(ClientOf(s, c)) && Active(ClientOf(Apply(s, a), c)) && Paid(s, ClientOf(s, c), writes)
    ensures ClientOf(Apply(s, a), c).call == ClientOf(s, c).call
    ensures Paid(Apply(s, a), ClientOf(Apply(s, a), c), writes + if Writes(s, a, ClientOf(s, c).call.poll) then 1 else 0)
  {
    var k := ClientOf(s, c);
    if !By(a, c) {
      OthersLeave(s, a, c);
      if (k.Reading? || k.Holding?) && !Writes(s, a, k.call.poll) {
        UnwrittenStaysCurrent(s, a, k.call.poll, k.snap);
      }
    }
  }

  /** The loop repeats at most as often as other transactions write the row during the call. */
  lemma {:induction false} RetriesBounded(acts: seq<Action>, c: int)
    requires Legal(acts) && Active(ClientOf(Exec(acts), c))
    ensures var k := ClientOf(Exec(acts), c);
            Paid(Exec(acts), k, WritesDuring(acts, c, k.call.poll))
  {
    var before, a := acts[..|acts| - 1], acts[|acts| - 1];
    if !(a.Invoke? && a.client == c) {
      assert Active(ClientOf(Exec(before), c));
      ExecInv(before);
      RetriesBounded(before, c);
      PaidStep(Exec(before), a, c, WritesDuring(before, c, ClientOf(Exec(before), c).call.poll));
    }
  }

  /** So the transactions begun by a running call exceed the writes of the row at positions behind its
      beginning by at most one. */
  lemma AttemptsBounded(acts: seq<Action>, c: int)
    requires Legal(acts) && Active(ClientOf(Exec(acts), c))
    ensures var k := ClientOf(Exec(acts), c);
            k.attempts <= |WritePositions(acts, c, k.call.poll)| + if k.Trying? then 0 else 1
  {
    RetriesBounded(acts, c);
    WritesAreCounted(acts, c, ClientOf(Exec(acts), c).call.poll);
  }

  predicate Success(r: Reply) {
    r.Done? || r.Tally?
  }

  /** What a caller's state says about the transactions of its last call. */
  ghost predicate CommitsMatch(k: Client, begun: nat, committed: nat) {
    && (Active(k) ==> committed == 0)
    && (k.Trying? ==> k.attempts <= begun)
    && (k.Reading? || k.Holding? ==> 0 < k.attempts <= begun)
    && (k.Trying? && k.attempts == 0 ==> begun == 0)
    && (k.Finished? && k.outcome.Returned? && Success(k.outcome.reply) ==> committed == if begun == 0 then 0 else 1)
    && (k.Finished? && (k.outcome.Failed? || !Success(k.outcome.reply)) ==> committed == 0)
  }

  lemma OwnStepMatches(s: System, a: Action, c: int, begun: nat, committed: nat)
    requires TablesOk(s) && Enabled(s, a) && By(a, c) && !a.Invoke?
    requires CommitsMatch(ClientOf(s, c), begun, committed)
    ensures CommitsMatch(ClientOf(Apply(s, a), c), begun + if a.Begin? then 1 else 0, committed + if a.Commit? then 1 else 0)
  {
  }

  /** A call without error has committed exactly once if and only if it made an attempt; a call with
      an error has committed nothing. */
  lemma {:induction false} SuccessMeansOneCommit(acts: seq<Action>, c: int)
    requires Legal(acts)
    ensures ClientOf(Exec(acts), c).Idle? ||
            CommitsMatch(ClientOf(Exec(acts), c), StepsDuring(acts, c, Begin(c)), StepsDuring(acts, c, Commit(c)))
  {
    if acts != [] {
      var before, a := acts[..|acts| - 1], acts[|acts| - 1];
      SuccessMeansOneCommit(before, c);
      ExecInv(before);
      if !By(a, c) {
        OthersLeave(Exec(before), a, c);
      } else if !a.Invoke? {
        OwnStepMatches(Exec(before), a, c, StepsDuring(before, c, Begin(c)), StepsDuring(before, c, Commit(c)));
      }
    }
  }

  lemma InvokeThenCancel(s: System, c: int, call: Call)
    requires !Active(ClientOf(s, c))
    ensures var s1 := Apply(s, Invoke(c, call));
            var s2 := Apply(s1, Cancel(c));
            && Enabled(s, Invoke(c, call)) && Enabled(s1, Cancel(c))
            && (call.VoteCall? ==> ClientOf(s2, c) == Finished(call, Returned(Done)))
            && (call.StopCall? ==> ClientOf(s2, c) == Finished(call, Returned(Tally([], multiset{}))))
            && Abs(s2) == Abs(s)
  {
    var s1 := Apply(s, Invoke(c, call));
    assert ClientOf(s1, c) == Trying(call, 0);
  }

  lemma TwoMoreActions(acts: seq<Action>, a: Action, b: Action)
    requires Legal(acts) && Enabled(Exec(acts), a) && Enabled(Apply(Exec(acts), a), b)
    ensures Legal(acts + [a] + [b]) && Exec(acts + [a] + [b]) == Apply(Apply(Exec(acts), a), b)
  {
    TraceSnoc(acts, a);
    TraceSnoc(acts + [a], b);
  }

  /** If the context is already cancelled, a call returns the zero values without an error and
      changes nothing, whatever the poll is like. */
  lemma CancelledCallLooksSuccessful(acts: seq<Action>, c: int, call: Call)
    requires Legal(acts) && !Active(ClientOf(Exec(acts), c))
    ensures var acts' := acts + [Invoke(c, call)] + [Cancel(c)];
            && Legal(acts')
            && (call.VoteCall? ==> ClientOf(Exec(acts'), c) == Finished(call, Returned(Done)))
            && (call.StopCall? ==> ClientOf(Exec(acts'), c) == Finished(call, Returned(Tally([], multiset{}))))
            && Abs(Exec(acts')) == Abs(Exec(acts))
  {
    InvokeThenCancel(Exec(acts), c, call);
    TwoMoreActions(acts, Invoke(c, call), Cancel(c));
  }
}
