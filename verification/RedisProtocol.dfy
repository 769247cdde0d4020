/** Concurrent callers on redis: Start, Stop and Clear are two commands each, so others can run in
    between; votes and ClearAll are atomic scripts. */
module RedisProtocol {
  import opened Orders
  import opened Contract
  import opened RedisKeys
  import opened Redis

  /** A caller between its two commands. */
  datatype Client =
    | Ready
    | Starting(poll: int)
    | Stopping(poll: int)
    | Clearing(poll: int)

  datatype System = System(store: Store, clients: map<int, Client>)

  datatype Action =
    | StartSetNx(client: int, poll: int)
    | StartSAdd(client: int)
    | VoteAtomic(poll: int, user: int, vote: Object)
    | StopSet(client: int, poll: int)
    | StopRead(client: int)
    | ClearDel(client: int, poll: int)
    | ClearSRem(client: int)
    | ClearAllAtomic

  const Init := System(map[], map[])

  function ClientOf(s: System, c: int): Client {
    if c in s.clients then s.clients[c] else Ready
  }

  predicate Enabled(s: System, a: Action) {
    match a
    case StartSetNx(c, _) => ClientOf(s, c).Ready?
    case StopSet(c, _) => ClientOf(s, c).Ready?
    case ClearDel(c, _) => ClientOf(s, c).Ready?
    case StartSAdd(c) => ClientOf(s, c).Starting?
    case StopRead(c) => ClientOf(s, c).Stopping?
    case ClearSRem(c) => ClientOf(s, c).Clearing?
    case VoteAtomic(_, _, _) => true
    case ClearAllAtomic => true
  }

  function StoreAfter(s: System, a: Action): Store {
    if !Enabled(s, a) then s.store else
    match a
    case StartSetNx(_, p) => SetNx(s.store, StateKey(p), "1")
    case StartSAdd(c) => SAdd(s.store, POLLS_KEY, Itoa(ClientOf(s, c).poll))
    case VoteAtomic(p, u, o) => VoteStep(s.store, p, u, o).0
    case StopSet(_, p) => SetXx(s.store, StateKey(p), "2")
    case StopRead(_) => s.store
    case ClearDel(_, p) => Del(s.store, {VoteKey(p), StateKey(p)})
    case ClearSRem(c) => SRem(s.store, POLLS_KEY, Itoa(ClientOf(s, c).poll))
    case ClearAllAtomic => ClearAllStep(s.store)
  }

  function ClientsAfter(s: System, a: Action): map<int, Client> {
    if !Enabled(s, a) then s.clients else
    match a
    case StartSetNx(c, p) => s.clients[c := Starting(p)]
    case StopSet(c, p) => if StateKey(p) in s.store then s.clients[c := Stopping(p)] else s.clients
    case ClearDel(c, p) => s.clients[c := Clearing(p)]
    case StartSAdd(c) => s.clients[c := Ready]
    case StopRead(c) => s.clients[c := Ready]
    case ClearSRem(c) => s.clients[c := Ready]
    case _ => s.clients
  }

  function Apply(s: System, a: Action): System {
    System(StoreAfter(s, a), ClientsAfter(s, a))
  }

  /** What the HGETALL of a stop on `p` gives, after parsing and sorting. */
  ghost function ReadReply(s: System, p: int): Reply {
    var votes := Decoded(DataOf(s.store, p));
    Tally(SortedSet(votes.Keys), Values(votes))
  }

  /** The operation that takes effect at an action: a start at its SETNX, a stop at its SET, a clear
      at its DEL. */
  function Effect(s: System, a: Action): Option<Op> {
    if !Enabled(s, a) then None else
    match a
    case StartSetNx(_, p) => Some(Start(p))
    case VoteAtomic(p, u, o) => Some(Vote(p, u, o))
    case StopSet(_, p) => Some(Stop(p))
    case ClearDel(_, p) => Some(Clear(p))
    case ClearAllAtomic => Some(ClearAll)
    case _ => None
  }

  lemma StepKeepsInv(s: System, a: Action)
    requires Redis.Inv(s.store)
    ensures Redis.Inv(Apply(s, a).store)
  {
    if Enabled(s, a) {
      match a
      case StartSetNx(_, p) => StartStep(s.store, p);
      case StartSAdd(c) => SAddStep(s.store, ClientOf(s, c).poll);
      case VoteAtomic(p, u, o) => VoteKeepsInv(s.store, p, u, o);
      case StopSet(_, p) => StopStep(s.store, p);
      case StopRead(_) =>
      case ClearDel(_, p) => ClearStep(s.store, p);
      case ClearSRem(c) => SRemStep(s.store, ClientOf(s, c).poll);
      case ClearAllAtomic => ClearAllStepRefines(s.store);
    }
  }

  /** The state of the poll machine after an action: one atomic step or none; ClearAll only removes
      the listed polls. */
  ghost function StateAfter(s: System, a: Action): State {
    match Effect(s, a)
    case None => Abs(s.store)
    case Some(op) => if op.ClearAll? then Unlisted(s.store) else Next(Abs(s.store), op)
  }

  lemma StepRefines(s: System, a: Action)
    requires Redis.Inv(s.store)
    ensures Abs(Apply(s, a).store) == StateAfter(s, a)
  {
    if a.StartSetNx? || a.StopSet? || a.ClearDel? {
      PollCommandRefines(s, a);
    } else if a.StartSAdd? || a.ClearSRem? {
      ListCommandRefines(s, a);
    } else if a.VoteAtomic? {
      VoteStepRefines(s.store, a.poll, a.user, a.vote);
    } else if a.ClearAllAtomic? {
      ClearAllStepRefines(s.store);
    }
  }

  lemma PollCommandRefines(s: System, a: Action)
    requires Redis.Inv(s.store) && (a.StartSetNx? || a.StopSet? || a.ClearDel?)
    ensures Abs(Apply(s, a).store) == StateAfter(s, a)
  {
    if a.StartSetNx? {
      StartStep(s.store, a.poll);
    } else if a.StopSet? {
      StopStep(s.store, a.poll);
    } else {
      ClearStep(s.store, a.poll);
    }
  }

  lemma ListCommandRefines(s: System, a: Action)
    requires Redis.Inv(s.store) && (a.StartSAdd? || a.ClearSRem?)
    ensures Abs(Apply(s, a).store) == StateAfter(s, a)
  {
    if Enabled(s, a) {
      if a.StartSAdd? {
        SAddStep(s.store, ClientOf(s, a.client).poll);
      } else {
        SRemStep(s.store, ClientOf(s, a.client).poll);
      }
    }
  }

  /** The atomic step that the poll machine takes, if any. */
  ghost function After(s: State, effect: Option<Op>): State {
    if effect.None? then s else Next(s, effect.value)
  }

  lemma SafeState(s: System, a: Action)
    requires a.ClearAllAtomic? ==> AllListed(s.store)
    ensures StateAfter(s, a) == After(Abs(s.store), Effect(s, a))
  {
  }

  lemma SafeStepRefines(s: System, a: Action)
    requires Redis.Inv(s.store) && (a.ClearAllAtomic? ==> AllListed(s.store))
    ensures Abs(Apply(s, a).store) == After(Abs(s.store), Effect(s, a))
  {
    StepRefines(s, a);
    SafeState(s, a);
  }

  /********** Whole executions **********/

  function Exec(s: System, acts: seq<Action>): System {
    if acts == [] then s else Apply(Exec(s, acts[..|acts| - 1]), acts[|acts| - 1])
  }

  lemma {:induction false} ExecKeepsInv(s: System, acts: seq<Action>)
    requires Redis.Inv(s.store)
    ensures Redis.Inv(Exec(s, acts).store)
  {
    if acts != [] {
      ExecKeepsInv(s, acts[..|acts| - 1]);
      StepKeepsInv(Exec(s, acts[..|acts| - 1]), acts[|acts| - 1]);
    }
  }

  lemma InitInv()
    ensures Redis.Inv(Init.store) && Abs(Init.store) == map[]
  {
  }

  /** Under every interleaving, a poll with votes has a state key. */
  lemma VotesHaveState(acts: seq<Action>, p: int)
    ensures DataOf(Exec(Init, acts).store, p) != map[] ==> StateSet(Exec(Init, acts).store, p)
  {
    InitInv();
    ExecKeepsInv(Init, acts);
    assert PollOk(Exec(Init, acts).store, p);
  }

  /** The operations of an execution in the order in which they take effect. */
  function Ops(acts: seq<Action>): seq<Op> {
    if acts == [] then [] else
      var before := acts[..|acts| - 1];
      match Effect(Exec(Init, before), acts[|acts| - 1])
      case Some(op) => Ops(before) + [op]
      case None => Ops(before)
  }

  /** No ClearAll was taken while a poll with a state key was missing in the list. */
  ghost predicate ClearAllSafe(acts: seq<Action>) {
    acts == [] ||
    (&& ClearAllSafe(acts[..|acts| - 1])
     && (acts[|acts| - 1].ClearAllAtomic? ==> AllListed(Exec(Init, acts[..|acts| - 1]).store)))
  }

  /** Main theorem: under every interleaving the store is that of the poll machine run on the
      operations one after the other. */
  lemma {:induction false} Linearizable(acts: seq<Action>)
    requires ClearAllSafe(acts)
    ensures Abs(Exec(Init, acts).store) == Run(map[], Ops(acts))
  {
    InitInv();
    if acts != [] {
      var before, a := acts[..|acts| - 1], acts[|acts| - 1];
      var s := Exec(Init, before);
      Linearizable(before);
      ExecKeepsInv(Init, before);
      SafeStepRefines(s, a);
      if Effect(s, a).Some? {
        RunSnoc(map[], Ops(before), Effect(s, a).value);
      }
    }
  }

  /** The store is that of the poll machine after every command. */
  ghost predicate AlwaysLinear(acts: seq<Action>) {
    && Abs(Exec(Init, acts).store) == Run(map[], Ops(acts))
    && (acts != [] ==> AlwaysLinear(acts[..|acts| - 1]))
  }

  lemma UnsafeShows(acts: seq<Action>)
    requires acts != [] && acts[|acts| - 1].ClearAllAtomic? && !AllListed(Exec(Init, acts[..|acts| - 1]).store)
    ensures Abs(Exec(Init, acts).store) != Run(map[], Ops(acts))
  {
    var before := acts[..|acts| - 1];
    InitInv();
    ExecKeepsInv(Init, before);
    ClearAllStepRefines(Exec(Init, before).store);
    SomeLeft(Exec(Init, before).store);
    ClearAllLast(acts);
    StoreAfterClearAll(acts);
  }

  lemma StoreAfterClearAll(acts: seq<Action>)
    requires acts != [] && acts[|acts| - 1].ClearAllAtomic?
    ensures Exec(Init, acts).store == ClearAllStep(Exec(Init, acts[..|acts| - 1]).store)
  {
    ExecLast(acts);
    ApplyClearAll(Exec(Init, acts[..|acts| - 1]));
  }

  lemma ExecLast(acts: seq<Action>)
    requires acts != []
    ensures Exec(Init, acts) == Apply(Exec(Init, acts[..|acts| - 1]), acts[|acts| - 1])
  {
  }

  lemma ApplyClearAll(s: System)
    ensures Apply(s, ClearAllAtomic).store == ClearAllStep(s.store)
  {
  }

  lemma ClearAllLast(acts: seq<Action>)
    requires acts != [] && acts[|acts| - 1].ClearAllAtomic?
    ensures Run(map[], Ops(acts)) == map[]
  {
    ClearAllIsLast(acts);
    RunClearAll(map[], Ops(acts[..|acts| - 1]));
  }

  lemma ClearAllIsLast(acts: seq<Action>)
    requires acts != [] && acts[|acts| - 1].ClearAllAtomic?
    ensures Ops(acts) == Ops(acts[..|acts| - 1]) + [ClearAll]
  {
    EffectOfClearAll(Exec(Init, acts[..|acts| - 1]));
    OpsLast(acts, ClearAll);
  }

  lemma EffectOfClearAll(s: System)
    ensures Effect(s, ClearAllAtomic) == Some(ClearAll)
  {
  }

  lemma OpsLast(acts: seq<Action>, op: Op)
    requires acts != [] && Effect(Exec(Init, acts[..|acts| - 1]), acts[|acts| - 1]) == Some(op)
    ensures Ops(acts) == Ops(acts[..|acts| - 1]) + [op]
  {
  }

  /** Exact condition: the whole store is that of the poll machine after every command iff every ClearAll
      found all polls with a state key in the list. */
  lemma {:induction false} LinearizableIff(acts: seq<Action>)
    ensures AlwaysLinear(acts) <==> ClearAllSafe(acts)
  {
    if acts == [] {
      Linearizable(acts);
    } else {
      LinearizableIff(acts[..|acts| - 1]);
      if ClearAllSafe(acts) {
        Linearizable(acts);
      } else if ClearAllSafe(acts[..|acts| - 1]) {
        UnsafeShows(acts);
      }
    }
  }

  /********** One poll at a time, with no condition on ClearAll **********/

  /** What an action does to poll `p`: a ClearAll clears the poll iff it is listed. */
  ghost function EffectOn(s: System, a: Action, p: int): Option<Op> {
    match Effect(s, a)
    case None => None
    case Some(op) =>
      if op.ClearAll? then if Listed(s.store, p) then Some(Clear(p)) else None
      else if op.poll == p then Some(op) else None
  }

  /** The operations on `p` in the order in which they take effect. */
  ghost function OpsOn(s: System, acts: seq<Action>, p: int): seq<Op> {
    if acts == [] then [] else
      var before := acts[..|acts| - 1];
      match EffectOn(Exec(s, before), acts[|acts| - 1], p)
      case Some(op) => OpsOn(s, before, p) + [op]
      case None => OpsOn(s, before, p)
  }

  lemma UnlistedAt(st: Store, p: int)
    ensures SameAt(Unlisted(st), if Listed(st, p) then Next(Abs(st), Clear(p)) else Abs(st), p)
  {
  }

  lemma OtherPollSame(s: State, op: Op, p: int)
    requires !op.ClearAll? && op.poll != p
    ensures SameAt(Next(s, op), s, p)
  {
  }

  lemma EffectIsOn(s: System, a: Action, p: int)
    ensures SameAt(StateAfter(s, a), After(Abs(s.store), EffectOn(s, a, p)), p)
  {
    if Effect(s, a).Some? {
      var op := Effect(s, a).value;
      if op.ClearAll? {
        UnlistedAt(s.store, p);
      } else if op.poll != p {
        OtherPollSame(Abs(s.store), op, p);
      }
    }
  }

  lemma {:induction false} RunOn(s: System, acts: seq<Action>, p: int)
    requires Redis.Inv(s.store)
    ensures SameAt(Abs(Exec(s, acts).store), Run(Abs(s.store), OpsOn(s, acts, p)), p)
  {
    if acts != [] {
      var before, a := acts[..|acts| - 1], acts[|acts| - 1];
      var m := Exec(s, before);
      RunOn(s, before, p);
      ExecKeepsInv(s, before);
      StepRefines(m, a);
      EffectIsOn(m, a, p);
      if EffectOn(m, a, p).Some? {
        RunSnoc(Abs(s.store), OpsOn(s, before, p), EffectOn(m, a, p).value);
        NextLocal(Abs(m.store), Run(Abs(s.store), OpsOn(s, before, p)), EffectOn(m, a, p).value, p);
      }
    }
  }

  /** Main theorem: under every interleaving each poll is what the operations on it prescribe. */
  lemma PollLinearizable(acts: seq<Action>, p: int)
    ensures Redis.Inv(Exec(Init, acts).store)
    ensures Prescribed(Abs(Exec(Init, acts).store), OpsOn(Init, acts, p), p)
  {
    InitInv();
    ExecKeepsInv(Init, acts);
    RunOn(Init, acts, p);
    RunIsPrescribed(OpsOn(Init, acts, p), p);
  }

  lemma PrescribedAnswers(s: State, ops: seq<Op>, op: Op)
    requires (op.Vote? || op.Stop?) && Prescribed(s, ops, op.poll)
    ensures Answer(s, op) == PrescribedAnswer(ops, op)
  {
  }

  /** Under every interleaving a vote is answered as the operations on its poll prescribe. */
  lemma VoteAnsweredAtomically(acts: seq<Action>, p: int, u: int, o: Object)
    ensures ReplyOfCode(VoteStep(Exec(Init, acts).store, p, u, o).1)
         == PrescribedAnswer(OpsOn(Init, acts, p), Vote(p, u, o))
  {
    PollLinearizable(acts, p);
    VoteAnswer(Exec(Init, acts).store, p, u, o);
    PrescribedAnswers(Abs(Exec(Init, acts).store), OpsOn(Init, acts, p), Vote(p, u, o));
  }

  /********** Overlapping stops **********/

  /** The action removes the data of `p`. */
  ghost predicate Removes(s: System, a: Action, p: int) {
    Enabled(s, a) && ((a.ClearDel? && a.poll == p) || (a.ClearAllAtomic? && Listed(s.store, p)))
  }

  ghost predicate SomeRemoves(s: System, acts: seq<Action>, p: int) {
    acts != [] &&
    (SomeRemoves(s, acts[..|acts| - 1], p) || Removes(Exec(s, acts[..|acts| - 1]), acts[|acts| - 1], p))
  }

  lemma RemovesClears(s: System, a: Action, p: int)
    ensures Removes(s, a, p) <==> EffectOn(s, a, p) == Some(Clear(p))
    ensures EffectOn(s, a, p).Some? ==> EffectOn(s, a, p).value != ClearAll
  {
  }

  lemma {:induction false} RemovedForgotten(s: System, acts: seq<Action>, p: int)
    ensures SomeRemoves(s, acts, p) <==> Forgotten(OpsOn(s, acts, p), p) > 0
  {
    if acts != [] {
      var before, a := acts[..|acts| - 1], acts[|acts| - 1];
      RemovedForgotten(s, before, p);
      RemovesClears(Exec(s, before), a, p);
      if EffectOn(Exec(s, before), a, p).Some? {
        var ops := OpsOn(s, before, p);
        assert (ops + [EffectOn(Exec(s, before), a, p).value])[..|ops|] == ops;
      }
    }
  }

  lemma FrozenStep(s: System, a: Action, p: int)
    requires Redis.Inv(s.store) && !Removes(s, a, p)
    requires p in Abs(s.store) && Abs(s.store)[p].stopped
    ensures p in Abs(Apply(s, a).store) && Abs(Apply(s, a).store)[p] == Abs(s.store)[p]
  {
    StepRefines(s, a);
    EffectIsOn(s, a, p);
    RemovesClears(s, a, p);
    if EffectOn(s, a, p).Some? {
      StoppedStep(Abs(s.store), EffectOn(s, a, p).value, p);
    }
  }

  lemma {:induction false} FrozenRun(s: System, acts: seq<Action>, p: int)
    requires Redis.Inv(s.store)
    requires p in Abs(s.store) && Abs(s.store)[p].stopped
    requires !SomeRemoves(s, acts, p)
    ensures p in Abs(Exec(s, acts).store) && Abs(Exec(s, acts).store)[p] == Abs(s.store)[p]
  {
    if acts != [] {
      var before := acts[..|acts| - 1];
      FrozenRun(s, before, p);
      ExecKeepsInv(s, before);
      FrozenStep(Exec(s, before), acts[|acts| - 1], p);
    }
  }

  lemma ReadIsTally(s: System, p: int)
    requires p in Abs(s.store)
    ensures ReadReply(s, p) == Answer(Abs(s.store), Stop(p))
  {
    AbsLookup(s.store, p);
  }

  /** From the first SET to 2 on, and as long as the poll is not removed, every stop that overlaps
      finds the poll and reads the same users and votes: those the poll had at that SET. */
  lemma OverlappingStopsAgree(s: System, c: int, p: int, acts: seq<Action>)
    requires Redis.Inv(s.store) && Enabled(s, StopSet(c, p)) && StateSet(s.store, p)
    requires !SomeRemoves(Apply(s, StopSet(c, p)), acts, p)
    ensures var later := Exec(Apply(s, StopSet(c, p)), acts);
            StateSet(later.store, p) && ReadReply(later, p) == Answer(Abs(s.store), Stop(p))
  {
    var s1 := Apply(s, StopSet(c, p));
    SetFreezes(s, c, p);
    FrozenRun(s1, acts, p);
    SameTally(Abs(s1.store), Abs(Exec(s1, acts).store), p);
    StateSetKnown(Exec(s1, acts).store, p);
    ReadIsTally(Exec(s1, acts), p);
  }

  /** What an HGETALL of a stop gives is the tally of the votes that count then. */
  lemma ReadIsCounted(s: System, ops: seq<Op>, p: int)
    requires Redis.Inv(s.store) && Prescribed(Abs(s.store), ops, p)
    ensures ReadReply(s, p) == TallyOf(Counted(ops, p))
  {
    StateSetKnown(s.store, p);
    if p in Abs(s.store) {
      ReadIsTally(s, p);
    } else {
      assert PollOk(s.store, p);
      assert DataOf(s.store, p) == map[];
      TallyEmptyIff(s, p);
      NoVotesTally();
    }
  }

  lemma NoVotesTally()
    ensures TallyOf([]) == Tally([], multiset{})
  {
    var none: seq<(int, Object)> := [];
    assert UsersOf(none) == {};
    assert SortedSet({}) == [];
  }

  lemma RemovedRead(s: System, acts: seq<Action>, p: int)
    requires Redis.Inv(s.store) && SomeRemoves(s, acts, p)
    ensures ReadReply(Exec(s, acts), p) == TallyOf(Counted(OpsOn(s, acts, p), p))
  {
    var ops := OpsOn(s, acts, p);
    RunOn(s, acts, p);
    RemovedForgotten(s, acts, p);
    RunForgets(Abs(s.store), ops, p);
    RunIsPrescribed(ops, p);
    ExecKeepsInv(s, acts);
    ReadIsCounted(Exec(s, acts), ops, p);
  }

  /** Exact condition, for all that others do between the SET and the HGETALL of a stop: it returns
      the tally at its SET iff the poll was not removed in between, or the votes that were accepted
      since the removal happen to give the same tally. */
  lemma StopReadIff(s: System, c: int, p: int, acts: seq<Action>)
    requires Redis.Inv(s.store) && Enabled(s, StopSet(c, p)) && StateSet(s.store, p)
    ensures var s1 := Apply(s, StopSet(c, p));
            ReadReply(Exec(s1, acts), p) == Answer(Abs(s.store), Stop(p)) <==>
            !SomeRemoves(s1, acts, p) || TallyOf(Counted(OpsOn(s1, acts, p), p)) == Answer(Abs(s.store), Stop(p))
  {
    var s1 := Apply(s, StopSet(c, p));
    if SomeRemoves(s1, acts, p) {
      SetFreezes(s, c, p);
      RemovedRead(s1, acts, p);
    } else {
      OverlappingStopsAgree(s, c, p, acts);
    }
  }

  /** If the poll is not started again in between: iff it was not removed, or had no votes. */
  lemma StopReadIffNoRestart(s: System, c: int, p: int, acts: seq<Action>)
    requires Redis.Inv(s.store) && Enabled(s, StopSet(c, p)) && StateSet(s.store, p)
    requires forall i :: 0 <= i < |acts| ==> !(acts[i].StartSetNx? && acts[i].poll == p)
    ensures var s1 := Apply(s, StopSet(c, p));
            ReadReply(Exec(s1, acts), p) == Answer(Abs(s.store), Stop(p)) <==>
            !SomeRemoves(s1, acts, p) || DataOf(s.store, p) == map[]
  {
    var s1 := Apply(s, StopSet(c, p));
    StopReadIff(s, c, p, acts);
    NoRestartNoVotes(s1, acts, p);
    NoVotesTally();
    StateSetKnown(s.store, p);
    ReadIsTally(s, p);
    TallyEmptyIff(s, p);
  }

  lemma {:induction false} NoStart(s: System, acts: seq<Action>, p: int)
    requires forall i :: 0 <= i < |acts| ==> !(acts[i].StartSetNx? && acts[i].poll == p)
    ensures Start(p) !in OpsOn(s, acts, p)
  {
    if acts != [] {
      NoStart(s, acts[..|acts| - 1], p);
    }
  }

  lemma NoRestartNoVotes(s: System, acts: seq<Action>, p: int)
    requires forall i :: 0 <= i < |acts| ==> !(acts[i].StartSetNx? && acts[i].poll == p)
    ensures Counted(OpsOn(s, acts, p), p) == []
  {
    NoStart(s, acts, p);
    RunIsPrescribed(OpsOn(s, acts, p), p);
  }

  lemma SameTally(s: State, t: State, p: int)
    requires p in s && p in t && s[p] == t[p]
    ensures Answer(s, Stop(p)) == Answer(t, Stop(p))
  {
  }

  lemma SetFreezes(s: System, c: int, p: int)
    requires Redis.Inv(s.store) && Enabled(s, StopSet(c, p)) && StateSet(s.store, p)
    ensures var s1 := Apply(s, StopSet(c, p));
            && Redis.Inv(s1.store) && p in Abs(s1.store) && Abs(s1.store)[p].stopped
            && Answer(Abs(s1.store), Stop(p)) == Answer(Abs(s.store), Stop(p))
  {
    AbsLookup(s.store, p);
    StopStep(s.store, p);
  }

  /** The shortest case: one clear between the two commands. */
  lemma ClearInsideStop(s: System, c: int, d: int, p: int)
    requires Redis.Inv(s.store) && c != d && ClientOf(s, c).Ready? && ClientOf(s, d).Ready? && StateSet(s.store, p)
    ensures var later := Exec(Apply(s, StopSet(c, p)), [ClearDel(d, p)]);
            && ClientOf(later, c) == Stopping(p)
            && ReadReply(later, p) == Tally([], multiset{})
            && (ReadReply(later, p) == Answer(Abs(s.store), Stop(p)) <==> DataOf(s.store, p) == map[])
  {
    var s1, acts := Apply(s, StopSet(c, p)), [ClearDel(d, p)];
    assert s1.clients == s.clients[c := Stopping(p)];
    assert acts[..0] == [] && Exec(s1, acts) == Apply(s1, acts[0]);
    assert Apply(s1, acts[0]).clients == s1.clients[d := Clearing(p)];
    StopReadIffNoRestart(s, c, p, acts);
    SetFreezes(s, c, p);
    RemovedRead(s1, acts, p);
    NoRestartNoVotes(s1, acts, p);
    NoVotesTally();
  }

  lemma TallyEmptyIff(s: System, p: int)
    requires Redis.Inv(s.store)
    ensures ReadReply(s, p) == Tally([], multiset{}) <==> DataOf(s.store, p) == map[]
  {
    var data := DataOf(s.store, p);
    assert PollOk(s.store, p);
    if data == map[] {
      assert Decoded(data) == map[];
    } else {
      var f :| f in data;
      FieldUsersAre(data, Atoi(f).value);
      assert Atoi(f).value in Elements(SortedSet(Decoded(data).Keys));
    }
  }

  /********** Whole histories **********/

  /** The number of commands before the last SET of a stop by `c`. */
  ghost function SetAt(acts: seq<Action>, c: int): nat {
    if acts == [] then 0 else
      var before, a := acts[..|acts| - 1], acts[|acts| - 1];
      if a.StopSet? && a.client == c && Enabled(Exec(Init, before), a) then |before| else SetAt(before, c)
  }

  lemma OnlySetStops(s: System, a: Action, c: int)
    requires ClientOf(Apply(s, a), c).Stopping?
    ensures a.StopSet? && a.client == c && Enabled(s, a) ==> a.poll == ClientOf(Apply(s, a), c).poll && StateSet(s.store, a.poll)
    ensures !(a.StopSet? && a.client == c && Enabled(s, a)) ==> ClientOf(s, c) == ClientOf(Apply(s, a), c)
  {
  }

  /** A caller between the two commands of a stop has found the poll at its SET. */
  lemma {:induction false} PendingStop(acts: seq<Action>, c: int)
    requires ClientOf(Exec(Init, acts), c).Stopping?
    ensures var j := SetAt(acts, c);
            && j < |acts| && acts[j] == StopSet(c, ClientOf(Exec(Init, acts), c).poll)
            && Enabled(Exec(Init, acts[..j]), acts[j]) && StateSet(Exec(Init, acts[..j]).store, acts[j].poll)
  {
    if acts != [] {
      var before, a := acts[..|acts| - 1], acts[|acts| - 1];
      OnlySetStops(Exec(Init, before), a, c);
      if !(a.StopSet? && a.client == c && Enabled(Exec(Init, before), a)) {
        PendingStop(before, c);
        assert acts[..SetAt(acts, c)] == before[..SetAt(acts, c)];
      }
    }
  }

  lemma {:induction false} ExecSplit(s: System, a: seq<Action>, b: seq<Action>)
    ensures Exec(s, a + b) == Exec(Exec(s, a), b)
    decreases |b|
  {
    if b == [] {
      assert a + b == a;
    } else {
      ExecSplit(s, a, b[..|b| - 1]);
      assert (a + b)[..|a + b| - 1] == a + b[..|b| - 1];
    }
  }

  lemma {:induction false} ExecAround(s: System, a: seq<Action>, x: Action, b: seq<Action>)
    ensures Exec(s, a + [x] + b) == Exec(Apply(Exec(s, a), x), b)
    decreases |b|
  {
    var all := a + [x] + b;
    if b == [] {
      assert all[..|all| - 1] == a;
    } else {
      assert all[..|all| - 1] == a + [x] + b[..|b| - 1];
      ExecAround(s, a, x, b[..|b| - 1]);
    }
  }

  lemma Rejoined(acts: seq<Action>, j: nat)
    requires j < |acts|
    ensures acts[..j] + [acts[j]] + acts[j + 1..] == acts
  {
  }

  lemma SplitAtSet(acts: seq<Action>, j: nat)
    requires j < |acts|
    ensures Exec(Init, acts) == Exec(Apply(Exec(Init, acts[..j]), acts[j]), acts[j + 1..])
  {
    Rejoined(acts, j);
    ExecAround(Init, acts[..j], acts[j], acts[j + 1..]);
  }

  lemma ReadCountedAt(acts: seq<Action>, p: int)
    ensures ReadReply(Exec(Init, acts), p) == TallyOf(Counted(OpsOn(Init, acts, p), p))
  {
    PollLinearizable(acts, p);
    ReadIsCounted(Exec(Init, acts), OpsOn(Init, acts, p), p);
  }

  lemma StopPrescribedAt(acts: seq<Action>, p: int)
    requires StateSet(Exec(Init, acts).store, p)
    ensures Redis.Inv(Exec(Init, acts).store)
    ensures PrescribedAnswer(OpsOn(Init, acts, p), Stop(p)) == TallyOf(Counted(OpsOn(Init, acts, p), p))
    ensures PrescribedAnswer(OpsOn(Init, acts, p), Stop(p)) == Answer(Abs(Exec(Init, acts).store), Stop(p))
  {
    PollLinearizable(acts, p);
    StateSetKnown(Exec(Init, acts).store, p);
    PrescribedStop(Abs(Exec(Init, acts).store), OpsOn(Init, acts, p), p);
  }

  lemma PrescribedStop(s: State, ops: seq<Op>, p: int)
    requires Prescribed(s, ops, p) && p in s
    ensures PrescribedAnswer(ops, Stop(p)) == TallyOf(Counted(ops, p)) == Answer(s, Stop(p))
  {
  }

  /** The poll was removed since the SET of the stop that `c` is about to read for. */
  ghost predicate Disturbed(acts: seq<Action>, c: int)
    requires ClientOf(Exec(Init, acts), c).Stopping?
  {
    var j := SetAt(acts, c);
    j < |acts| && SomeRemoves(Apply(Exec(Init, acts[..j]), acts[j]), acts[j + 1..], ClientOf(Exec(Init, acts), c).poll)
  }

  /** In every execution: what a stop returns are the votes that count at its HGETALL, and these are
      the votes that counted at its SET iff the poll was not removed in between or the tallies
      happen to be equal. */
  lemma StopAnsweredIff(acts: seq<Action>, c: int)
    requires ClientOf(Exec(Init, acts), c).Stopping?
    ensures var p, j := ClientOf(Exec(Init, acts), c).poll, SetAt(acts, c);
            && j < |acts|
            && ReadReply(Exec(Init, acts), p) == TallyOf(Counted(OpsOn(Init, acts, p), p))
            && (ReadReply(Exec(Init, acts), p) == PrescribedAnswer(OpsOn(Init, acts[..j], p), Stop(p)) <==>
                !Disturbed(acts, c) || TallyOf(Counted(OpsOn(Init, acts, p), p)) == TallyOf(Counted(OpsOn(Init, acts[..j], p), p)))
  {
    var p, j := ClientOf(Exec(Init, acts), c).poll, SetAt(acts, c);
    PendingStop(acts, c);
    SplitAtSet(acts, j);
    ReadCountedAt(acts, p);
    StopPrescribedAt(acts[..j], p);
    if !Disturbed(acts, c) {
      OverlappingStopsAgree(Exec(Init, acts[..j]), c, p, acts[j + 1..]);
    }
  }

  /** A vote or a stop with what the caller gets; it takes effect behind the first `at` commands. */
  datatype Event = Event(op: Op, reply: Reply, at: nat)

  /** The answer, if any, that the last command of `acts` brings. */
  ghost function Answered(acts: seq<Action>): seq<Event>
    requires acts != []
  {
    var before, a := acts[..|acts| - 1], acts[|acts| - 1];
    var s := Exec(Init, before);
    if !Enabled(s, a) then [] else
    match a
    case VoteAtomic(p, u, o) => [Event(Vote(p, u, o), ReplyOfCode(VoteStep(s.store, p, u, o).1), |before|)]
    case StopSet(_, p) => if StateKey(p) in s.store then [] else [Event(Stop(p), NotExist, |before|)]
    case StopRead(c) => [Event(Stop(ClientOf(s, c).poll), ReadReply(s, ClientOf(s, c).poll), SetAt(before, c))]
    case _ => []
  }

  ghost function History(acts: seq<Action>): seq<Event> {
    if acts == [] then [] else History(acts[..|acts| - 1]) + Answered(acts)
  }

  /** No poll was removed between the two commands of a stop. */
  ghost predicate StopsUndisturbed(acts: seq<Action>) {
    acts == [] ||
    (var before, a := acts[..|acts| - 1], acts[|acts| - 1];
     && StopsUndisturbed(before)
     && (a.StopRead? && ClientOf(Exec(Init, before), a.client).Stopping? ==> !Disturbed(before, a.client)))
  }

  /** The answer is the one that the operations before its point of effect prescribe. */
  ghost predicate RightlyAnswered(acts: seq<Action>, e: Event) {
    && (e.op.Vote? || e.op.Stop?) && e.at < |acts|
    && e.reply == PrescribedAnswer(OpsOn(Init, acts[..e.at], e.op.poll), e.op)
  }

  lemma AbsentStop(acts: seq<Action>, p: int)
    requires !StateSet(Exec(Init, acts).store, p)
    ensures PrescribedAnswer(OpsOn(Init, acts, p), Stop(p)) == NotExist
  {
    PollLinearizable(acts, p);
    StateSetKnown(Exec(Init, acts).store, p);
  }

  lemma UndisturbedStop(acts: seq<Action>, c: int)
    requires ClientOf(Exec(Init, acts), c).Stopping? && !Disturbed(acts, c)
    ensures var p := ClientOf(Exec(Init, acts), c).poll;
            && SetAt(acts, c) < |acts|
            && ReadReply(Exec(Init, acts), p) == PrescribedAnswer(OpsOn(Init, acts[..SetAt(acts, c)], p), Stop(p))
  {
    StopAnsweredIff(acts, c);
  }

  lemma AnsweredVote(before: seq<Action>, a: Action)
    requires a.VoteAtomic?
    ensures var s := Exec(Init, before);
            RightlyAnswered(before + [a], Event(Vote(a.poll, a.user, a.vote),
                                                ReplyOfCode(VoteStep(s.store, a.poll, a.user, a.vote).1), |before|))
  {
    assert (before + [a])[..|before|] == before;
    VoteAnsweredAtomically(before, a.poll, a.user, a.vote);
  }

  lemma AnsweredAbsent(before: seq<Action>, a: Action)
    requires a.StopSet? && !StateSet(Exec(Init, before).store, a.poll)
    ensures RightlyAnswered(before + [a], Event(Stop(a.poll), NotExist, |before|))
  {
    assert (before + [a])[..|before|] == before;
    AbsentStop(before, a.poll);
  }

  lemma AnsweredRead(before: seq<Action>, a: Action)
    requires a.StopRead? && ClientOf(Exec(Init, before), a.client).Stopping? && !Disturbed(before, a.client)
    ensures var p := ClientOf(Exec(Init, before), a.client).poll;
            RightlyAnswered(before + [a], Event(Stop(p), ReadReply(Exec(Init, before), p), SetAt(before, a.client)))
  {
    UndisturbedStop(before, a.client);
    var at := SetAt(before, a.client);
    assert (before + [a])[..at] == before[..at];
  }

  lemma AnsweredRightly(acts: seq<Action>, e: Event)
    requires acts != [] && StopsUndisturbed(acts) && e in Answered(acts)
    ensures RightlyAnswered(acts, e)
  {
    var before, a := acts[..|acts| - 1], acts[|acts| - 1];
    assert acts == before + [a];
    if a.VoteAtomic? {
      AnsweredVote(before, a);
    } else if a.StopSet? {
      AnsweredAbsent(before, a);
    } else {
      AnsweredRead(before, a);
    }
  }

  /** Main theorem: if no clear falls inside a stop, every vote and every stop of the whole history,
      also the stops that find no poll, is answered as if the operations had run one after the other. */
  lemma {:induction false} HistoryAnswered(acts: seq<Action>)
    requires StopsUndisturbed(acts)
    ensures forall i :: 0 <= i < |History(acts)| ==> RightlyAnswered(acts, History(acts)[i])
  {
    if acts != [] {
      var before := acts[..|acts| - 1];
      HistoryAnswered(before);
      forall i | 0 <= i < |History(acts)| ensures RightlyAnswered(acts, History(acts)[i]) {
        var e := History(acts)[i];
        if i < |History(before)| {
          assert e == History(before)[i] && acts[..e.at] == before[..e.at];
        } else {
          AnsweredRightly(acts, e);
        }
      }
    }
  }

  /********** LiveVotes between other commands **********/

  ghost predicate VotesWithin(a: map<string, Object>, b: map<string, Object>) {
    forall f :: f in a ==> f in b && b[f] == a[f]
  }

  /** Only votes and removals touch the vote hash of `p`. */
  lemma DataUntouched(s: System, a: Action, p: int)
    requires !Removes(s, a, p) && !a.VoteAtomic? && !a.ClearAllAtomic?
    ensures DataOf(Apply(s, a).store, p) == DataOf(s.store, p)
  {
    KeysDiffer(p, p);
    if a.StartSetNx? || a.StopSet? || a.ClearDel? {
      KeysDiffer(a.poll, p);
    }
  }

  lemma VoteKeepsVotes(st: Store, q: int, u: int, o: Object, p: int)
    ensures VotesWithin(DataOf(st, p), DataOf(VoteStep(st, q, u, o).0, p))
  {
    VoteRejected(st, q, u, o);
    if VoteStep(st, q, u, o).1 == 0 {
      KeysDiffer(q, p);
      if q == p {
        assert DataOf(VoteStep(st, q, u, o).0, p) == DataOf(st, p)[Itoa(u) := o];
      } else {
        assert DataOf(VoteStep(st, q, u, o).0, p) == DataOf(st, p);
      }
    }
  }

  /** As long as the poll is not removed, its votes stay, each with its user. */
  lemma VotesStayStep(s: System, a: Action, p: int)
    requires !Removes(s, a, p)
    ensures VotesWithin(DataOf(s.store, p), DataOf(Apply(s, a).store, p))
  {
    if a.VoteAtomic? {
      VoteKeepsVotes(s.store, a.poll, a.user, a.vote, p);
    } else if a.ClearAllAtomic? {
      ScriptReaches(s.store, p);
    } else {
      DataUntouched(s, a, p);
    }
  }

  lemma {:induction false} VotesStay(s: System, acts: seq<Action>, p: int)
    requires !SomeRemoves(s, acts, p)
    ensures VotesWithin(DataOf(s.store, p), DataOf(Exec(s, acts).store, p))
  {
    if acts != [] {
      VotesStay(s, acts[..|acts| - 1], p);
      VotesStayStep(Exec(s, acts[..|acts| - 1]), acts[|acts| - 1], p);
    }
  }

  /** LiveVotes is not atomic: the HGETALL of each listed poll comes some commands after the SMEMBERS.
      What it shows of a poll that is not removed during the call lies between the votes at the
      beginning of the call and those at its end; and it is always what counts at that moment. */
  lemma LiveVotesBetween(acts: seq<Action>, until: seq<Action>, after: seq<Action>, p: int)
    requires var s := Exec(Init, acts); !SomeRemoves(s, until, p) && !SomeRemoves(Exec(s, until), after, p)
    ensures var s := Exec(Init, acts);
            && VotesWithin(DataOf(s.store, p), DataOf(Exec(s, until).store, p))
            && VotesWithin(DataOf(Exec(s, until).store, p), DataOf(Exec(Exec(s, until), after).store, p))
            && ReadReply(Exec(s, until), p) == TallyOf(Counted(OpsOn(Init, acts + until, p), p))
  {
    var s := Exec(Init, acts);
    VotesStay(s, until, p);
    VotesStay(Exec(s, until), after, p);
    ExecSplit(Init, acts, until);
    ReadCountedAt(acts + until, p);
  }

  /** The system when a LiveVotes call that began at `s` reads its poll number `i`: `gaps[j]` is what
      others did before the read of poll number `j`. */
  function Moment(s: System, gaps: seq<seq<Action>>, i: nat): System
    requires i < |gaps|
  {
    Exec(if i == 0 then s else Moment(s, gaps, i - 1), gaps[i])
  }

  /** LiveVotes with the commands of others between its reads: it lists exactly the polls that were in
      the list at its beginning, each with its votes at the moment of its own read. */
  method LiveVotesAmong(s: System, members: seq<string>, gaps: seq<seq<Action>>) returns (live: LiveTable, end: System)
    requires Redis.Inv(s.store) && |gaps| == |members|
    requires forall m :: m in members <==> m in SMembers(s.store, POLLS_KEY)
    requires forall i, j :: 0 <= i < j < |members| ==> members[i] != members[j]
    ensures live.Keys == Ids(SMembers(s.store, POLLS_KEY))
    ensures forall i :: 0 <= i < |members| ==> ShowsMoment(live, members[i], Moment(s, gaps, i))
    ensures end == if gaps == [] then s else Moment(s, gaps, |gaps| - 1)
  {
    live, end := map[], s;
    for i := 0 to |members|
      invariant Redis.Inv(end.store) && end == if i == 0 then s else Moment(s, gaps, i - 1)
      invariant live.Keys == IdsOf(members[..i])
      invariant forall j :: 0 <= j < i ==> ShowsMoment(live, members[j], Moment(s, gaps, j))
    {
      assert members[i] in members;
      ExecKeepsInv(end, gaps[i]);
      end := Exec(end, gaps[i]);
      OtherIds(s, members, i);
      ghost var before := live;
      live := ReadPoll(end, members[i], live);
      forall j | 0 <= j < i ensures ShowsMoment(live, members[j], Moment(s, gaps, j)) {
        RowKept(before, live, members[i], members[j], Moment(s, gaps, j));
      }
      IdsOfPrefix(members, i);
    }
    assert members[..|members|] == members;
    AllIds(s, members);
  }

  /** One HGETALL of the call, parsed into the table. */
  method ReadPoll(s: System, member: string, live: LiveTable) returns (live': LiveTable)
    requires Redis.Inv(s.store) && Canonical(member)
    ensures live'.Keys == live.Keys + {Atoi(member).value} && ShowsMoment(live', member, s)
    ensures SameElsewhere(live, live', Atoi(member).value)
  {
    var p := Atoi(member).value;
    assert PollOk(s.store, p);
    var parsed, row := Redis.Backend.ParseVotes(HGetAll(s.store, VoteKey(p)));
    live' := live[p := row];
  }

  ghost predicate SameElsewhere(a: LiveTable, b: LiveTable, p: int) {
    forall q :: q in a && q != p ==> q in b && b[q] == a[q]
  }

  lemma RowKept(live: LiveTable, live': LiveTable, member: string, other: string, s: System)
    requires Canonical(member) && SameElsewhere(live, live', Atoi(member).value)
    requires Atoi(other) != Atoi(member) && ShowsMoment(live, other, s)
    ensures ShowsMoment(live', other, s)
  {
  }

  /** The row of the poll shows its votes at that moment. */
  ghost predicate ShowsMoment(live: LiveTable, member: string, s: System) {
    && Atoi(member).Some? && Atoi(member).value in live
    && live[Atoi(member).value] == InClear(Decoded(DataOf(s.store, Atoi(member).value)))
  }

  ghost function IdsOf(members: seq<string>): set<int> {
    set m | m in members && Atoi(m).Some? :: Atoi(m).value
  }

  lemma IdsOfPrefix(members: seq<string>, i: nat)
    requires i < |members| && Atoi(members[i]).Some?
    ensures IdsOf(members[..i + 1]) == IdsOf(members[..i]) + {Atoi(members[i]).value}
  {
    var all, front, m := members[..i + 1], members[..i], members[i];
    assert all == front + [m];
    assert forall x :: x in all <==> x in front || x == m;
  }

  /** Different members of the list are different polls. */
  lemma OtherIds(s: System, members: seq<string>, i: nat)
    requires Redis.Inv(s.store) && i < |members| && forall m :: m in members <==> m in SMembers(s.store, POLLS_KEY)
    requires forall i, j :: 0 <= i < j < |members| ==> members[i] != members[j]
    ensures forall j :: 0 <= j < i ==> Atoi(members[j]) != Atoi(members[i])
  {
    forall j | 0 <= j < i ensures Atoi(members[j]) != Atoi(members[i]) {
      assert members[j] in members && members[i] in members;
      assert Canonical(members[j]) && Canonical(members[i]);
    }
  }

  lemma AllIds(s: System, members: seq<string>)
    requires Redis.Inv(s.store) && forall m :: m in members <==> m in SMembers(s.store, POLLS_KEY)
    ensures IdsOf(members) == Ids(SMembers(s.store, POLLS_KEY))
  {
    assert forall m :: m in members ==> Canonical(m);
  }

  /********** The list of polls **********/

  ghost predicate SomeStarting(s: System, p: int) {
    exists c :: c in s.clients && s.clients[c] == Starting(p)
  }

  ghost predicate SomeClearing(s: System, p: int) {
    exists c :: c in s.clients && s.clients[c] == Clearing(p)
  }

  /** No clear meets a start of the same poll. */
  ghost predicate NoOverlap(s: System, a: Action) {
    match a
    case StartSetNx(_, p) => !SomeClearing(s, p)
    case ClearDel(_, p) => !SomeStarting(s, p)
    case ClearAllAtomic => forall p :: !SomeStarting(s, p)
    case _ => true
  }

  /** How list and state keys of one poll relate while operations are under way. */
  ghost predicate ListOk(s: System, p: int) {
    && (StateSet(s.store, p) && !Listed(s.store, p) ==> SomeStarting(s, p))
    && (Listed(s.store, p) && !StateSet(s.store, p) ==> SomeClearing(s, p))
    && (SomeStarting(s, p) ==> StateSet(s.store, p))
    && (SomeClearing(s, p) ==> !StateSet(s.store, p))
  }

  ghost predicate ListInv(s: System) {
    Redis.Inv(s.store) && forall p :: ListOk(s, p)
  }

  lemma KnownAfterAction(s: System, a: Action, q: int)
    requires Enabled(s, a)
    ensures q in StateAfter(s, a) <==>
              (q in Abs(s.store) || (a.StartSetNx? && a.poll == q))
              && !(a.ClearDel? && a.poll == q) && !(a.ClearAllAtomic? && Listed(s.store, q))
  {
    if Effect(s, a).Some? {
      KnownAfter(Abs(s.store), Effect(s, a).value, q);
    }
  }

  lemma StateSetKnown(st: Store, q: int)
    ensures StateSet(st, q) <==> q in Abs(st)
  {
    AbsLookup(st, q);
  }

  /** How the action changes whether `q` has a state key. */
  lemma StateSetAfter(s: System, a: Action, q: int)
    requires Redis.Inv(s.store) && Enabled(s, a)
    ensures StateSet(Apply(s, a).store, q) <==>
              (StateSet(s.store, q) || (a.StartSetNx? && a.poll == q))
              && !(a.ClearDel? && a.poll == q) && !(a.ClearAllAtomic? && Listed(s.store, q))
  {
    StateSetKnown(s.store, q);
    StateSetKnown(Apply(s, a).store, q);
    StepRefines(s, a);
    KnownAfterAction(s, a, q);
  }

  /** How the action changes whether `q` is listed. */
  lemma ListedAfter(s: System, a: Action, q: int)
    requires Redis.Inv(s.store) && Enabled(s, a)
    ensures Listed(Apply(s, a).store, q) <==>
              (Listed(s.store, q) || (a.StartSAdd? && ClientOf(s, a.client).poll == q))
              && !(a.ClearSRem? && ClientOf(s, a.client).poll == q) && !a.ClearAllAtomic?
  {
    var st, st' := s.store, Apply(s, a).store;
    match a
    case StartSetNx(_, p) => StartStep(st, p);
    case StartSAdd(c) => SAddStep(st, ClientOf(s, c).poll); ListedSet(st, st', ClientOf(s, c).poll);
    case VoteAtomic(p, u, o) => VoteFrame(st, p, u, o);
    case StopSet(_, p) => StopStep(st, p);
    case StopRead(_) =>
    case ClearDel(_, p) => ClearStep(st, p);
    case ClearSRem(c) => SRemStep(st, ClientOf(s, c).poll); ListedSet(st, st', ClientOf(s, c).poll);
    case ClearAllAtomic => ClearAllStepRefines(st);
  }

  lemma KeysAfter(s: System, a: Action, q: int)
    requires Redis.Inv(s.store) && Enabled(s, a)
    ensures StateSet(Apply(s, a).store, q) <==>
              (StateSet(s.store, q) || (a.StartSetNx? && a.poll == q))
              && !(a.ClearDel? && a.poll == q) && !(a.ClearAllAtomic? && Listed(s.store, q))
    ensures Listed(Apply(s, a).store, q) <==>
              (Listed(s.store, q) || (a.StartSAdd? && ClientOf(s, a.client).poll == q))
              && !(a.ClearSRem? && ClientOf(s, a.client).poll == q) && !a.ClearAllAtomic?
  {
    StateSetAfter(s, a, q);
    ListedAfter(s, a, q);
  }

  /** A caller that begins or ends its operation on `p` is the only change in who works on what. */
  lemma WhoAfter(s: System, a: Action, q: int)
    requires Enabled(s, a)
    ensures a.StartSetNx? && a.poll == q ==> SomeStarting(Apply(s, a), q)
    ensures a.ClearDel? && a.poll == q ==> SomeClearing(Apply(s, a), q)
    ensures SomeStarting(Apply(s, a), q) ==> SomeStarting(s, q) || (a.StartSetNx? && a.poll == q)
    ensures SomeClearing(Apply(s, a), q) ==> SomeClearing(s, q) || (a.ClearDel? && a.poll == q)
    ensures SomeStarting(s, q) && !(a.StartSAdd? && ClientOf(s, a.client).poll == q) ==> SomeStarting(Apply(s, a), q)
    ensures SomeClearing(s, q) && !(a.ClearSRem? && ClientOf(s, a.client).poll == q) ==> SomeClearing(Apply(s, a), q)
    ensures a.StartSAdd? && ClientOf(s, a.client).poll == q ==> SomeStarting(s, q)
    ensures a.ClearSRem? && ClientOf(s, a.client).poll == q ==> SomeClearing(s, q)
  {
    var s' := Apply(s, a);
    if a.StartSetNx? || a.ClearDel? || a.StartSAdd? || a.ClearSRem? {
      assert a.client in s'.clients;
      assert forall c :: c in s.clients && c != a.client ==> c in s'.clients && s'.clients[c] == s.clients[c];
    }
    if SomeStarting(s, q) {
      var c :| c in s.clients && s.clients[c] == Starting(q);
      assert c in s'.clients;
    }
    if SomeClearing(s, q) {
      var c :| c in s.clients && s.clients[c] == Clearing(q);
      assert c in s'.clients;
    }
  }

  lemma ListStep(s: System, a: Action)
    requires ListInv(s) && Enabled(s, a) && NoOverlap(s, a)
    ensures ListInv(Apply(s, a))
  {
    StepKeepsInv(s, a);
    forall q ensures ListOk(Apply(s, a), q) {
      KeysAfter(s, a, q);
      WhoAfter(s, a, q);
      assert ListOk(s, q);
    }
  }

  ghost predicate LegalWithoutOverlap(acts: seq<Action>) {
    acts == [] ||
    (&& LegalWithoutOverlap(acts[..|acts| - 1])
     && Enabled(Exec(Init, acts[..|acts| - 1]), acts[|acts| - 1])
     && NoOverlap(Exec(Init, acts[..|acts| - 1]), acts[|acts| - 1]))
  }

  lemma {:induction false} ListRun(acts: seq<Action>)
    requires LegalWithoutOverlap(acts)
    ensures ListInv(Exec(Init, acts))
  {
    InitInv();
    if acts != [] {
      ListRun(acts[..|acts| - 1]);
      ListStep(Exec(Init, acts[..|acts| - 1]), acts[|acts| - 1]);
    }
  }

  ghost predicate Quiescent(s: System) {
    forall c :: c in s.clients ==> s.clients[c].Ready?
  }

  /** When no clear meets a start of the same poll, the list is exact whenever nobody is between two
      commands, and a ClearAll then leaves nothing. */
  lemma QuiescentListExact(acts: seq<Action>)
    requires LegalWithoutOverlap(acts) && Quiescent(Exec(Init, acts))
    ensures forall p :: Listed(Exec(Init, acts).store, p) <==> StateSet(Exec(Init, acts).store, p)
    ensures Abs(ClearAllStep(Exec(Init, acts).store)) == map[]
    ensures forall p :: DataOf(ClearAllStep(Exec(Init, acts).store), p) == map[]
  {
    var st := Exec(Init, acts).store;
    ListRun(acts);
    forall p ensures Listed(st, p) <==> StateSet(st, p) {
      assert ListOk(Exec(Init, acts), p);
    }
    ClearAllStepRefines(st);
    ClearAllCompleteIff(st);
    forall p ensures DataOf(ClearAllStep(st), p) == map[] {
      assert PollOk(ClearAllStep(st), p);
      AbsLookup(ClearAllStep(st), p);
    }
  }

  /** A poll with a state key is listed, or a start is about to list it. */
  ghost predicate CoveredAt(s: System, p: int) {
    StateSet(s.store, p) ==> Listed(s.store, p) || SomeStarting(s, p)
  }

  ghost predicate Covered(s: System) {
    forall p :: CoveredAt(s, p)
  }

  /** The SREM of a clear that comes after the poll was started again. */
  ghost predicate Hides(s: System, a: Action, p: int)
    requires Enabled(s, a)
  {
    a.ClearSRem? && ClientOf(s, a.client).poll == p && StateSet(s.store, p) && !SomeStarting(s, p)
  }

  /** A further start, which will list the poll, or a clear, which removes it. */
  ghost predicate Reveals(a: Action, p: int) {
    (a.StartSetNx? || a.ClearDel?) && a.poll == p
  }

  lemma StepCovered(s: System, a: Action, p: int)
    requires Redis.Inv(s.store) && Enabled(s, a)
    ensures CoveredAt(Apply(s, a), p) <==> !Hides(s, a, p) && (CoveredAt(s, p) || Reveals(a, p))
  {
    KeysAfter(s, a, p);
    WhoAfter(s, a, p);
  }

  /** Exactly one kind of command can hide a poll from ClearAll: such an SREM. */
  lemma CoveredIff(s: System, a: Action)
    requires Redis.Inv(s.store) && Enabled(s, a) && Covered(s)
    ensures Covered(Apply(s, a)) <==> forall p :: !Hides(s, a, p)
  {
    forall p ensures CoveredAt(Apply(s, a), p) <==> !Hides(s, a, p) {
      assert CoveredAt(s, p);
      StepCovered(s, a, p);
    }
  }

  /** The last such SREM for `p` was followed by no start and no clear of `p`. */
  ghost predicate Hidden(acts: seq<Action>, p: int) {
    acts != [] &&
    var s, a := Exec(Init, acts[..|acts| - 1]), acts[|acts| - 1];
    var before := Hidden(acts[..|acts| - 1], p);
    if Enabled(s, a) then Hides(s, a, p) || (before && !Reveals(a, p)) else before
  }

  lemma {:induction false} HiddenIff(acts: seq<Action>, p: int)
    ensures CoveredAt(Exec(Init, acts), p) <==> !Hidden(acts, p)
  {
    InitInv();
    if acts == [] {
      StateSetKnown(Init.store, p);
    } else {
      var s, a := Exec(Init, acts[..|acts| - 1]), acts[|acts| - 1];
      HiddenIff(acts[..|acts| - 1], p);
      ExecKeepsInv(Init, acts[..|acts| - 1]);
      if Enabled(s, a) {
        StepCovered(s, a, p);
      }
    }
  }

  lemma RestCovered(s: System)
    requires Quiescent(s)
    ensures AllListed(s.store) <==> Covered(s)
  {
    assert forall p :: !SomeStarting(s, p);
    assert forall p :: CoveredAt(s, p) <==> (StateSet(s.store, p) ==> Listed(s.store, p));
  }

  /** Main theorem, exact for every execution: when nobody is between two commands, ClearAll acts as the
      contract demands iff no poll is hidden. */
  lemma ClearAllAtRestIff(acts: seq<Action>)
    requires Quiescent(Exec(Init, acts))
    ensures var st := Exec(Init, acts).store;
            Abs(ClearAllStep(st)) == Next(Abs(st), ClearAll) <==> forall p :: !Hidden(acts, p)
  {
    var s := Exec(Init, acts);
    InitInv();
    ExecKeepsInv(Init, acts);
    ClearAllCompleteIff(s.store);
    RestCovered(s);
    CoveredUnhidden(acts);
  }

  lemma CoveredUnhidden(acts: seq<Action>)
    ensures Covered(Exec(Init, acts)) <==> forall p :: !Hidden(acts, p)
  {
    if Covered(Exec(Init, acts)) {
      forall p ensures !Hidden(acts, p) {
        assert CoveredAt(Exec(Init, acts), p);
        HiddenIff(acts, p);
      }
    } else {
      var p :| !CoveredAt(Exec(Init, acts), p);
      HiddenIff(acts, p);
      assert Hidden(acts, p);
    }
  }

  /** Such a race happens: a clear that overlaps a whole restart leaves the poll out of the list, and
      ClearAll does not remove it. */
  lemma RestartInsideClear(s: System, c: int, d: int, p: int)
    requires Redis.Inv(s.store) && c != d && ClientOf(s, c).Ready? && ClientOf(s, d).Ready?
    ensures var s1 := Apply(Apply(Apply(Apply(s, ClearDel(c, p)), StartSetNx(d, p)), StartSAdd(d)), ClearSRem(c));
            && ClientOf(s1, c).Ready? && ClientOf(s1, d).Ready?
            && StateSet(s1.store, p) && !Listed(s1.store, p)
            && p in Abs(Apply(s1, ClearAllAtomic).store)
  {
    var a := Apply(s, ClearDel(c, p));
    var b := Apply(a, StartSetNx(d, p));
    var e := Apply(b, StartSAdd(d));
    var s1 := Apply(e, ClearSRem(c));
    KeysAfter(s, ClearDel(c, p), p);
    StepKeepsInv(s, ClearDel(c, p));
    KeysAfter(a, StartSetNx(d, p), p);
    StepKeepsInv(a, StartSetNx(d, p));
    KeysAfter(b, StartSAdd(d), p);
    StepKeepsInv(b, StartSAdd(d));
    KeysAfter(e, ClearSRem(c), p);
    StepKeepsInv(e, ClearSRem(c));
    KeysAfter(s1, ClearAllAtomic, p);
    AbsLookup(Apply(s1, ClearAllAtomic).store, p);
  }
}
