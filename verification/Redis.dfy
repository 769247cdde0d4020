/** The redis backend over string keys: each command and script as a function of the whole store,
    and the operations built from them, run one at a time. */
module Redis {
  import opened Orders
  import opened Contract
  import opened RedisKeys

  datatype Value =
    | Str(s: string)
    | Hash(h: map<string, Object>)
    | Members(m: set<string>)

  type Store = map<string, Value>

  /********** Commands **********/

  function SetNx(st: Store, k: string, v: string): Store {
    if k in st then st else st[k := Str(v)]
  }

  /** SET k v XX; the answer is whether the key existed. */
  function SetXx(st: Store, k: string, v: string): Store {
    if k in st then st[k := Str(v)] else st
  }

  function HGetAll(st: Store, k: string): map<string, Object> {
    if k in st && st[k].Hash? then st[k].h else map[]
  }

  function SMembers(st: Store, k: string): set<string> {
    if k in st && st[k].Members? then st[k].m else {}
  }

  function SAdd(st: Store, k: string, m: string): Store {
    st[k := Members(SMembers(st, k) + {m})]
  }

  /** A set that becomes empty disappears. */
  function SRem(st: Store, k: string, m: string): Store {
    var rest := SMembers(st, k) - {m};
    if rest == {} then st - {k} else st[k := Members(rest)]
  }

  function Del(st: Store, ks: set<string>): Store {
    st - ks
  }

  /** luaVoteScript with its return code. */
  function VoteScript(st: Store, sKey: string, vKey: string, field: string, o: Object): (Store, nat) {
    if sKey !in st then (st, 1)
    else if st[sKey] == Str("2") then (st, 2)
    else if field in HGetAll(st, vKey) then (st, 3)
    else (st[vKey := Hash(HGetAll(st, vKey)[field := o])], 0)
  }

  /** The keys that luaClearAll deletes, for the two prefixes in the order in which they are passed. */
  function ScriptKeys(members: set<string>, pollsKey: string, prefix1: string, prefix2: string): set<string> {
    {pollsKey} + (set m | m in members :: prefix1 + m) + (set m | m in members :: prefix2 + m)
  }

  function ClearAllScript(st: Store, pollsKey: string, prefix1: string, prefix2: string): Store {
    Del(st, ScriptKeys(SMembers(st, pollsKey), pollsKey, prefix1, prefix2))
  }

  /** ClearAll passes the vote prefix first, although the script's comment names the state prefix first. */
  function ClearAllStep(st: Store): Store {
    ClearAllScript(st, POLLS_KEY, DATA_PREFIX, STATE_PREFIX)
  }

  /** The order of the prefixes makes no difference to what is deleted in the end. */
  lemma PrefixOrderIrrelevant(st: Store, pollsKey: string, prefix1: string, prefix2: string)
    ensures ClearAllScript(st, pollsKey, prefix1, prefix2) == ClearAllScript(st, pollsKey, prefix2, prefix1)
  {
    var ms := SMembers(st, pollsKey);
    assert ScriptKeys(ms, pollsKey, prefix1, prefix2) == ScriptKeys(ms, pollsKey, prefix2, prefix1);
  }

  /********** What the store means **********/

  predicate Canonical(f: string) {
    Atoi(f).Some? && Itoa(Atoi(f).value) == f
  }

  /** The ids that the strings stand for. */
  ghost function Ids(fields: set<string>): set<int> {
    set f | f in fields && Canonical(f) :: Atoi(f).value
  }

  lemma IdsAre(fields: set<string>, id: int)
    ensures id in Ids(fields) <==> Itoa(id) in fields
  {
    ItoaRoundTrip(id);
  }

  ghost function FieldUsers(h: map<string, Object>): set<int> {
    Ids(h.Keys)
  }

  lemma FieldUsersAre(h: map<string, Object>, u: int)
    ensures u in FieldUsers(h) <==> Itoa(u) in h
  {
    IdsAre(h.Keys, u);
  }

  /** A vote hash with parsed user ids. */
  ghost function Decoded(h: map<string, Object>): map<int, Object> {
    map u | u in FieldUsers(h) && Itoa(u) in h :: h[Itoa(u)]
  }

  lemma DecodedInsert(h: map<string, Object>, u: int, o: Object)
    requires Itoa(u) !in h
    ensures u !in Decoded(h) && Decoded(h[Itoa(u) := o]) == Decoded(h)[u := o]
  {
    FieldUsersInsert(h, u, o);
    FieldUsersAre(h, u);
    forall v | v in FieldUsers(h) ensures Itoa(v) in h && Itoa(v) != Itoa(u) {
      FieldUsersAre(h, v);
    }
  }

  lemma FieldUsersInsert(h: map<string, Object>, u: int, o: Object)
    ensures FieldUsers(h[Itoa(u) := o]) == FieldUsers(h) + {u}
  {
    forall v ensures v in FieldUsers(h[Itoa(u) := o]) <==> v in FieldUsers(h) + {u} {
      FieldUsersAre(h, v);
      FieldUsersAre(h[Itoa(u) := o], v);
      KeysDiffer(v, u);
    }
  }

  ghost predicate StateSet(st: Store, p: int) {
    StateKey(p) in st
  }

  ghost function DataOf(st: Store, p: int): map<string, Object> {
    HGetAll(st, VoteKey(p))
  }

  ghost predicate Listed(st: Store, p: int) {
    Itoa(p) in SMembers(st, POLLS_KEY)
  }

  /** The poll as the machine sees it. */
  ghost function View(st: Store, p: int): Option<Poll> {
    if StateSet(st, p) then Some(PollOf(st[StateKey(p)] == Str("2"), Decoded(DataOf(st, p)))) else None
  }

  ghost function PollsIn(st: Store): set<int> {
    set k | k in st && |k| >= 11 && k[..11] == STATE_PREFIX && Canonical(k[11..]) :: Atoi(k[11..]).value
  }

  lemma PollsInAre(st: Store, p: int)
    ensures p in PollsIn(st) <==> StateSet(st, p)
  {
    ItoaRoundTrip(p);
    assert StateKey(p)[..11] == STATE_PREFIX && StateKey(p)[11..] == Itoa(p);
    if p in PollsIn(st) {
      var k :| k in st && |k| >= 11 && k[..11] == STATE_PREFIX && Canonical(k[11..]) && Atoi(k[11..]).value == p;
      assert k == k[..11] + k[11..] == StateKey(p);
    }
  }

  ghost function Abs(st: Store): State {
    map p | p in PollsIn(st) && View(st, p).Some? :: View(st, p).value
  }

  ghost function Lookup(s: State, p: int): Option<Poll> {
    if p in s then Some(s[p]) else None
  }

  lemma AbsLookup(st: Store, p: int)
    ensures Lookup(Abs(st), p) == View(st, p)
  {
    PollsInAre(st, p);
  }

  lemma StatesEqual(a: State, b: State)
    requires forall p :: Lookup(a, p) == Lookup(b, p)
    ensures a == b
  {
    forall p ensures p in a <==> p in b {
      assert Lookup(a, p) == Lookup(b, p);
    }
    forall p | p in a ensures a[p] == b[p] {
      assert Lookup(a, p) == Lookup(b, p);
    }
  }

  /** Every key of the backend holds a value of its kind; a vote hash has votes, and a state key beside it. */
  ghost predicate PollOk(st: Store, p: int) {
    && (StateKey(p) in st ==> st[StateKey(p)] in {Str("1"), Str("2")})
    && (VoteKey(p) in st ==> st[VoteKey(p)].Hash? && st[VoteKey(p)].h != map[] && StateSet(st, p))
    && (forall f :: f in DataOf(st, p) ==> Canonical(f))
  }

  ghost predicate Inv(st: Store) {
    && (forall p :: PollOk(st, p))
    && (POLLS_KEY in st ==> st[POLLS_KEY].Members?)
    && (forall m :: m in SMembers(st, POLLS_KEY) ==> Canonical(m))
  }

  /** Two stores hold the same for `p`. */
  ghost predicate SamePoll(a: Store, b: Store, p: int) {
    && (StateKey(p) in a <==> StateKey(p) in b)
    && (StateKey(p) in a && StateKey(p) in b ==> a[StateKey(p)] == b[StateKey(p)])
    && (VoteKey(p) in a <==> VoteKey(p) in b)
    && (VoteKey(p) in a && VoteKey(p) in b ==> a[VoteKey(p)] == b[VoteKey(p)])
  }

  /** Two stores hold the same list of polls. */
  ghost predicate SameList(a: Store, b: Store) {
    && (POLLS_KEY in a <==> POLLS_KEY in b)
    && (POLLS_KEY in a && POLLS_KEY in b ==> a[POLLS_KEY] == b[POLLS_KEY])
  }

  lemma SamePollView(a: Store, b: Store, p: int)
    requires SamePoll(a, b, p)
    ensures View(a, p) == View(b, p) && (PollOk(a, p) <==> PollOk(b, p))
  {
  }

  /** A change of the keys of one poll changes the machine's state at most there. */
  lemma AbsChange(a: Store, b: Store, p: int)
    requires forall q :: q != p ==> SamePoll(a, b, q)
    ensures View(b, p).Some? ==> Abs(b) == Abs(a)[p := View(b, p).value]
    ensures View(b, p).None? ==> Abs(b) == Abs(a) - {p}
  {
    var s := if View(b, p).Some? then Abs(a)[p := View(b, p).value] else Abs(a) - {p};
    forall q ensures Lookup(Abs(b), q) == Lookup(s, q) {
      AbsLookup(a, q);
      AbsLookup(b, q);
      if q != p { SamePollView(a, b, q); }
    }
    StatesEqual(Abs(b), s);
  }

  lemma InvChange(a: Store, b: Store, p: int)
    requires Inv(a) && SameList(a, b) && PollOk(b, p)
    requires forall q :: q != p ==> SamePoll(a, b, q)
    ensures Inv(b)
  {
    forall q ensures PollOk(b, q) {
      assert PollOk(a, q);
      if q != p { SamePollView(a, b, q); }
    }
  }

  /** The keys of other polls and the list survive when only keys of `p` are touched. */
  lemma OtherKeys(p: int)
    ensures forall q :: q != p ==> StateKey(q) !in {StateKey(p), VoteKey(p)} && VoteKey(q) !in {StateKey(p), VoteKey(p)}
    ensures POLLS_KEY !in {StateKey(p), VoteKey(p)} && StateKey(p) != VoteKey(p)
  {
    KeysDiffer(p, p);
    forall q | q != p
      ensures StateKey(q) !in {StateKey(p), VoteKey(p)} && VoteKey(q) !in {StateKey(p), VoteKey(p)}
    {
      KeysDiffer(q, p);
      KeysDiffer(p, q);
    }
  }

  ghost predicate TouchesOnly(a: Store, b: Store, p: int) {
    forall k :: k != StateKey(p) && k != VoteKey(p) ==> (k in a <==> k in b) && (k in a && k in b ==> a[k] == b[k])
  }

  lemma TouchFrame(a: Store, b: Store, p: int)
    requires TouchesOnly(a, b, p)
    ensures SameList(a, b) && forall q :: q != p ==> SamePoll(a, b, q)
  {
    OtherKeys(p);
  }

  /********** Each command as a step of the poll machine **********/

  lemma StartView(st: Store, p: int)
    requires Inv(st) && !StateSet(st, p)
    ensures var st' := SetNx(st, StateKey(p), "1");
            PollOk(st', p) && View(st', p) == Some(Poll(false, {}, multiset{}))
  {
    var st' := SetNx(st, StateKey(p), "1");
    OtherKeys(p);
    assert PollOk(st, p);
    assert DataOf(st', p) == map[];
    assert Decoded(map[]) == map[];
  }

  lemma StartFrame(st: Store, p: int)
    ensures var st' := SetNx(st, StateKey(p), "1"); SameList(st, st') && forall q :: q != p ==> SamePoll(st, st', q)
  {
    assert TouchesOnly(st, SetNx(st, StateKey(p), "1"), p);
    TouchFrame(st, SetNx(st, StateKey(p), "1"), p);
  }

  lemma StartStep(st: Store, p: int)
    requires Inv(st)
    ensures var st' := SetNx(st, StateKey(p), "1");
            Inv(st') && Abs(st') == Next(Abs(st), Start(p)) && SameList(st, st')
  {
    AbsLookup(st, p);
    StartFrame(st, p);
    if !StateSet(st, p) {
      StartView(st, p);
      AbsChange(st, SetNx(st, StateKey(p), "1"), p);
      InvChange(st, SetNx(st, StateKey(p), "1"), p);
    }
  }

  lemma StopFrame(st: Store, p: int)
    ensures var st' := SetXx(st, StateKey(p), "2"); SameList(st, st') && forall q :: q != p ==> SamePoll(st, st', q)
  {
    assert TouchesOnly(st, SetXx(st, StateKey(p), "2"), p);
    TouchFrame(st, SetXx(st, StateKey(p), "2"), p);
  }

  lemma StopView(st: Store, p: int)
    requires Inv(st) && StateSet(st, p)
    ensures var st' := SetXx(st, StateKey(p), "2");
            && PollOk(st', p) && DataOf(st', p) == DataOf(st, p)
            && View(st', p) == Some(PollOf(true, Decoded(DataOf(st, p))))
  {
    OtherKeys(p);
    assert PollOk(st, p);
    assert DataOf(SetXx(st, StateKey(p), "2"), p) == DataOf(st, p);
  }

  lemma StopStep(st: Store, p: int)
    requires Inv(st)
    ensures var st' := SetXx(st, StateKey(p), "2");
            Inv(st') && Abs(st') == Next(Abs(st), Stop(p)) && SameList(st, st')
  {
    StopFrame(st, p);
    AbsLookup(st, p);
    if StateSet(st, p) {
      StopView(st, p);
      AbsChange(st, SetXx(st, StateKey(p), "2"), p);
      InvChange(st, SetXx(st, StateKey(p), "2"), p);
    }
  }

  /** What a stop reads behind its SET is the tally of the poll. */
  lemma StopAnswer(st: Store, p: int)
    requires Inv(st)
    ensures !StateSet(st, p) ==> Answer(Abs(st), Stop(p)) == NotExist
    ensures StateSet(st, p) ==>
              var h := HGetAll(SetXx(st, StateKey(p), "2"), VoteKey(p));
              && (forall f :: f in h ==> Canonical(f))
              && Answer(Abs(st), Stop(p)) == Tally(SortedSet(Decoded(h).Keys), Values(Decoded(h)))
  {
    AbsLookup(st, p);
    if StateSet(st, p) {
      StopView(st, p);
      assert PollOk(st, p);
    }
  }

  lemma ClearStep(st: Store, p: int)
    requires Inv(st)
    ensures var st' := Del(st, {VoteKey(p), StateKey(p)});
            Inv(st') && Abs(st') == Next(Abs(st), Clear(p)) && SameList(st, st')
  {
    var st' := Del(st, {VoteKey(p), StateKey(p)});
    assert TouchesOnly(st, st', p);
    TouchFrame(st, st', p);
    AbsChange(st, st', p);
    assert PollOk(st', p);
    InvChange(st, st', p);
  }

  function ReplyOfCode(code: nat): Reply {
    if code == 1 then NotExist else if code == 2 then Stopped else if code == 3 then DoubleVote else Done
  }

  function VoteStep(st: Store, p: int, u: int, o: Object): (Store, nat) {
    VoteScript(st, StateKey(p), VoteKey(p), Itoa(u), o)
  }

  lemma VoteAnswer(st: Store, p: int, u: int, o: Object)
    requires Inv(st)
    ensures ReplyOfCode(VoteStep(st, p, u, o).1) == Answer(Abs(st), Vote(p, u, o))
  {
    AbsLookup(st, p);
    FieldUsersAre(DataOf(st, p), u);
  }

  lemma VoteView(st: Store, p: int, u: int, o: Object)
    requires Inv(st) && VoteStep(st, p, u, o).1 == 0
    ensures var st' := VoteStep(st, p, u, o).0;
            && PollOk(st', p)
            && View(st, p).Some?
            && View(st', p) == Some(Poll(false, View(st, p).value.voters + {u}, View(st, p).value.ballots + multiset{o}))
  {
    var st', h := VoteStep(st, p, u, o).0, DataOf(st, p);
    OtherKeys(p);
    assert PollOk(st, p);
    assert DataOf(st', p) == h[Itoa(u) := o];
    DecodedInsert(h, u, o);
    PollOfInsert(Decoded(h), u, o);
    ItoaRoundTrip(u);
    assert st'[StateKey(p)] == st[StateKey(p)] == Str("1");
  }

  lemma VoteFrame(st: Store, p: int, u: int, o: Object)
    ensures var st' := VoteStep(st, p, u, o).0; SameList(st, st') && forall q :: q != p ==> SamePoll(st, st', q)
  {
    assert TouchesOnly(st, VoteStep(st, p, u, o).0, p);
    TouchFrame(st, VoteStep(st, p, u, o).0, p);
  }

  lemma VoteKeepsInv(st: Store, p: int, u: int, o: Object)
    requires Inv(st)
    ensures Inv(VoteStep(st, p, u, o).0)
  {
    if VoteStep(st, p, u, o).1 == 0 {
      VoteFrame(st, p, u, o);
      VoteView(st, p, u, o);
      InvChange(st, VoteStep(st, p, u, o).0, p);
    }
  }

  lemma VoteAccepted(st: Store, p: int, u: int, o: Object)
    requires Inv(st) && VoteStep(st, p, u, o).1 == 0
    ensures p in Abs(st)
    ensures Abs(VoteStep(st, p, u, o).0)
         == Abs(st)[p := Poll(false, Abs(st)[p].voters + {u}, Abs(st)[p].ballots + multiset{o})]
  {
    AbsLookup(st, p);
    VoteFrame(st, p, u, o);
    VoteView(st, p, u, o);
    AbsChange(st, VoteStep(st, p, u, o).0, p);
  }

  lemma VoteRejected(st: Store, p: int, u: int, o: Object)
    ensures VoteStep(st, p, u, o).1 <= 3
    ensures VoteStep(st, p, u, o).1 != 0 ==> VoteStep(st, p, u, o).0 == st
    ensures ReplyOfCode(VoteStep(st, p, u, o).1) == Done <==> VoteStep(st, p, u, o).1 == 0
  {
  }

  lemma VoteStepRefines(st: Store, p: int, u: int, o: Object)
    requires Inv(st)
    ensures Abs(VoteStep(st, p, u, o).0) == Next(Abs(st), Vote(p, u, o))
  {
    VoteAnswer(st, p, u, o);
    VoteRejected(st, p, u, o);
    NextVote(Abs(st), p, u, o);
    if VoteStep(st, p, u, o).1 == 0 {
      VoteAccepted(st, p, u, o);
    }
  }

  lemma ListStep(st: Store, st': Store)
    requires Inv(st) && (POLLS_KEY in st' ==> st'[POLLS_KEY].Members?)
    requires forall m :: m in SMembers(st', POLLS_KEY) ==> Canonical(m)
    requires forall k :: k != POLLS_KEY ==> (k in st <==> k in st') && (k in st && k in st' ==> st[k] == st'[k])
    ensures Inv(st') && Abs(st') == Abs(st)
  {
    forall q ensures View(st', q) == View(st, q) && PollOk(st', q) && Lookup(Abs(st'), q) == Lookup(Abs(st), q) {
      OtherKeys(q);
      assert SamePoll(st, st', q);
      assert PollOk(st, q);
      SamePollView(st, st', q);
      AbsLookup(st, q);
      AbsLookup(st', q);
    }
    StatesEqual(Abs(st'), Abs(st));
  }

  lemma SAddStep(st: Store, p: int)
    requires Inv(st)
    ensures var st' := SAdd(st, POLLS_KEY, Itoa(p));
            Inv(st') && Abs(st') == Abs(st) && SMembers(st', POLLS_KEY) == SMembers(st, POLLS_KEY) + {Itoa(p)}
  {
    ItoaRoundTrip(p);
    ListStep(st, SAdd(st, POLLS_KEY, Itoa(p)));
  }

  lemma SRemStep(st: Store, p: int)
    requires Inv(st)
    ensures var st' := SRem(st, POLLS_KEY, Itoa(p));
            Inv(st') && Abs(st') == Abs(st) && SMembers(st', POLLS_KEY) == SMembers(st, POLLS_KEY) - {Itoa(p)}
  {
    ListStep(st, SRem(st, POLLS_KEY, Itoa(p)));
  }

  /** The polls that ClearAll reaches: the listed ones. */
  ghost function Unlisted(st: Store): State {
    map p | p in Abs(st) && !Listed(st, p) :: Abs(st)[p]
  }

  lemma ScriptReaches(st: Store, p: int)
    ensures StateKey(p) in ScriptKeys(SMembers(st, POLLS_KEY), POLLS_KEY, DATA_PREFIX, STATE_PREFIX) <==> Listed(st, p)
    ensures VoteKey(p) in ScriptKeys(SMembers(st, POLLS_KEY), POLLS_KEY, DATA_PREFIX, STATE_PREFIX) <==> Listed(st, p)
  {
    var ms := SMembers(st, POLLS_KEY);
    KeysDiffer(p, p);
    forall m ensures (DATA_PREFIX + m == VoteKey(p) || STATE_PREFIX + m == StateKey(p) ==> m == Itoa(p))
             ensures DATA_PREFIX + m != StateKey(p) && STATE_PREFIX + m != VoteKey(p)
    {
      assert (DATA_PREFIX + m)[10..] == m && (STATE_PREFIX + m)[11..] == m;
      assert VoteKey(p)[10..] == Itoa(p) && StateKey(p)[11..] == Itoa(p);
      assert (DATA_PREFIX + m)[5] == 'd' && (STATE_PREFIX + m)[5] == 's' && StateKey(p)[5] == 's' && VoteKey(p)[5] == 'd';
    }
  }

  /** ClearAll removes exactly the listed polls. */
  lemma ClearAllStepRefines(st: Store)
    requires Inv(st)
    ensures Inv(ClearAllStep(st)) && Abs(ClearAllStep(st)) == Unlisted(st) && SMembers(ClearAllStep(st), POLLS_KEY) == {}
  {
    var st' := ClearAllStep(st);
    forall p ensures PollOk(st', p) && Lookup(Abs(st'), p) == Lookup(Unlisted(st), p) {
      ScriptReaches(st, p);
      AbsLookup(st, p);
      AbsLookup(st', p);
      assert PollOk(st, p);
      if !Listed(st, p) {
        assert SamePoll(st, st', p);
        SamePollView(st, st', p);
      }
    }
    StatesEqual(Abs(st'), Unlisted(st));
  }

  /** Exact condition: ClearAll acts as the contract demands iff every poll with a state key is listed. */
  lemma ClearAllCompleteIff(st: Store)
    requires Inv(st)
    ensures Abs(ClearAllStep(st)) == Next(Abs(st), ClearAll) <==> AllListed(st)
  {
    ClearAllStepRefines(st);
    NoneUnlisted(st);
  }

  ghost predicate AllListed(st: Store) {
    forall p :: StateSet(st, p) ==> Listed(st, p)
  }

  lemma UnlistedPoll(st: Store, p: int)
    ensures p in Unlisted(st) <==> StateSet(st, p) && !Listed(st, p)
  {
    AbsLookup(st, p);
  }

  lemma NoneUnlisted(st: Store)
    ensures Unlisted(st) == Next(Abs(st), ClearAll) <==> AllListed(st)
  {
    NoneLeft(st);
    if !AllListed(st) {
      SomeLeft(st);
    }
  }

  lemma NoneLeft(st: Store)
    ensures AllListed(st) ==> Unlisted(st) == map[]
  {
  }

  lemma SomeLeft(st: Store)
    requires !AllListed(st)
    ensures Unlisted(st) != map[]
  {
    var p :| StateSet(st, p) && !Listed(st, p);
    UnlistedPoll(st, p);
    assert p in Unlisted(st);
  }

  lemma ListedSet(st: Store, st': Store, p: int)
    ensures SMembers(st', POLLS_KEY) == SMembers(st, POLLS_KEY) + {Itoa(p)} ==>
              forall q :: Listed(st', q) <==> Listed(st, q) || q == p
    ensures SMembers(st', POLLS_KEY) == SMembers(st, POLLS_KEY) - {Itoa(p)} ==>
              forall q :: Listed(st', q) <==> Listed(st, q) && q != p
  {
    forall q ensures Itoa(q) == Itoa(p) <==> q == p {
      KeysDiffer(q, p);
    }
  }

  /** Run one at a time, the operations keep the list equal to the polls with a state key. */
  ghost predicate Exact(st: Store) {
    Inv(st) && forall p :: Listed(st, p) <==> p in Abs(st)
  }

  lemma StartBoth(st: Store, p: int)
    requires Exact(st)
    ensures var st' := SAdd(SetNx(st, StateKey(p), "1"), POLLS_KEY, Itoa(p));
            Exact(st') && Abs(st') == Next(Abs(st), Start(p))
  {
    var mid := SetNx(st, StateKey(p), "1");
    var st' := SAdd(mid, POLLS_KEY, Itoa(p));
    StartStep(st, p);
    SAddStep(mid, p);
    ListedSet(mid, st', p);
    forall q ensures Listed(st', q) <==> q in Abs(st') {
      KnownAfter(Abs(st), Start(p), q);
      assert Listed(mid, q) <==> Listed(st, q);
    }
  }

  lemma ClearBoth(st: Store, p: int)
    requires Exact(st)
    ensures var st' := SRem(Del(st, {VoteKey(p), StateKey(p)}), POLLS_KEY, Itoa(p));
            Exact(st') && Abs(st') == Next(Abs(st), Clear(p))
  {
    var mid := Del(st, {VoteKey(p), StateKey(p)});
    var st' := SRem(mid, POLLS_KEY, Itoa(p));
    ClearStep(st, p);
    SRemStep(mid, p);
    ListedSet(mid, st', p);
    forall q ensures Listed(st', q) <==> q in Abs(st') {
      KnownAfter(Abs(st), Clear(p), q);
      assert Listed(mid, q) <==> Listed(st, q);
    }
  }

  /** A vote or a stop changes neither the list nor which polls are known. */
  lemma ExactKept(st: Store, st': Store, op: Op)
    requires Exact(st) && Inv(st') && SameList(st, st') && (op.Vote? || op.Stop?) && Abs(st') == Next(Abs(st), op)
    ensures Exact(st')
  {
    forall q ensures Listed(st', q) <==> q in Abs(st') {
      KnownAfter(Abs(st), op, q);
      assert Listed(st', q) <==> Listed(st, q);
    }
  }

  lemma ExactCleared(st: Store)
    requires Exact(st)
    ensures Exact(ClearAllStep(st)) && Abs(ClearAllStep(st)) == map[]
  {
    ClearAllStepRefines(st);
    assert Unlisted(st) == map[];
  }

  class Backend {
    var store: Store

    ghost predicate Valid()
      reads this
    {
      Exact(store)
    }

    constructor ()
      ensures Valid() && Abs(store) == map[]
    {
      store := map[];
      new;
      assert forall p :: PollOk(store, p);
      assert Abs(store) == map[];
    }

    method Start(p: int)
      requires Valid()
      modifies this
      ensures Valid() && Abs(store) == Next(old(Abs(store)), Op.Start(p))
    {
      StartBoth(store, p);
      store := SetNx(store, StateKey(p), "1");
      store := SAdd(store, POLLS_KEY, Itoa(p));
    }

    method Vote(p: int, u: int, vote: Object) returns (r: Reply)
      requires Valid()
      modifies this
      ensures Valid() && Abs(store) == Next(old(Abs(store)), Op.Vote(p, u, vote))
      ensures r == Answer(old(Abs(store)), Op.Vote(p, u, vote))
    {
      VoteAnswer(store, p, u, vote);
      VoteStepRefines(store, p, u, vote);
      VoteKeepsInv(store, p, u, vote);
      VoteFrame(store, p, u, vote);
      var (st, code) := VoteStep(store, p, u, vote);
      ExactKept(store, st, Op.Vote(p, u, vote));
      store := st;
      r := ReplyOfCode(code);
    }

    method Stop(p: int) returns (found: bool, votes: seq<Object>, users: seq<int>)
      requires Valid()
      modifies this
      ensures Valid() && Abs(store) == Next(old(Abs(store)), Op.Stop(p))
      ensures StopReply(found, votes, users) == Answer(old(Abs(store)), Op.Stop(p))
    {
      StopStep(store, p);
      StopAnswer(store, p);
      ExactKept(store, SetXx(store, StateKey(p), "2"), Op.Stop(p));
      if StateKey(p) !in store {
        return false, [], [];
      }
      store := SetXx(store, StateKey(p), "2");
      found := true;
      var parsed;
      parsed, users, votes := Collect(HGetAll(store, VoteKey(p)));
    }

    /** Parses and collects a vote hash; `ok` is false if a field is no user id. */
    static method Collect(h: map<string, Object>) returns (ok: bool, users: seq<int>, votes: seq<Object>)
      ensures (forall f :: f in h ==> Canonical(f)) ==>
                ok && users == SortedSet(Decoded(h).Keys) && multiset(votes) == Values(Decoded(h))
    {
      ghost var m := Decoded(h);
      ghost var canonical := forall f :: f in h ==> Canonical(f);
      ok, users, votes := true, [], [];
      var left := h.Keys;
      if canonical { AllFields(h); }
      while left != {}
        invariant left <= h.Keys && (canonical ==> Ids(left) <= m.Keys)
        invariant canonical ==> Elements(users) == m.Keys - Ids(left) && Distinct(users)
        invariant canonical ==> multiset(votes) + ValuesOn(m, Ids(left)) == Values(m)
        decreases left
      {
        var f := AnyOf(left);
        var id := Atoi(f);
        if id.None? {
          return false, [], [];
        }
        if canonical {
          NextField(h, left, f);
          ValuesOnSplit(m, Ids(left), id.value);
          Snoc(users, id.value);
        }
        users := users + [id.value];
        votes := votes + [h[f]];
        left := left - {f};
      }
      if canonical {
        assert Ids(left) == {};
        assert Elements(users) == m.Keys;
        SortIntsSorts(users);
      }
      users := SortInts(users);
    }

    /** Lists the polls in the list, also those without votes, with every vote in clear. */
    method LiveVotes() returns (live: LiveTable)
      requires Valid()
      ensures live.Keys == Abs(store).Keys
      ensures forall p :: ListedVoters(live, p) == VotersOf(Abs(store), p)
      ensures forall p :: p in live ==> live[p] == InClear(Decoded(DataOf(store, p)))
    {
      live := map[];
      var members := SMembers(store, POLLS_KEY);
      var left := members;
      while left != {}
        invariant left <= members
        invariant live.Keys == Ids(members) - Ids(left)
        invariant forall p :: p in live ==> live[p] == InClear(Decoded(DataOf(store, p)))
        decreases left
      {
        var m := AnyOf(left);
        assert Canonical(m);
        var id := Atoi(m).value;
        assert PollOk(store, id);
        NextId(members, left, m);
        var parsed, row := ParseVotes(HGetAll(store, VoteKey(id)));
        live := live[id := row];
        left := left - {m};
      }
      ListedPolls(store, live);
    }

    /** The votes of one poll by user id. */
    static method ParseVotes(h: map<string, Object>) returns (ok: bool, row: map<int, Option<Object>>)
      ensures (forall f :: f in h ==> Canonical(f)) ==> ok && row == InClear(Decoded(h))
    {
      ghost var m := Decoded(h);
      ghost var canonical := forall f :: f in h ==> Canonical(f);
      ok, row := true, map[];
      var left := h.Keys;
      AllFields(h);
      while left != {}
        invariant left <= h.Keys
        invariant canonical ==> row.Keys == m.Keys - Ids(left)
        invariant canonical ==> forall u :: u in row ==> row[u] == Some(m[u])
        decreases left
      {
        var f := AnyOf(left);
        var id := Atoi(f);
        if id.None? {
          return false, map[];
        }
        if canonical {
          NextField(h, left, f);
        }
        row := row[id.value := Some(h[f])];
        left := left - {f};
      }
      assert Ids(left) == {};
    }

    method Clear(p: int)
      requires Valid()
      modifies this
      ensures Valid() && Abs(store) == Next(old(Abs(store)), Op.Clear(p))
    {
      ClearBoth(store, p);
      store := Del(store, {VoteKey(p), StateKey(p)});
      store := SRem(store, POLLS_KEY, Itoa(p));
    }

    method ClearAll()
      requires Valid()
      modifies this
      ensures Valid() && Abs(store) == Next(old(Abs(store)), Op.ClearAll)
    {
      ExactCleared(store);
      store := RunClearAllScript(store, POLLS_KEY, DATA_PREFIX, STATE_PREFIX);
    }

    /** The script's loop over the listed polls, for the two prefixes in either order. */
    static method RunClearAllScript(st: Store, pollsKey: string, prefix1: string, prefix2: string) returns (r: Store)
      ensures r == ClearAllScript(st, pollsKey, prefix1, prefix2)
      ensures r == ClearAllScript(st, pollsKey, prefix2, prefix1)
    {
      var members := SMembers(st, pollsKey);
      var left := members;
      r := st;
      while left != {}
        invariant left <= members
        invariant r == Del(st, MemberKeys(members - left, prefix1, prefix2))
        decreases left
      {
        var m := AnyOf(left);
        r := Del(r, {prefix1 + m});
        r := Del(r, {prefix2 + m});
        MemberKeysMore(members, left, m, prefix1, prefix2);
        left := left - {m};
      }
      assert members - left == members;
      r := Del(r, {pollsKey});
      assert ScriptKeys(members, pollsKey, prefix1, prefix2) == MemberKeys(members, prefix1, prefix2) + {pollsKey};
      PrefixOrderIrrelevant(st, pollsKey, prefix1, prefix2);
    }
  }

  ghost function MemberKeys(done: set<string>, prefix1: string, prefix2: string): set<string> {
    (set m | m in done :: prefix1 + m) + (set m | m in done :: prefix2 + m)
  }

  lemma MemberKeysMore(members: set<string>, left: set<string>, m: string, prefix1: string, prefix2: string)
    requires left <= members && m in left
    ensures MemberKeys(members - (left - {m}), prefix1, prefix2) ==
            MemberKeys(members - left, prefix1, prefix2) + {prefix1 + m} + {prefix2 + m}
  {
    assert members - (left - {m}) == members - left + {m};
  }

  lemma AllFields(h: map<string, Object>)
    ensures Ids(h.Keys) == Decoded(h).Keys
  {
  }

  lemma NextId(all: set<string>, left: set<string>, f: string)
    requires f in left && left <= all && Canonical(f)
    ensures var id := Atoi(f).value; id in Ids(left) && id in Ids(all) && Ids(left - {f}) == Ids(left) - {id}
  {
  }

  lemma NextField(h: map<string, Object>, left: set<string>, f: string)
    requires f in left && left <= h.Keys && Canonical(f)
    ensures var u := Atoi(f).value;
            && u in Ids(left) && Ids(left - {f}) == Ids(left) - {u}
            && u in Decoded(h) && Decoded(h)[u] == h[f]
  {
  }

  ghost function InClear(votes: map<int, Object>): map<int, Option<Object>> {
    map u | u in votes :: Some(votes[u])
  }

  lemma ListedPolls(st: Store, live: LiveTable)
    requires Exact(st) && live.Keys == Ids(SMembers(st, POLLS_KEY))
    requires forall p :: p in live ==> live[p] == InClear(Decoded(DataOf(st, p)))
    ensures live.Keys == Abs(st).Keys
    ensures forall p :: ListedVoters(live, p) == VotersOf(Abs(st), p)
  {
    forall p ensures (p in live <==> p in Abs(st)) && ListedVoters(live, p) == VotersOf(Abs(st), p) {
      IdsAre(SMembers(st, POLLS_KEY), p);
      AbsLookup(st, p);
    }
  }
}
