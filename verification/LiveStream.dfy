/** The stream of live votes: each second the handler sends what is new against its memory. */
module LiveStream {
  import opened Contract

  type Table = map<int, Option<Object>>

  /** The inner maps of a snapshot can be nil; a nil map reads as empty and is sent as null. */
  datatype Cell = NilMap | Votes(table: Table)

  type Snapshot = map<int, Cell>

  function TableOf(c: Cell): Table {
    if c.NilMap? then map[] else c.table
  }

  /********** One tick, as functions **********/

  /** The entries of `now` for users that `known` does not have. */
  function NewUsers(known: Table, now: Table): Table {
    map u | u in now && u !in known :: now[u]
  }

  function MergedCell(mem: Cell, snap: Cell): Cell {
    if NewUsers(TableOf(mem), TableOf(snap)) == map[] then mem
    else Votes(TableOf(mem) + NewUsers(TableOf(mem), TableOf(snap)))
  }

  /** The memory after a tick. */
  function Remembered(mem: Snapshot, snap: Snapshot): Snapshot {
    map p | p in snap :: if p in mem then MergedCell(mem[p], snap[p]) else snap[p]
  }

  predicate Differs(mem: Snapshot, snap: Snapshot, p: int) {
    if p in mem && p in snap then NewUsers(TableOf(mem[p]), TableOf(snap[p])) != map[]
    else p in mem || p in snap
  }

  /** What is sent: new polls as they are, new users of known polls, null for polls that are gone. */
  function DiffOf(mem: Snapshot, snap: Snapshot): Snapshot {
    map p | p in mem.Keys + snap.Keys && Differs(mem, snap, p) ::
      if p !in snap then NilMap
      else if p !in mem then snap[p]
      else Votes(NewUsers(TableOf(mem[p]), TableOf(snap[p])))
  }

  /** A write into a nil inner map of the memory. */
  ghost predicate Panics(mem: Snapshot, snap: Snapshot) {
    exists p :: p in mem && p in snap && mem[p].NilMap? && TableOf(snap[p]) != map[]
  }

  /********** The handler **********/

  class Handler {
    var memory: Option<Snapshot>
    var firstData: bool

    constructor ()
      ensures memory == None && firstData
    {
      memory := None;
      firstData := true;
    }

    /** One round of the loop; the handler crashes exactly when a nil inner map would be written. */
    method Tick(snap: Snapshot) returns (diff: Snapshot, sent: bool, panicked: bool)
      modifies this
      ensures old(memory).None? ==> !panicked && diff == snap && memory == Some(snap)
      ensures old(memory).Some? ==> (panicked <==> Panics(old(memory).value, snap))
      ensures old(memory).Some? && !panicked ==>
                diff == DiffOf(old(memory).value, snap) && memory == Some(Remembered(old(memory).value, snap))
      ensures !panicked ==> (firstData <==> old(firstData) && !sent)
      ensures !panicked ==> (sent <==> old(firstData) || diff != map[])
    {
      sent, panicked := false, false;
      if memory.None? {
        memory := Some(snap);
        diff := snap;
      } else {
        var mem := memory.value;
        diff, mem, panicked := AddNew(mem, snap);
        if panicked {
          return;
        }
        ghost var diff0, mem0 := diff, mem;
        diff, mem := DropGone(diff, mem, snap);
        TickParts(memory.value, snap, diff0, mem0);
        memory := Some(mem);
      }
      if firstData || |diff| > 0 {
        firstData := false;
        sent := true;
      }
    }

    /** The loop over the new snapshot. */
    static method AddNew(mem: Snapshot, snap: Snapshot) returns (diff: Snapshot, mem': Snapshot, panicked: bool)
      ensures panicked <==> Panics(mem, snap)
      ensures !panicked ==> mem' == AfterAdding(mem, snap, snap.Keys) && diff == DiffAdding(mem, snap, snap.Keys)
    {
      diff, mem', panicked := map[], mem, false;
      var left := snap.Keys;
      while left != {}
        invariant left <= snap.Keys
        invariant forall p :: p in snap && p !in left && p in mem && mem[p].NilMap? ==> TableOf(snap[p]) == map[]
        invariant mem' == AfterAdding(mem, snap, snap.Keys - left)
        invariant diff == DiffAdding(mem, snap, snap.Keys - left)
        decreases left
      {
        var p := AnyOf(left);
        ghost var done := snap.Keys - left;
        if p !in mem {
          mem' := mem'[p := snap[p]];
          diff := diff[p := snap[p]];
        } else {
          var added := NewUsers(TableOf(mem[p]), TableOf(snap[p]));
          if added != map[] {
            if mem[p].NilMap? {
              NewUsersNil(TableOf(snap[p]));
              panicked := true;
              return;
            }
            mem' := mem'[p := Votes(mem[p].table + added)];
            diff := diff[p := Votes(added)];
          } else if mem[p].NilMap? {
            NewUsersNil(TableOf(snap[p]));
          }
        }
        AddingStep(mem, snap, done, p);
        left := left - {p};
        assert snap.Keys - left == done + {p};
      }
      assert snap.Keys - left == snap.Keys;
    }

    /** The loop over the memory that removes polls which are gone. */
    static method DropGone(diff: Snapshot, mem: Snapshot, snap: Snapshot) returns (diff': Snapshot, mem': Snapshot)
      ensures mem' == (map p | p in mem && p in snap :: mem[p])
      ensures diff' == diff + (map p | p in mem && p !in snap :: NilMap)
    {
      diff', mem' := diff, mem;
      var left := mem.Keys;
      while left != {}
        invariant left <= mem.Keys
        invariant mem' == Kept(mem, snap, left) && diff' == diff + Gone(mem, snap, left)
        decreases left
      {
        var p := AnyOf(left);
        GoneStep(diff, mem, snap, left, p);
        if p !in snap {
          mem' := mem' - {p};
          diff' := diff'[p := NilMap];
        }
        left := left - {p};
      }
    }
  }

  /** The memory and the nulls while the polls of `left` are still to be looked at. */
  function Kept(mem: Snapshot, snap: Snapshot, left: set<int>): Snapshot {
    map p | p in mem && (p in left || p in snap) :: mem[p]
  }

  function Gone(mem: Snapshot, snap: Snapshot, left: set<int>): Snapshot {
    map p | p in mem && p !in left && p !in snap :: NilMap
  }

  lemma GoneStep(diff: Snapshot, mem: Snapshot, snap: Snapshot, left: set<int>, p: int)
    requires p in left && left <= mem.Keys
    ensures p in snap ==> Kept(mem, snap, left - {p}) == Kept(mem, snap, left)
                          && Gone(mem, snap, left - {p}) == Gone(mem, snap, left)
    ensures p !in snap ==> Kept(mem, snap, left - {p}) == Kept(mem, snap, left) - {p}
                           && diff + Gone(mem, snap, left - {p}) == (diff + Gone(mem, snap, left))[p := NilMap]
  {
  }

  lemma NewUsersNil(t: Table)
    ensures NewUsers(map[], t) == t
  {
  }

  /** The memory after the polls of `done` were added. */
  function AfterAdding(mem: Snapshot, snap: Snapshot, done: set<int>): Snapshot {
    map p | p in mem.Keys + snap.Keys && (p in mem || p in done) ::
      if p !in mem then snap[p] else if p in done && p in snap then MergedCell(mem[p], snap[p]) else mem[p]
  }

  function DiffAdding(mem: Snapshot, snap: Snapshot, done: set<int>): Snapshot {
    map p | p in snap && p in done && Differs(mem, snap, p) ::
      if p !in mem then snap[p] else Votes(NewUsers(TableOf(mem[p]), TableOf(snap[p])))
  }

  lemma AddingStep(mem: Snapshot, snap: Snapshot, done: set<int>, p: int)
    requires p in snap && p !in done
    ensures p !in mem ==>
              && AfterAdding(mem, snap, done + {p}) == AfterAdding(mem, snap, done)[p := snap[p]]
              && DiffAdding(mem, snap, done + {p}) == DiffAdding(mem, snap, done)[p := snap[p]]
    ensures p in mem ==>
              var added := NewUsers(TableOf(mem[p]), TableOf(snap[p]));
              && (added == map[] ==>
                    && AfterAdding(mem, snap, done + {p}) == AfterAdding(mem, snap, done)
                    && DiffAdding(mem, snap, done + {p}) == DiffAdding(mem, snap, done))
              && (added != map[] ==>
                    && AfterAdding(mem, snap, done + {p}) == AfterAdding(mem, snap, done)[p := Votes(TableOf(mem[p]) + added)]
                    && DiffAdding(mem, snap, done + {p}) == DiffAdding(mem, snap, done)[p := Votes(added)])
  {
  }

  lemma TickParts(mem: Snapshot, snap: Snapshot, diff: Snapshot, mem': Snapshot)
    requires mem' == AfterAdding(mem, snap, snap.Keys) && diff == DiffAdding(mem, snap, snap.Keys)
    ensures (map p | p in mem' && p in snap :: mem'[p]) == Remembered(mem, snap)
    ensures diff + (map p | p in mem' && p !in snap :: NilMap) == DiffOf(mem, snap)
  {
  }

  /********** Whole streams **********/

  ghost predicate NoNil(snap: Snapshot) {
    forall p :: p in snap ==> snap[p].Votes?
  }

  ghost predicate AllNoNil(ss: seq<Snapshot>) {
    forall i :: 0 <= i < |ss| ==> NoNil(ss[i])
  }

  /** The handler's memory after the snapshots of `ss`. */
  function MemoryAfter(ss: seq<Snapshot>): Snapshot
    requires ss != []
  {
    if |ss| == 1 then ss[0] else Remembered(MemoryAfter(ss[..|ss| - 1]), ss[|ss| - 1])
  }

  /** What is sent for the last snapshot of `ss`. */
  function LastDiff(ss: seq<Snapshot>): Snapshot
    requires ss != []
  {
    if |ss| == 1 then ss[0] else DiffOf(MemoryAfter(ss[..|ss| - 1]), ss[|ss| - 1])
  }

  /** A client: null removes a poll, anything else is merged into what it knows. */
  function Folded(view: map<int, Table>, diff: Snapshot): map<int, Table> {
    map p | p in view.Keys + diff.Keys && (p !in diff || diff[p].Votes?) ::
      if p !in diff then view[p] else if p in view then view[p] + diff[p].table else diff[p].table
  }

  /** What the client knows after the stream for `ss`; ticks without a diff send nothing. */
  function ClientView(ss: seq<Snapshot>): map<int, Table> {
    if ss == [] then map[] else Folded(ClientView(ss[..|ss| - 1]), LastDiff(ss))
  }

  ghost function TablesOf(snap: Snapshot): map<int, Table> {
    map p | p in snap :: TableOf(snap[p])
  }

  /** A tick that has nothing to send leaves the client as it is, so leaving it out loses nothing. */
  lemma EmptyDiffIsSilent(view: map<int, Table>)
    ensures Folded(view, map[]) == view
  {
  }

  /** The polls that are new in `snap` come with a map, even if it is empty. */
  ghost predicate Whole(mem: Snapshot, snap: Snapshot) {
    forall p :: p in snap && p !in mem ==> snap[p].Votes?
  }

  function Latest(ss: seq<Snapshot>): Snapshot {
    if ss == [] then map[] else ss[|ss| - 1]
  }

  /** Every poll comes with a map when it appears; later its map may be nil. */
  ghost predicate AppearWhole(ss: seq<Snapshot>) {
    ss == [] || (AppearWhole(ss[..|ss| - 1]) && Whole(Latest(ss[..|ss| - 1]), ss[|ss| - 1]))
  }

  lemma {:induction false} PrefixAppearWhole(ss: seq<Snapshot>, n: nat)
    requires AppearWhole(ss) && n <= |ss|
    ensures AppearWhole(ss[..n])
  {
    if n == |ss| {
      assert ss[..n] == ss;
    } else {
      PrefixAppearWhole(ss[..|ss| - 1], n);
      assert ss[..|ss| - 1][..n] == ss[..n];
    }
  }

  lemma {:induction false} NoNilAppearWhole(ss: seq<Snapshot>)
    requires AllNoNil(ss)
    ensures AppearWhole(ss)
  {
    if ss != [] {
      NoNilAppearWhole(ss[..|ss| - 1]);
    }
  }

  lemma {:induction false} MemoryShape(ss: seq<Snapshot>)
    requires ss != []
    ensures MemoryAfter(ss).Keys == ss[|ss| - 1].Keys
    ensures AppearWhole(ss) ==> NoNil(MemoryAfter(ss))
  {
    if |ss| > 1 {
      MemoryShape(ss[..|ss| - 1]);
    }
  }

  /** Then the handler never crashes. */
  lemma NoPanic(ss: seq<Snapshot>, i: nat)
    requires AppearWhole(ss) && 0 < i < |ss|
    ensures !Panics(MemoryAfter(ss[..i]), ss[i])
  {
    PrefixAppearWhole(ss, i);
    MemoryShape(ss[..i]);
  }

  /** The handler gets through all rounds of the stream. */
  ghost predicate NeverCrashes(ss: seq<Snapshot>) {
    |ss| <= 1 || (NeverCrashes(ss[..|ss| - 1]) && !Panics(MemoryAfter(ss[..|ss| - 1]), ss[|ss| - 1]))
  }

  /** The poll appeared with a nil map and is listed ever since. */
  ghost predicate AppearedNil(ss: seq<Snapshot>, p: int) {
    ss != [] && p in ss[|ss| - 1] &&
    if p in Latest(ss[..|ss| - 1]) then AppearedNil(ss[..|ss| - 1], p) else ss[|ss| - 1][p].NilMap?
  }

  /** No such poll has users in the next snapshot. */
  ghost predicate StillEmpty(front: seq<Snapshot>, snap: Snapshot) {
    forall p :: AppearedNil(front, p) && p in snap ==> TableOf(snap[p]) == map[]
  }

  /** No such poll gets users as long as it is listed. */
  ghost predicate NilStaysEmpty(ss: seq<Snapshot>) {
    ss == [] || (NilStaysEmpty(ss[..|ss| - 1]) && StillEmpty(ss[..|ss| - 1], ss[|ss| - 1]))
  }

  lemma {:induction false} NilMemory(ss: seq<Snapshot>, p: int)
    requires ss != [] && NilStaysEmpty(ss)
    ensures p in MemoryAfter(ss) && MemoryAfter(ss)[p].NilMap? <==> AppearedNil(ss, p)
  {
    MemoryShape(ss);
    if |ss| > 1 {
      var front, last := ss[..|ss| - 1], ss[|ss| - 1];
      MemoryShape(front);
      NilMemory(front, p);
      if p in last && p in MemoryAfter(front) {
        NewUsersNil(TableOf(last[p]));
      }
    }
  }

  lemma RoundCrashesIff(front: seq<Snapshot>, snap: Snapshot)
    requires front != [] && NilStaysEmpty(front)
    ensures Panics(MemoryAfter(front), snap) <==> !StillEmpty(front, snap)
  {
    var mem := MemoryAfter(front);
    if Panics(mem, snap) {
      var p :| p in mem && p in snap && mem[p].NilMap? && TableOf(snap[p]) != map[];
      NilMemory(front, p);
    }
    if p :| AppearedNil(front, p) && p in snap && TableOf(snap[p]) != map[] {
      NilMemory(front, p);
    }
  }

  /** Exact condition for every stream: no round crashes iff no poll that appeared with a nil map gets
      a user while it stays listed. */
  lemma {:induction false} NeverCrashesIff(ss: seq<Snapshot>)
    ensures NeverCrashes(ss) <==> NilStaysEmpty(ss)
  {
    if |ss| == 1 {
      assert ss[..0] == [];
    } else if |ss| > 1 {
      var front := ss[..|ss| - 1];
      NeverCrashesIff(front);
      if NilStaysEmpty(front) {
        RoundCrashesIff(front, ss[|ss| - 1]);
      }
    }
  }

  lemma FoldTick(mem: Snapshot, snap: Snapshot)
    requires NoNil(mem)
    ensures Folded(TablesOf(mem), DiffOf(mem, snap)) == TablesOf(Remembered(mem, snap)) <==> Whole(mem, snap)
  {
    var a, b := Folded(TablesOf(mem), DiffOf(mem, snap)), TablesOf(Remembered(mem, snap));
    if Whole(mem, snap) {
      forall p ensures (p in a <==> p in b) && (p in a ==> a[p] == b[p]) {
        FoldTickAt(mem, snap, p);
      }
    } else {
      var p :| p in snap && p !in mem && snap[p].NilMap?;
      FoldTickAt(mem, snap, p);
    }
  }

  lemma FoldTickAt(mem: Snapshot, snap: Snapshot, p: int)
    requires NoNil(mem)
    ensures var a, b := Folded(TablesOf(mem), DiffOf(mem, snap)), TablesOf(Remembered(mem, snap));
            ((p in a <==> p in b) && (p in a ==> a[p] == b[p])) <==> (p in snap && p !in mem ==> snap[p].Votes?)
  {
  }

  lemma FoldFirst(snap: Snapshot)
    ensures Folded(map[], snap) == TablesOf(snap) <==> Whole(map[], snap)
  {
    var none: Snapshot := map[];
    var view, tables := Folded(map[], snap), TablesOf(snap);
    assert forall p :: p in view <==> p in snap && snap[p].Votes?;
    assert forall p :: p in view ==> view[p] == tables[p];
    if Whole(none, snap) {
      forall p | p in snap ensures p in view {
        assert p !in none;
      }
    } else {
      var p :| p in snap && snap[p].NilMap?;
      assert p in tables && p !in view;
    }
  }

  /** Main theorem: folding what was sent always gives the handler's memory, whose polls are those of
      the latest snapshot. */
  lemma {:induction false} FoldIsMemory(ss: seq<Snapshot>)
    requires ss != [] && AppearWhole(ss)
    ensures ClientView(ss) == TablesOf(MemoryAfter(ss))
    ensures ClientView(ss).Keys == ss[|ss| - 1].Keys
  {
    MemoryShape(ss);
    if |ss| == 1 {
      assert ClientView(ss[..0]) == map[];
      FoldFirst(ss[0]);
    } else {
      var front := ss[..|ss| - 1];
      FoldIsMemory(front);
      MemoryShape(front);
      FoldTick(MemoryAfter(front), ss[|ss| - 1]);
    }
  }

  /** The client has the handler's memory after every round of the stream. */
  ghost predicate AlwaysFaithful(ss: seq<Snapshot>) {
    ss == [] || (AlwaysFaithful(ss[..|ss| - 1]) && ClientView(ss) == TablesOf(MemoryAfter(ss)))
  }

  /** Exact condition: the stream is faithful at every round iff no poll appears with a nil map, which
      a client cannot tell from a poll that is gone. */
  lemma {:induction false} FaithfulIff(ss: seq<Snapshot>)
    ensures AlwaysFaithful(ss) <==> AppearWhole(ss)
  {
    if |ss| == 1 {
      assert ClientView(ss[..0]) == map[];
      FoldFirst(ss[0]);
    } else if |ss| > 1 {
      var front := ss[..|ss| - 1];
      FaithfulIff(front);
      MemoryShape(front);
      if AppearWhole(front) {
        FoldTick(MemoryAfter(front), ss[|ss| - 1]);
      }
    }
  }

  /** Server and client together: the client that folds each sent diff ends with the handler's memory. */
  method Stream(ss: seq<Snapshot>) returns (view: map<int, Table>)
    requires ss != [] && AppearWhole(ss)
    ensures view == ClientView(ss) && view == TablesOf(MemoryAfter(ss))
  {
    var h := new Handler();
    view := map[];
    for i := 0 to |ss|
      invariant fresh(h) && (h.firstData <==> i == 0)
      invariant h.memory == if i == 0 then None else Some(MemoryAfter(ss[..i]))
      invariant view == ClientView(ss[..i])
    {
      assert ss[..i + 1][..i] == ss[..i];
      if i > 0 {
        NoPanic(ss, i);
      }
      var diff, sent, panicked := h.Tick(ss[i]);
      assert diff == LastDiff(ss[..i + 1]);
      EmptyDiffIsSilent(view);
      if sent {
        view := Folded(view, diff);
      }
    }
    assert ss[..|ss|] == ss;
    FoldIsMemory(ss);
  }

  /** The entries of `a` are still there in `b`. */
  ghost predicate Within(a: Table, b: Table) {
    forall u :: u in a ==> u in b && b[u] == a[u]
  }

  ghost predicate Grows(mem: Snapshot, snap: Snapshot) {
    forall p :: p in mem && p in snap ==> Within(TableOf(mem[p]), TableOf(snap[p]))
  }

  /** Exact condition: a tick brings the memory level with the snapshot iff no surviving poll has lost
      or changed an entry. */
  lemma LevelIff(mem: Snapshot, snap: Snapshot)
    requires NoNil(mem) && NoNil(snap)
    ensures Remembered(mem, snap) == snap <==> Grows(mem, snap)
  {
    if Remembered(mem, snap) == snap {
      forall p | p in mem && p in snap ensures Within(TableOf(mem[p]), TableOf(snap[p])) {
        assert MergedCell(mem[p], snap[p]) == snap[p];
      }
    }
    if Grows(mem, snap) {
      forall p | p in snap ensures Remembered(mem, snap)[p] == snap[p] {
        if p in mem {
          MergedGrown(mem[p].table, snap[p].table);
        }
      }
    }
  }

  lemma MergedGrown(a: Table, b: Table)
    requires Within(a, b)
    ensures MergedCell(Votes(a), Votes(b)) == Votes(b)
  {
    var c := a + NewUsers(a, b);
    assert forall u :: u in a ==> u in b;
    assert forall u :: u in c <==> u in b;
    assert forall u :: u in b ==> c[u] == b[u];
    assert c == b;
  }

  /** If polls only gain users while they live, the client always knows the latest snapshot. */
  lemma {:induction false} GrowingStreamExact(ss: seq<Snapshot>)
    requires ss != [] && AllNoNil(ss)
    requires forall i :: 0 < i < |ss| ==> Grows(ss[i - 1], ss[i])
    ensures ClientView(ss) == TablesOf(ss[|ss| - 1])
    ensures MemoryAfter(ss) == ss[|ss| - 1]
  {
    NoNilAppearWhole(ss);
    FoldIsMemory(ss);
    if |ss| > 1 {
      var front := ss[..|ss| - 1];
      GrowingStreamExact(front);
      LevelIff(ss[|ss| - 2], ss[|ss| - 1]);
    }
  }

  /** Once known, a user stays known as long as the poll stays. */
  lemma {:induction false} KnownStays(ss: seq<Snapshot>, i: nat, p: int, u: int)
    requires i < |ss|
    requires forall k :: i <= k < |ss| ==> p in ss[k]
    requires p in MemoryAfter(ss[..i + 1]) && u in TableOf(MemoryAfter(ss[..i + 1])[p])
    ensures p in MemoryAfter(ss) && u in TableOf(MemoryAfter(ss)[p])
    ensures TableOf(MemoryAfter(ss)[p])[u] == TableOf(MemoryAfter(ss[..i + 1])[p])[u]
    decreases |ss|
  {
    if i + 1 == |ss| {
      assert ss[..i + 1] == ss;
    } else {
      var front := ss[..|ss| - 1];
      assert front[..i + 1] == ss[..i + 1];
      KnownStays(front, i, p, u);
    }
  }

  ghost predicate Sends(ss: seq<Snapshot>, i: nat, p: int, u: int)
    requires i < |ss|
  {
    var d := LastDiff(ss[..i + 1]);
    p in d && u in TableOf(d[p])
  }

  lemma SentIsKnown(ss: seq<Snapshot>, p: int, u: int)
    requires ss != []
    requires p in LastDiff(ss) && u in TableOf(LastDiff(ss)[p])
    ensures p in MemoryAfter(ss) && u in TableOf(MemoryAfter(ss)[p]) && p in ss[|ss| - 1]
    ensures |ss| > 1 ==> !(p in MemoryAfter(ss[..|ss| - 1]) && u in TableOf(MemoryAfter(ss[..|ss| - 1])[p]))
  {
  }

  /** A user is sent at most once while a poll lives: between two sendings the poll was gone. */
  lemma SentOncePerLifetime(ss: seq<Snapshot>, i: nat, j: nat, p: int, u: int)
    requires i < j < |ss| && Sends(ss, i, p, u) && Sends(ss, j, p, u)
    ensures exists k :: i < k < j && p !in ss[k]
  {
    var before := ss[..j];
    assert ss[..j + 1][..j] == before && before[..i + 1] == ss[..i + 1];
    SentIsKnown(ss[..i + 1], p, u);
    SentIsKnown(ss[..j + 1], p, u);
    if forall k :: i < k < j ==> p in ss[k] {
      KnownStays(before, i, p, u);
      assert false;
    }
  }

  /** The diff takes the poll back: null. */
  predicate Retracts(diff: Snapshot, p: int) {
    p in diff && diff[p].NilMap?
  }

  /** Exact condition: a round takes a remembered poll back iff the snapshot does not list it; else all
      that was remembered of it stays, even if the snapshot lists fewer users or none. */
  lemma RetractedIff(mem: Snapshot, snap: Snapshot, p: int)
    requires p in mem
    ensures Retracts(DiffOf(mem, snap), p) <==> p !in snap
    ensures p in Remembered(mem, snap) <==> p in snap
    ensures p in snap ==> Within(TableOf(mem[p]), TableOf(Remembered(mem, snap)[p]))
  {
  }
}
