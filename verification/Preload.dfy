/** The keys that `preload` fetches when a poll starts, and whether they suffice for the votes. */
module Preload {
  import opened Contract
  import opened Ballot
  import opened Entitlement

  /** The meeting users of the entitled groups, group by group. */
  function MembersOf(ds: Datastore, groups: seq<int>): seq<int> {
    if groups == [] then []
    else MembersOf(ds, groups[..|groups| - 1]) + ds.groupMembers(groups[|groups| - 1])
  }

  /** The meeting users to whom these have delegated their votes. */
  function DelegatesOf(ds: Datastore, mus: seq<int>): seq<int> {
    if mus == [] then [] else
      var to := ds.muDelegatedTo(mus[|mus| - 1]);
      DelegatesOf(ds, mus[..|mus| - 1]) + if to.Some? then [to.value] else []
  }

  /********** Which keys are warm, said key by key **********/

  ghost predicate Member(ds: Datastore, poll: PollConfig, mu: int) {
    exists g :: g in poll.entitledGroups && mu in ds.groupMembers(g)
  }

  ghost predicate Delegate(ds: Datastore, poll: PollConfig, mu: int) {
    exists d :: Member(ds, poll, d) && ds.muDelegatedTo(d) == Some(mu)
  }

  ghost predicate MemberUser(ds: Datastore, poll: PollConfig, u: int) {
    exists mu :: Member(ds, poll, mu) && ds.muUser(mu) == u
  }

  ghost predicate DelegateUser(ds: Datastore, poll: PollConfig, u: int) {
    exists mu :: Delegate(ds, poll, mu) && ds.muUser(mu) == u
  }

  ghost predicate Warm(ds: Datastore, poll: PollConfig, k: Key) {
    match k
    case MeetingWeightEnabled(m) => m == poll.meeting
    case MeetingDelegationEnabled(m) => m == poll.meeting
    case MeetingDelegatorForbidden(m) => m == poll.meeting
    case GroupMembers(g) => g in poll.entitledGroups
    case MuGroups(mu) => Member(ds, poll, mu)
    case MuWeight(mu) => Member(ds, poll, mu)
    case MuDelegatedTo(mu) => Member(ds, poll, mu)
    case MuUser(mu) => Member(ds, poll, mu) || Delegate(ds, poll, mu)
    case MuMeeting(mu) => Member(ds, poll, mu) || Delegate(ds, poll, mu)
    case UserWeight(u) => MemberUser(ds, poll, u)
    case UserMeetingUsers(u) => MemberUser(ds, poll, u) || DelegateUser(ds, poll, u)
    case UserPresent(u) => MemberUser(ds, poll, u) || DelegateUser(ds, poll, u)
  }

  /********** preload **********/

  lemma {:induction false} MembersOfAre(ds: Datastore, groups: seq<int>, mu: int)
    ensures mu in MembersOf(ds, groups) <==> exists g :: g in groups && mu in ds.groupMembers(g)
  {
    if groups != [] {
      var front, last := groups[..|groups| - 1], groups[|groups| - 1];
      MembersOfAre(ds, front, mu);
      assert forall g :: g in groups <==> g in front || g == last;
    }
  }

  lemma {:induction false} DelegatesOfAre(ds: Datastore, mus: seq<int>, mu: int)
    ensures mu in DelegatesOf(ds, mus) <==> exists d :: d in mus && ds.muDelegatedTo(d) == Some(mu)
  {
    if mus != [] {
      var front, last := mus[..|mus| - 1], mus[|mus| - 1];
      DelegatesOfAre(ds, front, mu);
      assert forall d :: d in mus <==> d in front || d == last;
    }
  }

  function GroupKeys(groups: seq<int>): set<Key> { set g | g in groups :: GroupMembers(g) }

  function KeysOfMember(mu: int): set<Key> {
    {MuUser(mu), MuGroups(mu), MuWeight(mu), MuDelegatedTo(mu), MuMeeting(mu)}
  }

  function KeysOfDelegate(mu: int): set<Key> { {MuUser(mu), MuMeeting(mu)} }

  function KeysOfMemberUser(u: int): set<Key> { {UserWeight(u), UserMeetingUsers(u), UserPresent(u)} }

  function KeysOfDelegateUser(u: int): set<Key> { {UserPresent(u), UserMeetingUsers(u)} }

  /** The union of the keys of all ids in a list. */
  function KeysOf(ids: seq<int>, keys: int -> set<Key>): set<Key> {
    if ids == [] then {} else KeysOf(ids[..|ids| - 1], keys) + keys(ids[|ids| - 1])
  }

  lemma {:induction false} KeysOfAre(ids: seq<int>, keys: int -> set<Key>, k: Key)
    ensures k in KeysOf(ids, keys) <==> exists x :: x in ids && k in keys(x)
  {
    if ids != [] {
      var front, last := ids[..|ids| - 1], ids[|ids| - 1];
      KeysOfAre(front, keys, k);
      assert forall x :: x in ids <==> x in front || x == last;
    }
  }

  function UsersOfMus(ds: Datastore, mus: seq<int>): (us: seq<int>)
    ensures |us| == |mus|
  {
    seq(|mus|, i requires 0 <= i < |mus| => ds.muUser(mus[i]))
  }

  /** The loops of preload, fetch by fetch, with the keys that the recorder sees. */
  method PreloadPoll(ds: Datastore, poll: PollConfig) returns (keys: set<Key>)
    ensures forall k :: k in keys <==> Warm(ds, poll, k)
  {
    var members := FetchMembers(ds, poll.entitledGroups);
    var memberKeys := Fetch(members, KeysOfMember);
    var delegates := FetchDelegates(ds, members);
    var delegateKeys := Fetch(delegates, KeysOfDelegate);
    var users, delegateUsers := UsersOfMus(ds, members), UsersOfMus(ds, delegates);
    var userKeys := Fetch(users, KeysOfMemberUser);
    var delegateUserKeys := Fetch(delegateUsers, KeysOfDelegateUser);
    keys := {MeetingWeightEnabled(poll.meeting), MeetingDelegationEnabled(poll.meeting), MeetingDelegatorForbidden(poll.meeting)}
      + GroupKeys(poll.entitledGroups) + memberKeys + delegateKeys + userKeys + delegateUserKeys;
    forall k ensures k in keys <==> Warm(ds, poll, k) {
      RoundsFetch(poll, members, delegates, users, delegateUsers, k);
      FetchedIsWarm(ds, poll, k);
    }
  }

  method FetchMembers(ds: Datastore, groups: seq<int>) returns (members: seq<int>)
    ensures members == MembersOf(ds, groups)
  {
    members := [];
    for i := 0 to |groups|
      invariant members == MembersOf(ds, groups[..i])
    {
      assert groups[..i + 1][..i] == groups[..i];
      members := members + ds.groupMembers(groups[i]);
    }
    assert groups[..|groups|] == groups;
  }

  method FetchDelegates(ds: Datastore, members: seq<int>) returns (delegates: seq<int>)
    ensures delegates == DelegatesOf(ds, members)
  {
    delegates := [];
    for i := 0 to |members|
      invariant delegates == DelegatesOf(ds, members[..i])
    {
      var to := ds.muDelegatedTo(members[i]);
      assert members[..i + 1][..i] == members[..i];
      if to.Some? {
        delegates := delegates + [to.value];
      }
    }
    assert members[..|members|] == members;
  }

  /** One round of Lazy calls followed by Execute. */
  method Fetch(ids: seq<int>, keysOf: int -> set<Key>) returns (keys: set<Key>)
    ensures keys == KeysOf(ids, keysOf)
  {
    keys := {};
    for i := 0 to |ids|
      invariant keys == KeysOf(ids[..i], keysOf)
    {
      assert ids[..i + 1][..i] == ids[..i];
      keys := keys + keysOf(ids[i]);
    }
    assert ids[..|ids|] == ids;
  }

  lemma UsersAre(ds: Datastore, mus: seq<int>, u: int)
    ensures u in UsersOfMus(ds, mus) <==> exists mu :: mu in mus && ds.muUser(mu) == u
  {
    if u in UsersOfMus(ds, mus) {
      var i :| 0 <= i < |mus| && UsersOfMus(ds, mus)[i] == u;
      assert mus[i] in mus;
    }
    if exists mu :: mu in mus && ds.muUser(mu) == u {
      var mu :| mu in mus && ds.muUser(mu) == u;
      var i :| 0 <= i < |mus| && mus[i] == mu;
      assert UsersOfMus(ds, mus)[i] == u;
    }
  }

  /** A key is fetched in one of the rounds. */
  predicate Fetched(poll: PollConfig, members: seq<int>, delegates: seq<int>, users: seq<int>, delegateUsers: seq<int>, k: Key) {
    match k
    case MeetingWeightEnabled(m) => m == poll.meeting
    case MeetingDelegationEnabled(m) => m == poll.meeting
    case MeetingDelegatorForbidden(m) => m == poll.meeting
    case GroupMembers(g) => g in poll.entitledGroups
    case MuGroups(mu) => mu in members
    case MuWeight(mu) => mu in members
    case MuDelegatedTo(mu) => mu in members
    case MuUser(mu) => mu in members || mu in delegates
    case MuMeeting(mu) => mu in members || mu in delegates
    case UserWeight(u) => u in users
    case UserMeetingUsers(u) => u in users || u in delegateUsers
    case UserPresent(u) => u in users || u in delegateUsers
  }

  lemma RoundsFetch(poll: PollConfig, members: seq<int>, delegates: seq<int>, users: seq<int>, delegateUsers: seq<int>, k: Key)
    ensures k in {MeetingWeightEnabled(poll.meeting), MeetingDelegationEnabled(poll.meeting), MeetingDelegatorForbidden(poll.meeting)}
              + GroupKeys(poll.entitledGroups) + KeysOf(members, KeysOfMember) + KeysOf(delegates, KeysOfDelegate)
              + KeysOf(users, KeysOfMemberUser) + KeysOf(delegateUsers, KeysOfDelegateUser)
            <==> Fetched(poll, members, delegates, users, delegateUsers, k)
  {
    MemberStage(members, k);
    DelegateStage(delegates, k);
    UserStage(users, k);
    DelegateUserStage(delegateUsers, k);
  }

  lemma FetchedIsWarm(ds: Datastore, poll: PollConfig, k: Key)
    ensures var members := MembersOf(ds, poll.entitledGroups);
            var delegates := DelegatesOf(ds, members);
            Fetched(poll, members, delegates, UsersOfMus(ds, members), UsersOfMus(ds, delegates), k) <==> Warm(ds, poll, k)
  {
    if k.MuUser? || k.MuGroups? || k.MuWeight? || k.MuDelegatedTo? || k.MuMeeting? {
      MemberIs(ds, poll, k.mu);
      DelegateIs(ds, poll, k.mu);
    } else if k.UserWeight? || k.UserMeetingUsers? || k.UserPresent? {
      MemberUserIs(ds, poll, k.user);
      DelegateUserIs(ds, poll, k.user);
    }
  }

  /** Each round fetches the keys of its kind for exactly its ids. */
  lemma {:induction false} MemberStage(ids: seq<int>, k: Key)
    ensures k in KeysOf(ids, KeysOfMember) <==>
              (k.MuUser? || k.MuGroups? || k.MuWeight? || k.MuDelegatedTo? || k.MuMeeting?) && k.mu in ids
  {
    KeysOfAre(ids, KeysOfMember, k);
  }

  lemma {:induction false} DelegateStage(ids: seq<int>, k: Key)
    ensures k in KeysOf(ids, KeysOfDelegate) <==> (k.MuUser? || k.MuMeeting?) && k.mu in ids
  {
    KeysOfAre(ids, KeysOfDelegate, k);
  }

  lemma {:induction false} UserStage(ids: seq<int>, k: Key)
    ensures k in KeysOf(ids, KeysOfMemberUser) <==> (k.UserWeight? || k.UserMeetingUsers? || k.UserPresent?) && k.user in ids
  {
    KeysOfAre(ids, KeysOfMemberUser, k);
  }

  lemma {:induction false} DelegateUserStage(ids: seq<int>, k: Key)
    ensures k in KeysOf(ids, KeysOfDelegateUser) <==> (k.UserPresent? || k.UserMeetingUsers?) && k.user in ids
  {
    KeysOfAre(ids, KeysOfDelegateUser, k);
  }

  lemma MemberIs(ds: Datastore, poll: PollConfig, mu: int)
    ensures mu in MembersOf(ds, poll.entitledGroups) <==> Member(ds, poll, mu)
  {
    MembersOfAre(ds, poll.entitledGroups, mu);
  }

  lemma DelegateIs(ds: Datastore, poll: PollConfig, mu: int)
    ensures mu in DelegatesOf(ds, MembersOf(ds, poll.entitledGroups)) <==> Delegate(ds, poll, mu)
  {
    DelegatesOfAre(ds, MembersOf(ds, poll.entitledGroups), mu);
    forall d ensures d in MembersOf(ds, poll.entitledGroups) <==> Member(ds, poll, d) {
      MemberIs(ds, poll, d);
    }
  }

  lemma MemberUserIs(ds: Datastore, poll: PollConfig, u: int)
    ensures u in UsersOfMus(ds, MembersOf(ds, poll.entitledGroups)) <==> MemberUser(ds, poll, u)
  {
    UsersAre(ds, MembersOf(ds, poll.entitledGroups), u);
    forall d ensures d in MembersOf(ds, poll.entitledGroups) <==> Member(ds, poll, d) {
      MemberIs(ds, poll, d);
    }
  }

  lemma DelegateUserIs(ds: Datastore, poll: PollConfig, u: int)
    ensures u in UsersOfMus(ds, DelegatesOf(ds, MembersOf(ds, poll.entitledGroups))) <==> DelegateUser(ds, poll, u)
  {
    var delegates := DelegatesOf(ds, MembersOf(ds, poll.entitledGroups));
    UsersAre(ds, delegates, u);
    forall d ensures d in delegates <==> Delegate(ds, poll, d) {
      DelegateIs(ds, poll, d);
    }
  }

  /********** Coverage **********/

  /** The two directions of each relation in the datastore agree. */
  ghost predicate Consistent(ds: Datastore) {
    && (forall u, mu :: mu in ds.meetingUsers(u) ==> ds.muUser(mu) == u)
    && (forall g, mu :: g in ds.muGroups(mu) ==> mu in ds.groupMembers(g))
  }

  /** The meeting users of `u`, in this and other meetings, are all visited by preload. */
  ghost predicate AllVisited(ds: Datastore, poll: PollConfig, u: int) {
    forall mu :: mu in ds.meetingUsers(u) ==> Member(ds, poll, mu) || Delegate(ds, poll, mu)
  }

  ghost predicate Covered(ds: Datastore, poll: PollConfig, keys: set<Key>) {
    forall k :: k in keys ==> Warm(ds, poll, k)
  }

  lemma OwnerIsMember(ds: Datastore, poll: PollConfig, voteUser: int, requestUser: int)
    requires Consistent(ds) && Entitled(ds, poll, voteUser, requestUser)
    ensures var mu := MeetingUserOf(ds, voteUser, poll.meeting).value;
            Member(ds, poll, mu) && ds.muUser(mu) == voteUser && MemberUser(ds, poll, voteUser)
    ensures voteUser != requestUser ==> DelegateUser(ds, poll, requestUser)
  {
    var mu := MeetingUserOf(ds, voteUser, poll.meeting).value;
    FirstInIs(ds, ds.meetingUsers(voteUser), poll.meeting);
    var g :| g in ds.muGroups(mu) && g in poll.entitledGroups;
    assert Member(ds, poll, mu);
    if voteUser != requestUser {
      var to := MeetingUserOf(ds, requestUser, poll.meeting).value;
      FirstInIs(ds, ds.meetingUsers(requestUser), poll.meeting);
      assert Delegate(ds, poll, to);
    }
  }

  lemma MeetingKeysCovered(ds: Datastore, poll: PollConfig, u: int)
    ensures Covered(ds, poll, MeetingKeys(ds.meetingUsers(u))) <==> AllVisited(ds, poll, u)
  {
    var keys := MeetingKeys(ds.meetingUsers(u));
    if Covered(ds, poll, keys) {
      forall mu | mu in ds.meetingUsers(u) ensures Member(ds, poll, mu) || Delegate(ds, poll, mu) {
        assert MuMeeting(mu) in keys;
      }
    }
  }

  /** Main theorem: preload has warmed every key that an accepted vote reads exactly when it visited
      all meeting users of the vote's owner and, for a delegated vote, of the caller. */
  lemma PreloadCoversIff(ds: Datastore, poll: PollConfig, voteUser: int, requestUser: int)
    requires Consistent(ds) && Entitled(ds, poll, voteUser, requestUser)
    ensures Covered(ds, poll, VoteReads(ds, poll, voteUser, MeetingUserOf(ds, voteUser, poll.meeting).value, requestUser)) <==>
            AllVisited(ds, poll, voteUser) && (voteUser != requestUser ==> AllVisited(ds, poll, requestUser))
  {
    var mu := MeetingUserOf(ds, voteUser, poll.meeting).value;
    OtherKeysWarm(ds, poll, voteUser, requestUser);
    MeetingKeysCovered(ds, poll, voteUser);
    MeetingKeysCovered(ds, poll, requestUser);
    ReadsSplit(ds, poll, voteUser, mu, requestUser);
    var own, other := MeetingKeys(ds.meetingUsers(voteUser)), MeetingKeys(ds.meetingUsers(requestUser));
    var rest := OtherReads(poll, voteUser, mu, requestUser);
    CoveredUnion(ds, poll, own, rest);
    CoveredUnion(ds, poll, own + rest, other);
  }

  lemma ReadsSplit(ds: Datastore, poll: PollConfig, voteUser: int, mu: int, requestUser: int)
    ensures VoteReads(ds, poll, voteUser, mu, requestUser) ==
            MeetingKeys(ds.meetingUsers(voteUser)) + OtherReads(poll, voteUser, mu, requestUser)
            + MeetingKeys(ds.meetingUsers(requestUser))
  {
  }

  /** What a vote reads beside the meetings of meeting users. */
  function OtherReads(poll: PollConfig, voteUser: int, mu: int, requestUser: int): set<Key> {
    {UserPresent(requestUser), UserMeetingUsers(voteUser), UserMeetingUsers(requestUser), UserWeight(voteUser),
     MuGroups(mu), MuDelegatedTo(mu), MuWeight(mu), MeetingDelegationEnabled(poll.meeting),
     MeetingDelegatorForbidden(poll.meeting), MeetingWeightEnabled(poll.meeting)}
  }

  lemma OtherKeysWarm(ds: Datastore, poll: PollConfig, voteUser: int, requestUser: int)
    requires Consistent(ds) && Entitled(ds, poll, voteUser, requestUser)
    ensures Covered(ds, poll, OtherReads(poll, voteUser, MeetingUserOf(ds, voteUser, poll.meeting).value, requestUser))
  {
    OwnerIsMember(ds, poll, voteUser, requestUser);
    MemberReadsWarm(ds, poll, voteUser, MeetingUserOf(ds, voteUser, poll.meeting).value, requestUser);
  }

  lemma MemberReadsWarm(ds: Datastore, poll: PollConfig, voteUser: int, mu: int, requestUser: int)
    requires Member(ds, poll, mu) && MemberUser(ds, poll, voteUser)
    requires voteUser == requestUser || DelegateUser(ds, poll, requestUser)
    ensures Covered(ds, poll, OtherReads(poll, voteUser, mu, requestUser))
  {
  }

  lemma CoveredUnion(ds: Datastore, poll: PollConfig, a: set<Key>, b: set<Key>)
    ensures Covered(ds, poll, a + b) <==> Covered(ds, poll, a) && Covered(ds, poll, b)
  {
  }

  /** It is enough that both have no other meeting user than the one in the poll's meeting. */
  lemma PreloadSuffices(ds: Datastore, poll: PollConfig, voteUser: int, requestUser: int)
    requires Consistent(ds) && Entitled(ds, poll, voteUser, requestUser)
    requires |ds.meetingUsers(voteUser)| <= 1 && |ds.meetingUsers(requestUser)| <= 1
    ensures Covered(ds, poll, VoteReads(ds, poll, voteUser, MeetingUserOf(ds, voteUser, poll.meeting).value, requestUser))
  {
    PreloadCoversIff(ds, poll, voteUser, requestUser);
    OnlyOneVisited(ds, poll, voteUser, requestUser);
  }

  lemma OnlyOneVisited(ds: Datastore, poll: PollConfig, voteUser: int, requestUser: int)
    requires Consistent(ds) && Entitled(ds, poll, voteUser, requestUser)
    requires |ds.meetingUsers(voteUser)| <= 1 && |ds.meetingUsers(requestUser)| <= 1
    ensures AllVisited(ds, poll, voteUser) && AllVisited(ds, poll, requestUser)
  {
    var mu := MeetingUserOf(ds, voteUser, poll.meeting).value;
    OwnerIsMember(ds, poll, voteUser, requestUser);
    FirstInIs(ds, ds.meetingUsers(voteUser), poll.meeting);
    assert ds.meetingUsers(voteUser) == [mu];
    if voteUser != requestUser {
      var to := MeetingUserOf(ds, requestUser, poll.meeting).value;
      FirstInIs(ds, ds.meetingUsers(requestUser), poll.meeting);
      assert ds.meetingUsers(requestUser) == [to];
      assert Delegate(ds, poll, to);
    }
  }

  /** It is not always so: a user who is also a member of another meeting makes the vote read a cold key. */
  lemma SecondMeetingIsCold(poll: PollConfig)
    requires poll.entitledGroups != []
    ensures exists ds: Datastore, u: int ::
              && Consistent(ds) && Entitled(ds, poll, u, u)
              && !Covered(ds, poll, VoteReads(ds, poll, u, MeetingUserOf(ds, u, poll.meeting).value, u))
  {
    var ds := TwoMeetings(poll.meeting, poll.entitledGroups[0]);
    TwoMeetingsVote(poll);
    TwoMeetingsMembers(poll);
    assert 11 in ds.meetingUsers(1);
    PreloadCoversIff(ds, poll, 1, 1);
  }

  /** User 1 belongs to two meetings, as meeting user 10 and 11; only 10 is in the group. */
  function TwoMeetings(meeting: int, group: int): Datastore {
    Datastore(
      map[], u => [meeting], u => if u == 1 then [10, 11] else [], u => 0.0,
      mu => if mu == 10 then meeting else meeting + 1,
      mu => 1, mu => if mu == 10 then [group] else [], mu => 0.0, mu => None, mu => [],
      h => if h == group then [10] else [], m => false, m => false, m => false)
  }

  lemma TwoMeetingsVote(poll: PollConfig)
    requires poll.entitledGroups != []
    ensures Entitled(TwoMeetings(poll.meeting, poll.entitledGroups[0]), poll, 1, 1)
  {
    var g := poll.entitledGroups[0];
    var ds := TwoMeetings(poll.meeting, g);
    assert ds.meetingUsers(1)[0] == 10 && ds.meetingUsers(1)[1] == 11;
    assert MeetingUserOf(ds, 1, poll.meeting) == Some(10);
    assert g in ds.muGroups(10) && g in poll.entitledGroups;
  }

  lemma TwoMeetingsMembers(poll: PollConfig)
    requires poll.entitledGroups != []
    ensures var ds := TwoMeetings(poll.meeting, poll.entitledGroups[0]);
            Consistent(ds) && !Member(ds, poll, 11) && !Delegate(ds, poll, 11)
  {
  }
}
