/** Who may cast whose vote, which datastore keys that decision reads, and which keys `preload` warms. */
module Entitlement {
  import opened Orders
  import opened Contract
  import opened Ballot

  /** The datastore as total functions from ids to values. */
  datatype Datastore = Datastore(
    polls: map<int, PollConfig>,
    presentIn: int -> seq<int>,
    meetingUsers: int -> seq<int>,
    defaultWeight: int -> real,
    muMeeting: int -> int,
    muUser: int -> int,
    muGroups: int -> seq<int>,
    muWeight: int -> real,
    muDelegatedTo: int -> Option<int>,
    muDelegationsFrom: int -> seq<int>,
    groupMembers: int -> seq<int>,
    weightEnabled: int -> bool,
    delegationEnabled: int -> bool,
    delegatorForbidden: int -> bool)

  datatype Key =
    | UserPresent(user: int)
    | UserMeetingUsers(user: int)
    | UserWeight(user: int)
    | MuMeeting(mu: int)
    | MuUser(mu: int)
    | MuGroups(mu: int)
    | MuWeight(mu: int)
    | MuDelegatedTo(mu: int)
    | GroupMembers(group: int)
    | MeetingWeightEnabled(meeting: int)
    | MeetingDelegationEnabled(meeting: int)
    | MeetingDelegatorForbidden(meeting: int)

  /********** The checks of Vote **********/

  /** The first of the meeting users `mus` that belongs to the meeting. */
  function FirstIn(ds: Datastore, mus: seq<int>, meeting: int): Option<int> {
    if mus == [] then None
    else if ds.muMeeting(mus[0]) == meeting then Some(mus[0])
    else FirstIn(ds, mus[1..], meeting)
  }

  function MeetingUserOf(ds: Datastore, user: int, meeting: int): Option<int> {
    FirstIn(ds, ds.meetingUsers(user), meeting)
  }

  lemma {:induction false} FirstInIs(ds: Datastore, mus: seq<int>, meeting: int)
    ensures match FirstIn(ds, mus, meeting)
            case Some(mu) => mu in mus && ds.muMeeting(mu) == meeting
            case None => forall mu :: mu in mus ==> ds.muMeeting(mu) != meeting
  {
    if mus != [] {
      FirstInIs(ds, mus[1..], meeting);
    }
  }

  ghost function MeetingKeys(mus: seq<int>): set<Key> {
    set mu | mu in mus :: MuMeeting(mu)
  }

  /** getMeetingUser with the keys it reads: all meetings are fetched before the search. */
  method GetMeetingUser(ds: Datastore, user: int, meeting: int) returns (id: Option<int>, read: set<Key>)
    ensures id == MeetingUserOf(ds, user, meeting)
    ensures read == {UserMeetingUsers(user)} + MeetingKeys(ds.meetingUsers(user))
  {
    var mus := ds.meetingUsers(user);
    read := {UserMeetingUsers(user)};
    var meetings: seq<int> := [];
    for i := 0 to |mus|
      invariant |meetings| == i && forall j :: 0 <= j < i ==> meetings[j] == ds.muMeeting(mus[j])
      invariant read == {UserMeetingUsers(user)} + MeetingKeys(mus[..i])
    {
      assert mus[..i + 1] == mus[..i] + [mus[i]];
      read := read + {MuMeeting(mus[i])};
      meetings := meetings + [ds.muMeeting(mus[i])];
    }
    assert mus[..|mus|] == mus;
    id := None;
    for i := 0 to |mus|
      invariant id.None? && FirstIn(ds, mus, meeting) == FirstIn(ds, mus[i..], meeting)
    {
      if meetings[i] == meeting {
        id := Some(mus[i]);
        return;
      }
      assert mus[i..][1..] == mus[i + 1..];
    }
  }

  method EnsurePresent(ds: Datastore, meeting: int, user: int) returns (ok: bool, read: set<Key>)
    ensures ok <==> meeting in ds.presentIn(user)
    ensures read == {UserPresent(user)}
  {
    read := {UserPresent(user)};
    var present := ds.presentIn(user);
    for i := 0 to |present|
      invariant meeting !in present[..i]
    {
      if present[i] == meeting {
        return true, read;
      }
    }
    ok := false;
  }

  ghost predicate Meet(a: seq<int>, b: seq<int>) {
    exists e :: e in a && e in b
  }

  lemma MeetAt(a: seq<int>, b: seq<int>, e: int)
    requires e in a && e in b
    ensures Meet(a, b)
  {
  }

  method EqualElement(g1: seq<int>, g2: seq<int>) returns (r: bool)
    ensures r <==> Meet(g1, g2)
  {
    var members: set<int> := {};
    for i := 0 to |g1|
      invariant members == Elements(g1[..i])
    {
      assert g1[..i + 1] == g1[..i] + [g1[i]];
      Snoc(g1[..i], g1[i]);
      members := members + {g1[i]};
    }
    assert g1[..|g1|] == g1;
    for i := 0 to |g2|
      invariant forall j :: 0 <= j < i ==> g2[j] !in g1
    {
      if g2[i] in members {
        MeetAt(g1, g2, g2[i]);
        return true;
      }
    }
    r := false;
  }

  /** The delegation of a meeting user's own vote names this caller. */
  ghost predicate DelegatedTo(ds: Datastore, mu: int, meeting: int, requestUser: int) {
    var target := MeetingUserOf(ds, requestUser, meeting);
    target.Some? && ds.muDelegatedTo(mu) == target
  }

  /** The declarative rule: the caller is present; the vote's owner is a member of the meeting in an
      entitled group; and the owner casts the vote, unless a delegation takes it away, or the owner's
      delegate does. */
  ghost predicate Entitled(ds: Datastore, poll: PollConfig, voteUser: int, requestUser: int) {
    var m, owner := poll.meeting, MeetingUserOf(ds, voteUser, poll.meeting);
    && m in ds.presentIn(requestUser)
    && voteUser != 0
    && owner.Some?
    && Meet(ds.muGroups(owner.value), poll.entitledGroups)
    && if voteUser == requestUser
       then !(ds.delegationEnabled(m) && ds.delegatorForbidden(m) && ds.muDelegatedTo(owner.value).Some?)
       else ds.delegationEnabled(m) && DelegatedTo(ds, owner.value, m, requestUser)
  }

  method EnsureVoteUser(ds: Datastore, poll: PollConfig, voteUser: int, mu: int, requestUser: int)
    returns (ok: bool, read: set<Key>)
    ensures ok <==>
      && Meet(ds.muGroups(mu), poll.entitledGroups)
      && if voteUser == requestUser
         then !(ds.delegationEnabled(poll.meeting) && ds.delegatorForbidden(poll.meeting) && ds.muDelegatedTo(mu).Some?)
         else ds.delegationEnabled(poll.meeting) && DelegatedTo(ds, mu, poll.meeting, requestUser)
    ensures ok ==> read == EnsureReads(ds, poll, voteUser, mu, requestUser)
  {
    var m := poll.meeting;
    read := {MuGroups(mu)};
    var inGroup := EqualElement(ds.muGroups(mu), poll.entitledGroups);
    if !inGroup {
      return false, read;
    }
    read := read + {MeetingDelegationEnabled(m), MeetingDelegatorForbidden(m), MuDelegatedTo(mu)};
    var activated, forbid, delegation := ds.delegationEnabled(m), ds.delegatorForbidden(m), ds.muDelegatedTo(mu);
    if activated && forbid && delegation.Some? && voteUser == requestUser {
      return false, read;
    }
    if voteUser == requestUser {
      return true, read;
    }
    if !activated {
      return false, read;
    }
    var requestMu, more := GetMeetingUser(ds, requestUser, m);
    read := read + more;
    if requestMu.None? {
      return false, read;
    }
    if delegation.None? || delegation.value != requestMu.value {
      return false, read;
    }
    ok := true;
  }

  ghost function EnsureReads(ds: Datastore, poll: PollConfig, voteUser: int, mu: int, requestUser: int): set<Key> {
    {MuGroups(mu), MeetingDelegationEnabled(poll.meeting), MeetingDelegatorForbidden(poll.meeting), MuDelegatedTo(mu)}
    + if voteUser == requestUser then {} else {UserMeetingUsers(requestUser)} + MeetingKeys(ds.meetingUsers(requestUser))
  }

  /** All keys beside the poll's own that an accepted vote reads, the weights included. */
  ghost function VoteReads(ds: Datastore, poll: PollConfig, voteUser: int, mu: int, requestUser: int): set<Key> {
    {UserPresent(requestUser), UserMeetingUsers(voteUser)} + MeetingKeys(ds.meetingUsers(voteUser))
    + EnsureReads(ds, poll, voteUser, mu, requestUser)
    + {MeetingWeightEnabled(poll.meeting), MuWeight(mu), UserWeight(voteUser)}
  }

  /** The checks of Vote and the fetch of the weight. */
  method Authorize(ds: Datastore, poll: PollConfig, voteUser: int, requestUser: int)
    returns (ok: bool, weight: real, read: set<Key>)
    ensures ok <==> Entitled(ds, poll, voteUser, requestUser)
    ensures ok ==> read == VoteReads(ds, poll, voteUser, MeetingUserOf(ds, voteUser, poll.meeting).value, requestUser)
    ensures ok ==> weight == WeightOf(ds, poll, voteUser)
  {
    weight := 0.0;
    ok, read := EnsurePresent(ds, poll.meeting, requestUser);
    if !ok {
      return;
    }
    if voteUser == 0 {
      return false, weight, read;
    }
    var mu, more := GetMeetingUser(ds, voteUser, poll.meeting);
    read := read + more;
    if mu.None? {
      return false, weight, read;
    }
    ok, more := EnsureVoteUser(ds, poll, voteUser, mu.value, requestUser);
    read := read + more;
    if !ok {
      return;
    }
    read := read + {MeetingWeightEnabled(poll.meeting), MuWeight(mu.value), UserWeight(voteUser)};
    if ds.weightEnabled(poll.meeting) {
      weight := ds.muWeight(mu.value);
      if weight == 0.0 {
        weight := ds.defaultWeight(voteUser);
      }
    }
    if weight == 0.0 {
      weight := 1.0;
    }
  }

  /** The meeting user's weight, else the user's default, else one; without weights always one. */
  function WeightOf(ds: Datastore, poll: PollConfig, voteUser: int): (w: real)
    ensures w != 0.0
    ensures !ds.weightEnabled(poll.meeting) ==> w == 1.0
    ensures var mu := MeetingUserOf(ds, voteUser, poll.meeting);
            ds.weightEnabled(poll.meeting) && mu.Some? && ds.muWeight(mu.value) != 0.0 ==> w == ds.muWeight(mu.value)
    ensures var mu := MeetingUserOf(ds, voteUser, poll.meeting);
            ds.weightEnabled(poll.meeting) && mu.Some? && ds.muWeight(mu.value) == 0.0 ==>
              w == if ds.defaultWeight(voteUser) != 0.0 then ds.defaultWeight(voteUser) else 1.0
  {
    var mu := MeetingUserOf(ds, voteUser, poll.meeting);
    var own := if mu.Some? then ds.muWeight(mu.value) else 0.0;
    if !ds.weightEnabled(poll.meeting) then 1.0
    else if own != 0.0 then own
    else if ds.defaultWeight(voteUser) != 0.0 then ds.defaultWeight(voteUser)
    else 1.0
  }

  /********** How many callers can cast a vote **********/

  /** Each meeting user belongs to one user. */
  ghost predicate OneOwner(ds: Datastore) {
    forall mu, u, v :: mu in ds.meetingUsers(u) && mu in ds.meetingUsers(v) ==> u == v
  }

  lemma DelegateUnique(ds: Datastore, mu: int, meeting: int, r1: int, r2: int)
    requires OneOwner(ds) && DelegatedTo(ds, mu, meeting, r1) && DelegatedTo(ds, mu, meeting, r2)
    ensures r1 == r2
  {
    FirstInIs(ds, ds.meetingUsers(r1), meeting);
    FirstInIs(ds, ds.meetingUsers(r2), meeting);
  }

  /** At most two callers can cast a user's vote: the user and one delegate. */
  lemma AtMostTwoCallers(ds: Datastore, poll: PollConfig, voteUser: int, r1: int, r2: int, r3: int)
    requires OneOwner(ds)
    requires Entitled(ds, poll, voteUser, r1) && Entitled(ds, poll, voteUser, r2) && Entitled(ds, poll, voteUser, r3)
    ensures r1 == r2 || r1 == r3 || r2 == r3
  {
    var mu, m := MeetingUserOf(ds, voteUser, poll.meeting).value, poll.meeting;
    if r1 != voteUser && r2 != voteUser {
      DelegateUnique(ds, mu, m, r1, r2);
    } else if r1 != voteUser && r3 != voteUser {
      DelegateUnique(ds, mu, m, r1, r3);
    } else if r2 != voteUser && r3 != voteUser {
      DelegateUnique(ds, mu, m, r2, r3);
    }
  }

  /** At most one can, if delegations are active, the user has delegated and delegators may not vote;
      and at most one, the user, if delegations are off. */
  lemma AtMostOneCaller(ds: Datastore, poll: PollConfig, voteUser: int, r1: int, r2: int)
    requires OneOwner(ds) && Entitled(ds, poll, voteUser, r1) && Entitled(ds, poll, voteUser, r2)
    requires var mu := MeetingUserOf(ds, voteUser, poll.meeting).value;
             !ds.delegationEnabled(poll.meeting) || (ds.delegatorForbidden(poll.meeting) && ds.muDelegatedTo(mu).Some?)
    ensures r1 == r2
  {
    if r1 != voteUser && r2 != voteUser {
      DelegateUnique(ds, MeetingUserOf(ds, voteUser, poll.meeting).value, poll.meeting, r1, r2);
    }
  }
}
