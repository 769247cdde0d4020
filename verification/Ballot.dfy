/** Ballots and the rules that a poll sets for them. */
module Ballot {
  import opened Orders
  import opened Contract

  /** The fields of a poll in the datastore that the vote service uses. */
  datatype PollConfig = PollConfig(
    meeting: int, backend: string, kind: string, liveVoting: bool, entitledGroups: seq<int>,
    pollmethod: string, optionIds: seq<int>, minVotes: int, maxVotes: int, maxPerOption: int,
    globalYes: bool, globalNo: bool, globalAbstain: bool)

  /** A decoded ballot value; at most one field is set by the decoder. */
  datatype BallotValue = BallotValue(str: string, amounts: Option<map<int, int>>, answers: Option<map<int, string>>,
                                     original: string)

  datatype ValueType = UnknownValue | StringValue | AmountValue | AnswerValue

  function TypeOf(v: BallotValue): ValueType {
    if v.str != "" then StringValue
    else if v.amounts.Some? then AmountValue
    else if v.answers.Some? then AnswerValue
    else UnknownValue
  }

  /********** Limits with their defaults **********/

  function MinVotes(poll: PollConfig): int { if poll.minVotes == 0 then 1 else poll.minVotes }

  function PerOption(poll: PollConfig): int { if poll.maxPerOption == 0 then 1 else poll.maxPerOption }

  function MaxAmount(poll: PollConfig): int { if poll.maxVotes == 0 then 1 else poll.maxVotes }

  function MaxAnswers(poll: PollConfig): int { if poll.maxVotes == 0 then |poll.optionIds| else poll.maxVotes }

  function Options(poll: PollConfig): set<int> { set o | o in poll.optionIds }

  predicate GlobalAllowed(poll: PollConfig, s: string) {
    (s == "Y" && poll.globalYes) || (s == "N" && poll.globalNo) || (s == "A" && poll.globalAbstain)
  }

  /********** The declarative rule **********/

  ghost function SumOn(m: map<int, int>, ks: set<int>): int
    requires ks <= m.Keys
  {
    if ks == {} then 0 else
      var k := Pick(ks);
      m[k] + SumOn(m, ks - {k})
  }

  ghost function Sum(m: map<int, int>): int { SumOn(m, m.Keys) }

  ghost predicate AmountOk(poll: PollConfig, m: map<int, int>, o: int)
    requires o in m
  {
    0 <= m[o] <= PerOption(poll) && o in Options(poll)
  }

  ghost predicate AcceptableAmounts(poll: PollConfig, m: map<int, int>) {
    && (forall o :: o in m ==> AmountOk(poll, m, o))
    && MinVotes(poll) <= Sum(m) <= MaxAmount(poll)
  }

  predicate AnswerOk(poll: PollConfig, m: map<int, string>, o: int)
    requires o in m
  {
    o in Options(poll) && (m[o] == "Y" || m[o] == "N" || (m[o] == "A" && poll.pollmethod == "YNA"))
  }

  ghost predicate AcceptableAnswers(poll: PollConfig, m: map<int, string>) {
    && (forall o :: o in m ==> AnswerOk(poll, m, o))
    && MinVotes(poll) <= |m| <= MaxAnswers(poll)
  }

  ghost predicate Acceptable(poll: PollConfig, v: BallotValue) {
    match TypeOf(v)
    case StringValue => poll.pollmethod in {"Y", "N", "YN", "YNA"} && GlobalAllowed(poll, v.str)
    case AmountValue => poll.pollmethod in {"Y", "N"} && AcceptableAmounts(poll, v.amounts.value)
    case AnswerValue => poll.pollmethod in {"YN", "YNA"} && AcceptableAnswers(poll, v.answers.value)
    case UnknownValue => false
  }

  /** The rule for a ballot that is one letter for the whole poll. */
  ghost predicate GlobalRule(poll: PollConfig, s: string) {
    poll.pollmethod in {"Y", "N", "YN", "YNA"} &&
    match s
    case "Y" => poll.globalYes
    case "N" => poll.globalNo
    case "A" => poll.globalAbstain
    case _ => false
  }

  lemma GlobalIff(poll: PollConfig, v: BallotValue)
    ensures v.str != "" ==> (Acceptable(poll, v) <==> GlobalRule(poll, v.str))
  {
  }

  /********** validate **********/

  lemma {:induction false} SumOnSplit(m: map<int, int>, ks: set<int>, k: int)
    requires ks <= m.Keys && k in ks
    ensures SumOn(m, ks) == m[k] + SumOn(m, ks - {k})
  {
    var j := Pick(ks);
    if j != k {
      SumOnSplit(m, ks - {j}, k);
      SumOnSplit(m, ks - {k}, j);
      assert ks - {j} - {k} == ks - {k} - {j};
    }
  }

  /** The loop over the amounts; whichever order the map is iterated in, the verdict is the same. */
  method ValidateAmounts(poll: PollConfig, m: map<int, int>) returns (valid: bool)
    ensures valid <==> AcceptableAmounts(poll, m)
  {
    var maxPerOption := if poll.maxPerOption == 0 then 1 else poll.maxPerOption;
    var minVotes := if poll.minVotes == 0 then 1 else poll.minVotes;
    var maxVotes := if poll.maxVotes == 0 then 1 else poll.maxVotes;
    var sumAmount := 0;
    var left := m.Keys;
    while left != {}
      invariant left <= m.Keys && sumAmount + SumOn(m, left) == Sum(m)
      invariant forall o :: o in m && o !in left ==> AmountOk(poll, m, o)
      decreases left
    {
      var o := AnyOf(left);
      var amount := m[o];
      if amount < 0 {
        assert !AmountOk(poll, m, o);
        return false;
      }
      if amount > maxPerOption {
        assert !AmountOk(poll, m, o);
        return false;
      }
      if o !in poll.optionIds {
        assert !AmountOk(poll, m, o);
        return false;
      }
      SumOnSplit(m, left, o);
      sumAmount := sumAmount + amount;
      left := left - {o};
    }
    valid := !(sumAmount < minVotes || sumAmount > maxVotes);
  }

  method ValidateAnswers(poll: PollConfig, m: map<int, string>) returns (valid: bool)
    ensures valid <==> AcceptableAnswers(poll, m)
  {
    var minVotes := if poll.minVotes == 0 then 1 else poll.minVotes;
    var maxVotes := if poll.maxVotes == 0 then |poll.optionIds| else poll.maxVotes;
    if |m| < minVotes || |m| > maxVotes {
      return false;
    }
    var left := m.Keys;
    while left != {}
      invariant left <= m.Keys
      invariant forall o :: o in m && o !in left ==> AnswerOk(poll, m, o)
      decreases left
    {
      var o := AnyOf(left);
      if o !in poll.optionIds {
        assert !AnswerOk(poll, m, o);
        return false;
      }
      if m[o] != "Y" && m[o] != "N" && (m[o] != "A" || poll.pollmethod != "YNA") {
        assert !AnswerOk(poll, m, o);
        return false;
      }
      left := left - {o};
    }
    valid := true;
  }

  /** Main theorem: a ballot is taken exactly when the declarative rule holds. */
  method Validate(poll: PollConfig, v: BallotValue) returns (valid: bool)
    ensures valid <==> Acceptable(poll, v)
    ensures v.str != "" ==> (valid <==> GlobalRule(poll, v.str))
    ensures v.str == "" && v.amounts.Some? ==>
              (valid <==> poll.pollmethod in {"Y", "N"} && AcceptableAmounts(poll, v.amounts.value))
    ensures v.str == "" && v.amounts.None? && v.answers.Some? ==>
              (valid <==> poll.pollmethod in {"YN", "YNA"} && AcceptableAnswers(poll, v.answers.value))
    ensures v.str == "" && v.amounts.None? && v.answers.None? ==> !valid
  {
    GlobalIff(poll, v);
    var how, kind := poll.pollmethod, TypeOf(v);
    if how == "Y" || how == "N" {
      if kind == StringValue {
        valid := GlobalAllowed(poll, v.str);
      } else if kind == AmountValue {
        valid := ValidateAmounts(poll, v.amounts.value);
      } else {
        valid := false;
      }
    } else if how == "YN" || how == "YNA" {
      if kind == StringValue {
        valid := GlobalAllowed(poll, v.str);
      } else if kind == AnswerValue {
        valid := ValidateAnswers(poll, v.answers.value);
      } else {
        valid := false;
      }
    } else {
      valid := false;
    }
  }

  /********** Which polls can be voted on **********/

  function Floor0(x: int): nat { if x < 0 then 0 else x }

  lemma {:induction false} SumBounded(m: map<int, int>, ks: set<int>, cap: int)
    requires ks <= m.Keys && forall k :: k in ks ==> 0 <= m[k] <= cap
    ensures 0 <= SumOn(m, ks) <= |ks| * Floor0(cap)
  {
    if ks != {} {
      var k := Pick(ks);
      SumBounded(m, ks - {k}, cap);
      OneLess(ks, k, Floor0(cap));
    }
  }

  lemma SubsetSize(a: set<int>, b: set<int>)
    requires a <= b
    ensures |a| <= |b|
  {
    assert |b| == |a| + |b - a| by {
      assert b == a + (b - a);
    }
  }

  /** No accepted ballot, and no partial sum of its check, gives more than the cap on every option. */
  lemma AcceptedSumBounded(poll: PollConfig, m: map<int, int>, ks: set<int>)
    requires ks <= m.Keys && forall o :: o in ks ==> AmountOk(poll, m, o)
    ensures 0 <= SumOn(m, ks) <= |Options(poll)| * Floor0(PerOption(poll))
  {
    SumBounded(m, ks, PerOption(poll));
    forall o | o in ks ensures o in Options(poll) {
      assert AmountOk(poll, m, o);
    }
    SubsetSize(ks, Options(poll));
    Scale(|ks|, |Options(poll)|, Floor0(PerOption(poll)));
  }

  lemma Scale(a: nat, b: nat, c: nat)
    requires a <= b
    ensures a * c <= b * c
  {
  }

  /** Gives `total` to the options, at most `cap` to each. */
  ghost function Fill(opts: set<int>, total: nat, cap: nat): (m: map<int, int>)
    requires total <= |opts| * cap
    ensures m.Keys == opts
    ensures forall o :: o in m ==> 0 <= m[o] <= cap
    decreases |opts|
  {
    if opts == {} then map[] else
      var o := Pick(opts);
      var share := if total < cap then total else cap;
      OneLess(opts, o, cap);
      Fill(opts - {o}, total - share, cap)[o := share]
  }

  lemma {:induction false} FillSum(opts: set<int>, total: nat, cap: nat)
    requires total <= |opts| * cap
    ensures Sum(Fill(opts, total, cap)) == total
    decreases |opts|
  {
    if opts != {} {
      var o := Pick(opts);
      var share := if total < cap then total else cap;
      OneLess(opts, o, cap);
      FillSum(opts - {o}, total - share, cap);
      FillStep(opts, Fill(opts, total, cap), Fill(opts - {o}, total - share, cap), o, share);
    }
  }

  lemma OneLess(opts: set<int>, o: int, cap: nat)
    requires o in opts
    ensures |opts| * cap == |opts - {o}| * cap + cap
  {
  }

  lemma FillStep(opts: set<int>, m: map<int, int>, rest: map<int, int>, o: int, share: int)
    requires o in opts && rest.Keys == opts - {o} && m == rest[o := share]
    ensures Sum(m) == share + Sum(rest)
  {
    assert m.Keys == opts;
    SumOnSplit(m, opts, o);
    SumOnAgree(m, rest, opts - {o});
  }

  lemma {:induction false} SumOnAgree(m: map<int, int>, n: map<int, int>, ks: set<int>)
    requires ks <= m.Keys && ks <= n.Keys && forall k :: k in ks ==> m[k] == n[k]
    ensures SumOn(m, ks) == SumOn(n, ks)
  {
    if ks != {} {
      SumOnAgree(m, n, ks - {Pick(ks)});
    }
  }

  /** An amount ballot can be accepted exactly when the minimum can be reached within both limits. */
  lemma AmountBallotExistsIff(poll: PollConfig)
    ensures (exists m :: AcceptableAmounts(poll, m)) <==>
            Floor0(MinVotes(poll)) <= MaxAmount(poll) &&
            Floor0(MinVotes(poll)) <= |Options(poll)| * Floor0(PerOption(poll))
  {
    var low, cap := Floor0(MinVotes(poll)), Floor0(PerOption(poll));
    if exists m :: AcceptableAmounts(poll, m) {
      var m :| AcceptableAmounts(poll, m);
      AcceptedSumBounded(poll, m, m.Keys);
    }
    if low <= MaxAmount(poll) && low <= |Options(poll)| * cap {
      if PerOption(poll) >= 0 {
        var m := Fill(Options(poll), low, cap);
        FillSum(Options(poll), low, cap);
        assert AcceptableAmounts(poll, m);
      } else {
        assert |Options(poll)| * cap == 0;
        var m: map<int, int> := map[];
        assert Sum(m) == 0;
        assert AcceptableAmounts(poll, m);
      }
    }
  }

  ghost function AnySubset(s: set<int>, n: nat): (r: set<int>)
    requires n <= |s|
    ensures r <= s && |r| == n
  {
    if n == 0 then {} else
      var x := Pick(s);
      AnySubset(s - {x}, n - 1) + {x}
  }

  /** A ballot with answers can be accepted exactly when enough options exist within the maximum. For a
      negative minimum this may be the ballot without answers, which `validate` would accept but the
      JSON decoder never makes: it reads an empty object as amounts. */
  lemma AnswerBallotExistsIff(poll: PollConfig)
    ensures (exists m :: AcceptableAnswers(poll, m)) <==>
            Floor0(MinVotes(poll)) <= MaxAnswers(poll) && Floor0(MinVotes(poll)) <= |Options(poll)|
  {
    var low := Floor0(MinVotes(poll));
    if exists m :: AcceptableAnswers(poll, m) {
      var m :| AcceptableAnswers(poll, m);
      forall o | o in m.Keys ensures o in Options(poll) {
        assert AnswerOk(poll, m, o);
      }
      SubsetSize(m.Keys, Options(poll));
    }
    if low <= MaxAnswers(poll) && low <= |Options(poll)| {
      var chosen := AnySubset(Options(poll), low);
      var m := map o | o in chosen :: "Y";
      assert m.Keys == chosen;
      assert AcceptableAnswers(poll, m);
    }
  }
}
