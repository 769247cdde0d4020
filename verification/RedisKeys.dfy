/** How the redis backend writes poll ids and user ids into keys and fields. */
module RedisKeys {
  import opened Contract

  const DIGITS := "0123456789"

  function Digits(n: nat): (s: string)
    ensures |s| > 0
  {
    if n < 10 then [DIGITS[n]] else Digits(n / 10) + [DIGITS[n % 10]]
  }

  /** strconv.Itoa, which is also the verb %d. */
  function Itoa(n: int): string {
    if n < 0 then "-" + Digits(-n) else Digits(n)
  }

  function DigitValue(c: char): Option<nat> {
    if '0' <= c <= '9' then Some(c as int - '0' as int) else None
  }

  function ParseNat(s: string): Option<nat> {
    if s == [] then None
    else if |s| == 1 then DigitValue(s[0])
    else
      var front, last := ParseNat(s[..|s| - 1]), DigitValue(s[|s| - 1]);
      if front.Some? && last.Some? then Some(10 * front.value + last.value) else None
  }

  /** strconv.Atoi. */
  function Atoi(s: string): Option<int> {
    if s != [] && s[0] == '-' then
      var n := ParseNat(s[1..]);
      if n.Some? then var v: int := n.value; Some(-v) else None
    else if s != [] && s[0] == '+' then ParseNat(s[1..])
    else ParseNat(s)
  }

  lemma DigitRoundTrip(d: nat)
    requires d < 10
    ensures DigitValue(DIGITS[d]) == Some(d)
  {
  }

  lemma {:induction false} DigitsRoundTrip(n: nat)
    ensures ParseNat(Digits(n)) == Some(n)
    ensures Digits(n)[0] != '-' && Digits(n)[0] != '+'
  {
    DigitRoundTrip(n % 10);
    if n >= 10 {
      DigitsRoundTrip(n / 10);
      assert Digits(n)[..|Digits(n)| - 1] == Digits(n / 10);
    }
  }

  /** Printing and parsing an id gives the id back. */
  lemma ItoaRoundTrip(n: int)
    ensures Atoi(Itoa(n)) == Some(n)
  {
    if n < 0 {
      DigitsRoundTrip(-n);
      AtoiSigned(Digits(-n), -n);
    } else {
      DigitsRoundTrip(n);
      AtoiPlain(Digits(n), n);
    }
  }

  lemma AtoiSigned(s: string, n: nat)
    requires ParseNat(s) == Some(n)
    ensures Atoi("-" + s) == Some(-(n as int))
  {
    assert ("-" + s)[1..] == s;
  }

  lemma AtoiPlain(s: string, n: nat)
    requires s != [] && s[0] != '-' && s[0] != '+' && ParseNat(s) == Some(n)
    ensures Atoi(s) == Some(n)
  {
  }

  /** The value of a decimal numeral. */
  ghost function Numeral(s: string): int {
    if s == [] then 0 else 10 * Numeral(s[..|s| - 1]) + (s[|s| - 1] as int - '0' as int)
  }

  /** Numbers are printed in decimal, without leading zeros. */
  lemma {:induction false} DigitsDecimal(n: nat)
    ensures Numeral(Digits(n)) == n
    ensures forall i :: 0 <= i < |Digits(n)| ==> '0' <= Digits(n)[i] <= '9'
    ensures |Digits(n)| > 1 ==> Digits(n)[0] != '0'
  {
    assert DIGITS[n % 10] as int == '0' as int + n % 10;
    if n >= 10 {
      DigitsDecimal(n / 10);
      assert Digits(n)[..|Digits(n)| - 1] == Digits(n / 10);
      if n / 10 < 10 {
        assert DIGITS[n / 10] as int == '0' as int + n / 10;
      }
    }
  }

  const STATE_PREFIX := "vote_state_"
  const DATA_PREFIX := "vote_data_"
  const POLLS_KEY := "vote_polls"

  function StateKey(p: int): string { STATE_PREFIX + Itoa(p) }

  function VoteKey(p: int): string { DATA_PREFIX + Itoa(p) }

  /** The character that tells the kinds of keys apart. */
  lemma KeyKinds(p: int)
    ensures |StateKey(p)| > 5 && StateKey(p)[5] == 's'
    ensures |VoteKey(p)| > 5 && VoteKey(p)[5] == 'd'
    ensures POLLS_KEY[5] == 'p'
  {
  }

  lemma KeyTails(p: int)
    ensures |StateKey(p)| >= 11 && StateKey(p)[11..] == Itoa(p)
    ensures |VoteKey(p)| >= 10 && VoteKey(p)[10..] == Itoa(p)
  {
  }

  /** The keys as they stand in redis. */
  lemma PrintedKeys(p: int)
    ensures StateKey(p)[..11] == "vote_state_" && VoteKey(p)[..10] == "vote_data_" && POLLS_KEY == "vote_polls"
    ensures p >= 0 ==> Numeral(StateKey(p)[11..]) == Numeral(VoteKey(p)[10..]) == p
    ensures p < 0 ==> StateKey(p)[11] == VoteKey(p)[10] == '-' && Numeral(StateKey(p)[12..]) == Numeral(VoteKey(p)[11..]) == -p
  {
    KeyTails(p);
    if p >= 0 {
      DigitsDecimal(p);
    } else {
      DigitsDecimal(-p);
      assert Itoa(p)[1..] == Digits(-p);
      assert StateKey(p)[12..] == Digits(-p) && VoteKey(p)[11..] == Digits(-p);
    }
  }

  lemma ItoaInjective(p: int, q: int)
    ensures Itoa(p) == Itoa(q) <==> p == q
  {
    ItoaRoundTrip(p);
    ItoaRoundTrip(q);
  }

  /** Keys tell the poll and the kind; no two keys of the backend collide. */
  lemma KeysDiffer(p: int, q: int)
    ensures StateKey(p) == StateKey(q) <==> p == q
    ensures VoteKey(p) == VoteKey(q) <==> p == q
    ensures Itoa(p) == Itoa(q) <==> p == q
    ensures StateKey(p) != VoteKey(q) && StateKey(p) != POLLS_KEY && VoteKey(p) != POLLS_KEY
  {
    ItoaInjective(p, q);
    KeyTails(p);
    KeyTails(q);
    KeyKinds(p);
    KeyKinds(q);
  }
}
