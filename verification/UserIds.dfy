/** The packed list of user ids that the postgres backend keeps in one column. */
module UserIds {
  import opened Orders
  import opened Contract

  const TWO31 := 0x8000_0000
  const TWO32 := 0x1_0000_0000

  type int32 = x: int | -0x8000_0000 <= x < 0x8000_0000

  /** Go's conversion int32(x). */
  function ToInt32(x: int): (r: int32)
    ensures (r - x) % TWO32 == 0
    ensures -TWO31 <= x < TWO31 ==> r == x
  {
    var u := x % TWO32;
    if u < TWO31 then u else u - TWO32
  }

  /********** Little-endian codec **********/

  function EncodeOne(x: int32): (b: seq<byte>)
    ensures |b| == 4
  {
    var u := x % TWO32;
    [u % 256, u / 256 % 256, u / 65536 % 256, u / 16777216]
  }

  function DecodeOne(b: seq<byte>): int32
    requires |b| == 4
  {
    ToInt32(Unsigned(b))
  }

  function Unsigned(b: seq<byte>): int
    requires |b| == 4
  {
    var d0: int, d1: int, d2: int, d3: int := b[0], b[1], b[2], b[3];
    d0 + 256 * d1 + 65536 * d2 + 16777216 * d3
  }

  function ToBytes(ids: seq<int32>): (b: seq<byte>)
    ensures |b| == 4 * |ids|
  {
    if ids == [] then [] else EncodeOne(ids[0]) + ToBytes(ids[1..])
  }

  /** Reads len(raw)/4 ids; up to three trailing bytes are ignored. */
  function FromBytes(raw: seq<byte>): (ids: seq<int32>)
    ensures |ids| == |raw| / 4
  {
    if |raw| < 4 then [] else [DecodeOne(raw[..4])] + FromBytes(raw[4..])
  }

  lemma DigitsSum(u: int)
    requires 0 <= u < TWO32
    ensures u % 256 + 256 * (u / 256 % 256) + 65536 * (u / 65536 % 256) + 16777216 * (u / 16777216) == u
  {
  }

  lemma DecodeEncodeOne(x: int32)
    ensures DecodeOne(EncodeOne(x)) == x
  {
    DigitsSum(x % TWO32);
  }

  lemma DigitsOf(d0: int, d1: int, d2: int, d3: int)
    requires 0 <= d0 < 256 && 0 <= d1 < 256 && 0 <= d2 < 256 && 0 <= d3 < 256
    ensures var u := d0 + 256 * d1 + 65536 * d2 + 16777216 * d3;
            && 0 <= u < TWO32 && u % 256 == d0 && u / 256 % 256 == d1 && u / 65536 % 256 == d2 && u / 16777216 == d3
  {
    var u := d0 + 256 * d1 + 65536 * d2 + 16777216 * d3;
    assert u / 256 == d1 + 256 * (d2 + 256 * d3);
    assert u / 65536 == d2 + 256 * d3;
  }

  lemma ToInt32Keeps(u: int)
    requires 0 <= u < TWO32
    ensures ToInt32(u) % TWO32 == u
  {
  }

  lemma EncodeDecodeOne(b: seq<byte>)
    requires |b| == 4
    ensures EncodeOne(DecodeOne(b)) == b
  {
    DigitsOf(b[0], b[1], b[2], b[3]);
    ToInt32Keeps(Unsigned(b));
    assert b == [b[0], b[1], b[2], b[3]];
  }

  /** The number that four bytes stand for, least significant first. */
  ghost predicate Spells(b: seq<byte>, at: nat, u: int) {
    && at + 4 <= |b|
    && var d0: int, d1: int, d2: int, d3: int := b[at], b[at + 1], b[at + 2], b[at + 3];
       u == d0 + 256 * d1 + 65536 * d2 + 16777216 * d3
  }

  /** The stored column is little-endian: each id, modulo 2^32, is spelled by its four bytes. */
  lemma {:induction false} WritesLittleEndian(ids: seq<int32>, k: nat)
    requires k < |ids|
    ensures Spells(ToBytes(ids), 4 * k, ids[k] % TWO32)
  {
    DigitsSum(ids[0] % TWO32);
    if k > 0 {
      WritesLittleEndian(ids[1..], k - 1);
      assert ToBytes(ids)[4..] == ToBytes(ids[1..]);
    }
  }

  /** And it is read as such. */
  lemma {:induction false} ReadsLittleEndian(raw: seq<byte>, k: nat)
    requires k < |raw| / 4
    ensures Spells(raw, 4 * k, FromBytes(raw)[k] % TWO32)
  {
    if k == 0 {
      ReadsFirst(raw[..4]);
      assert FromBytes(raw)[0] == DecodeOne(raw[..4]);
    } else {
      ReadsLittleEndian(raw[4..], k - 1);
      assert FromBytes(raw)[k] == FromBytes(raw[4..])[k - 1];
    }
  }

  lemma ReadsFirst(b: seq<byte>)
    requires |b| == 4
    ensures Spells(b, 0, DecodeOne(b) % TWO32)
  {
    DigitsOf(b[0], b[1], b[2], b[3]);
    ToInt32Keeps(Unsigned(b));
  }

  /** Decoding what was encoded gives the list back, negative ids included. */
  lemma {:induction false} DecodeEncode(ids: seq<int32>)
    ensures FromBytes(ToBytes(ids)) == ids
  {
    if ids != [] {
      var b := ToBytes(ids);
      DecodeEncodeOne(ids[0]);
      assert b[..4] == EncodeOne(ids[0]);
      assert b[4..] == ToBytes(ids[1..]);
      DecodeEncode(ids[1..]);
    }
  }

  /** Encoding what was decoded gives the longest prefix of whole ids. */
  lemma {:induction false} EncodeDecode(raw: seq<byte>)
    ensures ToBytes(FromBytes(raw)) == raw[..|raw| / 4 * 4]
  {
    if |raw| >= 4 {
      EncodeDecodeOne(raw[..4]);
      EncodeDecode(raw[4..]);
      var ids := FromBytes(raw);
      assert ids[1..] == FromBytes(raw[4..]);
      assert raw[..|raw| / 4 * 4] == raw[..4] + raw[4..][..|raw[4..]| / 4 * 4];
    }
  }

  /********** The list itself **********/

  /** Adding ids one after the other to a stored column, as one vote after the other does. */
  function AddAll(raw: seq<byte>, ids: seq<int32>): seq<byte> {
    if ids == [] then raw
    else ToBytes(InsertedId(FromBytes(AddAll(raw, ids[..|ids| - 1])), ids[|ids| - 1]))
  }

  /** Inserted, for lists of ids. */
  function InsertedId(s: seq<int32>, x: int32): (r: seq<int32>)
    ensures r == Inserted(s, x)
  {
    s[..Place(s, x)] + [x] + s[Place(s, x)..]
  }

  lemma {:induction false} AddAllSorts(raw: seq<byte>, ids: seq<int32>)
    requires Increasing(FromBytes(raw)) && Distinct(ids)
    requires Elements(ids) !! Elements(FromBytes(raw))
    ensures Increasing(FromBytes(AddAll(raw, ids)))
    ensures Elements(FromBytes(AddAll(raw, ids))) == Elements(FromBytes(raw)) + Elements(ids)
  {
    if ids != [] {
      var front, x := ids[..|ids| - 1], ids[|ids| - 1];
      assert ids == front + [x];
      assert Elements(ids) == Elements(front) + {x};
      AddAllSorts(raw, front);
      var s := FromBytes(AddAll(raw, front));
      assert x !in Elements(s);
      InsertedIncreasing(s, x);
      DecodeEncode(InsertedId(s, x));
    }
  }

  lemma AddAllCanonical(raw: seq<byte>, ids: seq<int32>)
    requires |raw| % 4 == 0
    ensures AddAll(raw, ids) == ToBytes(FromBytes(AddAll(raw, ids)))
  {
    EncodeDecode(AddAll(raw, ids));
  }

  /** Canonical form: the stored bytes do not tell in which order the users were added. */
  lemma StoredOrderInvisible(raw: seq<byte>, a: seq<int32>, b: seq<int32>)
    requires Increasing(FromBytes(raw)) && |raw| % 4 == 0
    requires Distinct(a) && Distinct(b) && Elements(a) == Elements(b)
    requires Elements(a) !! Elements(FromBytes(raw))
    ensures AddAll(raw, a) == AddAll(raw, b)
  {
    AddAllSorts(raw, a);
    AddAllSorts(raw, b);
    IncreasingUnique(FromBytes(AddAll(raw, a)), FromBytes(AddAll(raw, b)));
    AddAllCanonical(raw, a);
    AddAllCanonical(raw, b);
  }

  /** A Go slice of ids: the first `length` cells of a backing array that may have spare capacity. */
  class UserIdList {
    var data: array<int32>
    var length: nat

    ghost predicate Valid()
      reads this
    {
      length <= data.Length
    }

    function Contents(): (s: seq<int32>)
      requires Valid()
      reads this, data
      ensures |s| == length
    {
      data[..length]
    }

    /** A decoded column; `make` gives no spare capacity, other slices may have some. */
    constructor (ids: seq<int32>, spare: nat)
      ensures Valid() && fresh(data)
      ensures Contents() == ids && data.Length == |ids| + spare
    {
      var a := new int32[|ids| + spare](i => if 0 <= i < |ids| then ids[i] else 0);
      data := a;
      length := |ids|;
      new;
      assert Contents() == ids;
    }

    /** sort.Search for the first id that is not smaller than `id`. */
    method Search(id: int32) returns (idx: nat)
      requires Valid() && Increasing(Contents())
      ensures idx == Place(Contents(), id)
    {
      var i, j := 0, length;
      while i < j
        invariant 0 <= i <= j <= length
        invariant forall k :: 0 <= k < i ==> data[k] < id
        invariant forall k :: j <= k < length ==> data[k] >= id
      {
        var h := (i + j) / 2;
        if !(data[h] >= id) {
          i := h + 1;
        } else {
          j := h;
        }
      }
      idx := i;
      PlaceSplits(Contents(), id);
      assert idx < length ==> Contents()[idx] >= id;
      ghost var p := Place(Contents(), id);
      assert p < length ==> Contents()[p] >= id;
      assert p > 0 ==> Contents()[p - 1] < id;
      assert idx > 0 ==> Contents()[idx - 1] < id;
    }

    method Contains(id: int32) returns (found: bool)
      requires Valid() && Increasing(Contents())
      ensures found <==> id in Contents()
    {
      var idx := Search(id);
      PlaceSplits(Contents(), id);
      found := idx < length && data[idx] == id;
      assert found <==> idx < length && Contents()[idx] == id;
    }

    /** A larger backing array that starts with the first `idx` ids. */
    static method Grow(a: array<int32>, idx: nat, capacity: nat) returns (b: array<int32>)
      requires idx <= a.Length && idx <= capacity
      ensures fresh(b) && b.Length == capacity && b[..idx] == a[..idx]
    {
      b := new int32[capacity](_ => 0);
      for i := 0 to idx
        invariant b[..i] == a[..i]
      {
        b[i] := a[i];
      }
    }

    /** Copies the array `tail` into `a` behind the first `idx` ids; the two must not share memory. */
    static method CopyTo(a: array<int32>, idx: nat, tail: array<int32>)
      requires idx + tail.Length <= a.Length && a != tail
      modifies a
      ensures a[..idx + tail.Length] == old(a[..idx]) + tail[..]
    {
      for i := 0 to tail.Length
        invariant a[..idx + i] == old(a[..idx]) + tail[..i]
      {
        a[idx + i] := tail[i];
        assert a[..idx + i + 1] == a[..idx + i] + [tail[i]];
      }
      assert tail[..tail.Length] == tail[..];
    }

    /** Go's append(u[:idx], tail...): writes behind `idx` when the capacity allows it, else into a new array. */
    method AppendAt(idx: nat, tail: array<int32>)
      requires Valid() && idx <= length && tail != data
      modifies this, data
      ensures Valid() && (data == old(data) || fresh(data))
      ensures data == old(data) <==> idx + tail.Length <= old(data).Length
      ensures Contents() == old(Contents()[..idx]) + old(tail[..])
    {
      if idx + tail.Length > data.Length {
        data := Grow(data, idx, 2 * (idx + tail.Length));
      }
      CopyTo(data, idx, tail);
      length := idx + tail.Length;
    }

    /** Go's append([]int32{id}, u[idx:]...): always a new array, so the ids behind `idx` are safe. */
    method TailWith(id: int32, idx: nat) returns (tail: array<int32>)
      requires Valid() && idx <= length
      ensures fresh(tail) && tail[..] == [id] + Contents()[idx..]
    {
      tail := new int32[1 + length - idx](_ => id);
      for i := idx to length
        invariant tail[0] == id && forall k :: idx <= k < i ==> tail[1 + k - idx] == data[k]
      {
        tail[1 + i - idx] := data[i];
      }
    }

    /** Adds a user id in place, as long as the capacity allows it. */
    method Add(id: int32) returns (doubleVote: bool)
      requires Valid() && Increasing(Contents())
      modifies this, data
      ensures Valid() && (data == old(data) || fresh(data))
      ensures doubleVote <==> id in old(Contents())
      ensures Contents() == if doubleVote then old(Contents()) else Inserted(old(Contents()), id)
      ensures Increasing(Contents())
    {
      doubleVote := Contains(id);
      if doubleVote {
        return;
      }
      InsertedIncreasing(Contents(), id);
      var idx := Search(id);
      var tail := TailWith(id, idx);
      AppendAt(idx, tail);
      assert Contents() == Inserted(old(Contents()), id);
    }
  }
}
