/**
 * The declarative topology of a scenario: device ("entity") and link records,
 * the tag lookup the placement relies on, and the well-formedness predicates
 * the shipped topologies are checked against.
 */
module Topology {
  import opened Wrappers

  /**
   * Python's `^` on non-negative integers: bitwise exclusive or. It binds
   * looser than `*`, so the literal `10 * 10 ^ 6` is `Xor(10 * 10, 6)`.
   */
  function Xor(a: nat, b: nat): (r: nat)
    decreases a + b
  {
    if a == 0 && b == 0 then 0
    else (if a % 2 == b % 2 then 0 else 1) + 2 * Xor(a / 2, b / 2)
  }

  /** A device record: `{"id", "model", "mytag"?, "IPT", "RAM", "COST", "WATT"}`. */
  datatype Device = Device(id: int, model: string, mytag: Option<string>,
                           ipt: nat, ram: int, cost: int, watt: real)

  /** A link record: `{"s", "d", "BW", "PR"}`. */
  datatype Link = Link(s: int, d: int, bw: real, pr: real)

  /** The dictionary returned by `create_json_topology`. */
  datatype TopologyJson = TopologyJson(entity: seq<Device>, link: seq<Link>)

  /**
   * The library lookup `find_IDs({"mytag": tag})`: the identifiers of the
   * devices whose `mytag` attribute equals `tag`, in declaration order.
   */
  function FindIDs(devices: seq<Device>, tag: string): (ids: seq<int>)
    ensures |ids| <= |devices|
    ensures forall id :: id in ids <==>
              exists d :: d in devices && d.id == id && d.mytag == Some(tag)
  {
    if |devices| == 0 then []
    else
      var rest := FindIDs(devices[1..], tag);
      assert forall d :: d in devices <==> d == devices[0] || d in devices[1..];
      if devices[0].mytag == Some(tag) then [devices[0].id] + rest else rest
  }

  /** A tag that no device carries finds no device. */
  lemma {:induction false} FindIDsNone(devices: seq<Device>, tag: string)
    requires forall d :: d in devices ==> d.mytag != Some(tag)
    ensures FindIDs(devices, tag) == []
  {
    if |devices| > 0 {
      assert forall d :: d in devices[1..] ==> d in devices;
      FindIDsNone(devices[1..], tag);
    }
  }

  /** A tag carried by exactly one device is looked up to that device's id alone. */
  lemma {:induction false} FindIDsSingle(devices: seq<Device>, tag: string, i: nat)
    requires i < |devices| && devices[i].mytag == Some(tag)
    requires forall j :: 0 <= j < |devices| && j != i ==> devices[j].mytag != Some(tag)
    ensures FindIDs(devices, tag) == [devices[i].id]
    decreases i
  {
    var rest := devices[1..];
    if i == 0 {
      forall d | d in rest
        ensures d.mytag != Some(tag)
      {
        var j :| 0 <= j < |rest| && rest[j] == d;
        assert devices[j + 1] == d;
      }
      FindIDsNone(rest, tag);
    } else {
      assert forall j :: 0 <= j < |rest| ==> rest[j] == devices[j + 1];
      FindIDsSingle(rest, tag, i - 1);
    }
  }

  predicate UniqueIds(devices: seq<Device>)
  {
    forall i, j :: 0 <= i < j < |devices| ==> devices[i].id != devices[j].id
  }

  predicate Declared(devices: seq<Device>, id: int)
  {
    exists d :: d in devices && d.id == id
  }

  /** Every link joins two declared devices. */
  predicate LinksDeclared(t: TopologyJson)
  {
    forall l :: l in t.link ==> Declared(t.entity, l.s) && Declared(t.entity, l.d)
  }

  /** The device at position i has identifier i: the ids are exactly 0 .. n-1. */
  predicate IdsArePositions(devices: seq<Device>)
  {
    forall i :: 0 <= i < |devices| ==> devices[i].id == i
  }

  /** Exactly one device carries the tag. */
  predicate TagsOneDevice(devices: seq<Device>, tag: string)
  {
    |FindIDs(devices, tag)| == 1
  }

  /** With positional ids, the declared ids are exactly 0 .. n-1. */
  lemma PositionalDeclared(devices: seq<Device>, id: int)
    requires IdsArePositions(devices)
    ensures Declared(devices, id) <==> 0 <= id < |devices|
  {
    if 0 <= id < |devices| {
      assert devices[id] in devices;
    }
  }

  /** Positional ids are distinct ids. */
  lemma PositionalIdsUnique(devices: seq<Device>)
    requires IdsArePositions(devices)
    ensures UniqueIds(devices)
  {
  }

  /** Lookups on distinct ids return no id twice. */
  lemma {:induction false} FindIDsDistinct(devices: seq<Device>, tag: string)
    requires UniqueIds(devices)
    ensures forall i, j :: 0 <= i < j < |FindIDs(devices, tag)| ==>
              FindIDs(devices, tag)[i] != FindIDs(devices, tag)[j]
  {
    if |devices| > 0 {
      FindIDsDistinct(devices[1..], tag);
      var rest := FindIDs(devices[1..], tag);
      if devices[0].mytag == Some(tag) {
        forall x | x in rest
          ensures x != devices[0].id
        {
          var d :| d in devices[1..] && d.id == x && d.mytag == Some(tag);
          var k :| 0 <= k < |devices| - 1 && devices[1..][k] == d;
          assert devices[k + 1] == d;
        }
        var all := FindIDs(devices, tag);
        assert all == [devices[0].id] + rest;
        assert forall j :: 0 < j < |all| ==> all[j] in rest;
      }
    }
  }

  /** `^` with zero leaves the other operand unchanged. */
  lemma {:induction false} XorZero(a: nat)
    ensures Xor(a, 0) == a
    decreases a
  {
    if a != 0 {
      XorZero(a / 2);
    }
  }

  /** XOR of an even number: the low bit comes from `c`, the rest is the XOR of the halves. */
  lemma XorEven(a: nat, c: nat)
    ensures Xor(2 * a, c) == c % 2 + 2 * Xor(a, c / 2)
  {
    assert (2 * a) % 2 == 0 && (2 * a) / 2 == a;
  }

  /**
   * XOR with a value below 8 only touches the three low bits; on a multiple
   * of 8 it is plain addition.
   */
  lemma XorLowBits(a: nat, b: nat)
    requires a % 8 == 0 && b < 8
    ensures Xor(a, b) == a + b
  {
    var q := a / 8;
    var b1 := b / 2;
    var b2 := b1 / 2;
    assert a == 2 * (4 * q) && 4 * q == 2 * (2 * q) && 2 * q == 2 * q;
    XorEven(4 * q, b);
    XorEven(2 * q, b1);
    XorEven(q, b2);
    assert b2 / 2 == 0;
    XorZero(q);
  }

  /** The IPT literal `10 * 10 ^ 6` denotes 98. */
  lemma XorHundredSix()
    ensures Xor(10 * 10, 6) == 98
  {
    XorZero(12);
    assert Xor(25, 1) == 2 * Xor(12, 0);
    assert Xor(50, 3) == 1 + 2 * Xor(25, 1);
    assert Xor(100, 6) == 2 * Xor(50, 3);
  }

  /** The instruction literal `30 * 10 ^ 6` denotes 298. */
  lemma XorThreeHundredSix()
    ensures Xor(30 * 10, 6) == 298
  {
    XorZero(37);
    assert Xor(75, 1) == 2 * Xor(37, 0);
    assert Xor(150, 3) == 1 + 2 * Xor(75, 1);
    assert Xor(300, 6) == 2 * Xor(150, 3);
  }
}
