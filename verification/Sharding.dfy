// Deterministic assignment of contracts to indexer replicas.
module Sharding {
  import opened Rounding

  type Byte = x: nat | x < 256

  // fold(0u32, |acc, b| acc.wrapping_mul(31).wrapping_add(b))
  function Crc(id: seq<Byte>): (h: nat)
    ensures h < 0x1_0000_0000
  {
    if id == [] then 0 else (Crc(id[..|id| - 1]) * 31 + id[|id| - 1]) % 0x1_0000_0000
  }

  predicate OwnsContract(index: nat, total: nat, id: seq<Byte>)
    requires total >= 1
  {
    total == 1 || Crc(id) % total == index
  }

  function OwnedContracts(index: nat, total: nat, ids: seq<seq<Byte>>): seq<seq<Byte>>
    requires total >= 1
  {
    if ids == [] then []
    else (if OwnsContract(index, total, ids[0]) then [ids[0]] else []) + OwnedContracts(index, total, ids[1..])
  }

  // The shard responsible for a contract.
  function Owner(total: nat, id: seq<Byte>): (index: nat)
    requires total >= 1
    ensures index < total
  {
    if total == 1 then 0 else Crc(id) % total
  }

  lemma ExactlyOneOwner(total: nat, id: seq<Byte>, index: nat)
    requires total >= 1 && index < total
    ensures OwnsContract(index, total, id) <==> index == Owner(total, id)
  {
  }

  // A single shard owns everything, whatever index it was given.
  lemma SingleShardOwnsAll(index: nat, id: seq<Byte>)
    ensures OwnsContract(index, 1, id)
  {
  }

  // The owned lists of all shards partition the configured list: every contract
  // appears in its owner's list as often as it is configured, and in no other.
  lemma {:induction false} ShardsPartition(total: nat, ids: seq<seq<Byte>>, index: nat, id: seq<Byte>)
    requires total >= 1 && index < total
    ensures multiset(OwnedContracts(index, total, ids))[id] == if index == Owner(total, id) then multiset(ids)[id] else 0
  {
    if ids != [] {
      ShardsPartition(total, ids[1..], index, id);
      ExactlyOneOwner(total, ids[0], index);
      assert ids == [ids[0]] + ids[1..];
    }
  }

  // ---- The hash ----

  function Pow31(n: nat): nat
  {
    if n == 0 then 1 else 31 * Pow31(n - 1)
  }

  // The bytes as the digits of a number in base 31, first byte first.
  function Polynomial(id: seq<Byte>): nat
  {
    if id == [] then 0 else id[0] * Pow31(|id| - 1) + Polynomial(id[1..])
  }

  lemma {:induction false} PolynomialSnoc(id: seq<Byte>, b: Byte)
    ensures Polynomial(id + [b]) == Polynomial(id) * 31 + b
  {
    if id == [] {
      assert [b][1..] == [];
    } else {
      PolynomialSnoc(id[1..], b);
      assert (id + [b])[1..] == id[1..] + [b];
      assert id[0] * (31 * Pow31(|id| - 1)) == (id[0] * Pow31(|id| - 1)) * 31;
    }
  }

  lemma WrapStep(a: nat, p: nat, b: nat, m: nat)
    requires m > 0 && a == p % m
    ensures (a * 31 + b) % m == (p * 31 + b) % m
  {
    var n := a * 31 + b;
    var q, k, r := p / m, n / m, n % m;
    assert p == q * m + a && n == k * m + r;
    assert p * 31 + b == (31 * q + k) * m + r;
    ModIs(p * 31 + b, m, 31 * q + k, r);
  }

  // Wrapping after every byte gives the value of the whole polynomial in 32 bits.
  lemma {:induction false} HashIsPolynomial(id: seq<Byte>)
    ensures Crc(id) == Polynomial(id) % 0x1_0000_0000
  {
    if id != [] {
      var front, last := id[..|id| - 1], id[|id| - 1];
      HashIsPolynomial(front);
      PolynomialSnoc(front, last);
      assert front + [last] == id;
      WrapStep(Crc(front), Polynomial(front), last, 0x1_0000_0000);
    }
  }
}
