/** Bloom filters: a bit string filled in memory, written out as a table of one-bit records numbered
    from 1, and probed at `k` places per key. */
module Bloom {
  import opened Options

  type Key = string

  const TWO64: nat := 0x1_0000_0000_0000_0000
  const CHUNK: nat := 0xFFFF_FFFF - 127

  datatype Outcome = Ok | Invalid

  // ---------------------------------------------------------------- bits

  function Mask(i: nat): bv8
    requires i < 8
  {
    (1 as bv8) << i
  }

  predicate Bit(bytes: seq<bv8>, b: nat)
    requires b / 8 < |bytes|
  {
    bytes[b / 8] & Mask(b % 8) != 0
  }

  lemma MaskCases(i: nat)
    requires i < 8
    ensures Mask(i) == if i == 0 then 1 else if i == 1 then 2 else if i == 2 then 4 else if i == 3 then 8
                       else if i == 4 then 16 else if i == 5 then 32 else if i == 6 then 64 else 128
  {
    if i == 0 {} else if i == 1 {} else if i == 2 {} else if i == 3 {} else if i == 4 {} else if i == 5 {} else if i == 6 {} else {}
  }

  lemma SetBit(x: bv8, i: nat, j: nat)
    requires i < 8 && j < 8
    ensures (x | Mask(i)) & Mask(j) != 0 <==> i == j || x & Mask(j) != 0
  {
    MaskCases(i);
    MaskCases(j);
    hide Mask;
  }

  lemma NoBits(bytes: seq<bv8>)
    requires forall j :: 0 <= j < |bytes| ==> bytes[j] == 0
    ensures forall b :: 0 <= b && b / 8 < |bytes| ==> !Bit(bytes, b)
  {
    hide Mask;
  }

  lemma AndBit(x: bv8, y: bv8, i: nat)
    requires i < 8
    ensures (x & y) & Mask(i) != 0 <==> x & Mask(i) != 0 && y & Mask(i) != 0
  {
    MaskCases(i);
    hide Mask;
  }

  function Bytes(bits: nat): nat {
    (bits + 7) / 8
  }

  // ---------------------------------------------------------------- probes

  /** A key and its two hash values. */
  datatype Hashed = Hashed(h1: nat, h2: nat)

  predicate IsHashed(h: Hashed) {
    h.h1 < TWO64 && h.h2 < TWO64
  }

  /** Where probe `i` falls: the first hash plus `i` times the second, in 64 bits, modulo the size. */
  ghost function Probe(h: Hashed, m: nat, i: nat): (b: nat)
    requires IsHashed(h) && m > 0
    ensures b < m
  {
    Sum(h, i) % m
  }

  ghost function Sum(h: Hashed, i: nat): (s: nat)
    requires IsHashed(h)
    ensures s < TWO64
  {
    (h.h1 + i * h.h2) % TWO64
  }

  /** Some of the first `k` probes of `h` falls on bit `b`. */
  ghost predicate Probed(h: Hashed, m: nat, k: nat, b: nat)
    requires IsHashed(h) && m > 0
  {
    exists i :: 0 <= i < k && Probe(h, m, i) == b
  }

  /** All `k` probes of `h` find their bit set. */
  ghost predicate AllSet(bytes: seq<bv8>, h: Hashed, m: nat, k: nat)
    requires IsHashed(h) && m > 0 && |bytes| == Bytes(m)
  {
    forall i :: 0 <= i < k ==> Bit(bytes, Probe(h, m, i))
  }

  /** Record numbers start at 1. */
  predicate Stored(table: seq<bool>, recno: nat)
    requires 1 <= recno <= |table|
  {
    table[recno - 1]
  }

  /** The same question asked of the table. */
  ghost predicate AllStored(table: seq<bool>, h: Hashed, m: nat, k: nat)
    requires IsHashed(h) && m > 0 && |table| == m
  {
    forall i :: 0 <= i < k ==> Stored(table, Probe(h, m, i) + 1)
  }

  /** The table holds the bits. */
  ghost predicate Stores(table: seq<bool>, bytes: seq<bv8>, m: nat) {
    |bytes| == Bytes(m) && |table| == m && forall b :: 0 <= b < m ==> table[b] == Bit(bytes, b)
  }

  // ---------------------------------------------------------------- configuration

  datatype Config = Config(k: nat, factor: nat, m: nat, n: nat)

  /** From the number of items when the filter is created, from the number of bits when opened. */
  function Setup(n: nat, m: nat, factor: nat, k: nat): Option<Config>
    requires n == 0 ==> factor != 0
  {
    if k < 2 then None
    else if n != 0 then Some(Config(k, factor, (n * factor) % TWO64, n))
    else Some(Config(k, factor, m, m / factor))
  }

  /** Opening a filter by its number of bits recovers the configuration it was created with exactly
      when the number of bits did not wrap. */
  lemma OpenRecovers(n: nat, factor: nat, k: nat)
    requires 0 < n < TWO64 && factor > 0
    ensures Setup(n, 0, factor, k).None? <==> k < 2
    ensures k >= 2 ==> var created := Setup(n, 0, factor, k).value;
      && created.n == n && created.k == k && created.factor == factor
      && (created.m == n * factor <==> n * factor < TWO64)
      && (Setup(0, created.m, factor, k) == Some(created) <==> n * factor < TWO64)
  {
    var m := (n * factor) % TWO64;
    if n * factor < TWO64 {
      assert m == n * factor;
      DivExact(n, factor);
    } else {
      DivBelow(m, n, factor);
    }
  }

  lemma MulOrder(a: int, b: int, c: int)
    requires a <= b && c >= 0
    ensures a * c <= b * c
  {
    assert (b - a) * c >= 0;
  }

  lemma DivBounds(x: int, c: int)
    requires x >= 0 && c > 0
    ensures (x / c) * c <= x < (x / c) * c + c
  {
  }

  lemma DivExact(n: nat, factor: nat)
    requires factor > 0
    ensures (n * factor) / factor == n
  {
    var q := (n * factor) / factor;
    DivBounds(n * factor, factor);
    if q < n {
      assert (q + 1) * factor == q * factor + factor;
      MulOrder(q + 1, n, factor);
    } else if q > n {
      assert (n + 1) * factor == n * factor + factor;
      MulOrder(n + 1, q, factor);
    }
  }

  lemma DivBelow(m: nat, n: nat, factor: nat)
    requires factor > 0 && m < n * factor
    ensures m / factor < n
  {
    var q := m / factor;
    DivBounds(m, factor);
    if q >= n {
      MulOrder(n, q, factor);
    }
  }

  // ---------------------------------------------------------------- the filter

  class Filter {
    const config: Config
    const fnv: Key -> nat
    const city: Key -> nat
    const bitstring: array<bv8>
    var table: seq<bool>
    ghost var inserted: set<Key>

    constructor (config: Config, fnv: Key -> nat, city: Key -> nat)
      requires config.m > 0 && forall key :: fnv(key) < TWO64 && city(key) < TWO64
      ensures Valid() && inserted == {} && fresh(bitstring)
      ensures this.config == config && this.fnv == fnv && this.city == city
      ensures forall b :: 0 <= b < config.m ==> !Bit(bitstring[..], b)
    {
      this.config, this.fnv, this.city := config, fnv, city;
      bitstring := new bv8[Bytes(config.m)](_ => 0);
      table, inserted := [], {};
      new;
      NoBits(bitstring[..]);
    }

    function Hashes(key: Key): Hashed {
      Hashed(fnv(key), city(key))
    }

    ghost predicate Shape() {
      && config.m > 0 && bitstring.Length == Bytes(config.m)
      && forall key :: IsHashed(Hashes(key))
    }

    /** Every inserted key has all its bits set. */
    ghost predicate Valid()
      reads this, bitstring
    {
      Shape() && forall key :: key in inserted ==> AllSet(bitstring[..], Hashes(key), config.m, config.k)
    }

    method SetBitAt(b: nat)
      requires Shape() && b < config.m
      modifies bitstring
      ensures forall c :: 0 <= c < config.m ==> (Bit(bitstring[..], c) <==> old(Bit(bitstring[..], c)) || c == b)
    {
      ghost var was := bitstring[..];
      bitstring[b / 8] := bitstring[b / 8] | Mask(b % 8);
      forall c | 0 <= c < config.m ensures Bit(bitstring[..], c) <==> Bit(was, c) || c == b {
        if c / 8 == b / 8 {
          SetBit(was[b / 8], b % 8, c % 8);
        }
      }
    }

    method Insert(key: Key)
      requires Valid()
      modifies this`inserted, bitstring
      ensures Valid() && inserted == old(inserted) + {key}
      ensures forall b :: 0 <= b < config.m ==>
        (Bit(bitstring[..], b) <==> old(Bit(bitstring[..], b)) || Probed(Hashes(key), config.m, config.k, b))
    {
      hide Sum, Bit, AllSet, Probed;
      SumStart(Hashes(key));
      NotProbed(Hashes(key), config.m);
      var h, h2, i := fnv(key), city(key), 0;
      ghost var was := bitstring[..];
      while i < config.k
        invariant Shape() && 0 <= i <= config.k && h == Sum(Hashes(key), i) && inserted == old(inserted)
        invariant forall b :: 0 <= b < config.m ==> (Bit(bitstring[..], b) <==> Bit(was, b) || Probed(Hashes(key), config.m, i, b))
      {
        SetBitAt(h % config.m);
        SumNext(Hashes(key), i);
        ProbedNext(Hashes(key), config.m, i);
        h := (h + h2) % TWO64;
        i := i + 1;
      }
      StillSet(was, bitstring[..], inserted, key);
      inserted := inserted + {key};
    }

    lemma StillSet(was: seq<bv8>, bytes: seq<bv8>, keys: set<Key>, key: Key)
      requires Shape() && |was| == |bytes| == Bytes(config.m)
      requires forall k :: k in keys ==> AllSet(was, Hashes(k), config.m, config.k)
      requires forall b :: 0 <= b < config.m ==> (Bit(bytes, b) <==> Bit(was, b) || Probed(Hashes(key), config.m, config.k, b))
      ensures forall k :: k in keys + {key} ==> AllSet(bytes, Hashes(k), config.m, config.k)
    {
      hide Bit, Probe;
      var h := Hashes(key);
      forall i | 0 <= i < config.k ensures Bit(bytes, Probe(h, config.m, i)) {
        assert Probed(h, config.m, config.k, Probe(h, config.m, i));
      }
    }

    lemma BothSet(was: seq<bv8>, others: seq<bv8>, bytes: seq<bv8>, keys: set<Key>)
      requires Shape() && |was| == |others| == |bytes| == Bytes(config.m)
      requires forall k :: k in keys ==> AllSet(was, Hashes(k), config.m, config.k) && AllSet(others, Hashes(k), config.m, config.k)
      requires forall b :: 0 <= b < config.m ==> (Bit(bytes, b) <==> Bit(was, b) && Bit(others, b))
      ensures forall k :: k in keys ==> AllSet(bytes, Hashes(k), config.m, config.k)
    {
      hide Bit, Probe;
    }

    /** A key is found exactly when all its bits are set, so no inserted key is ever missed. */
    method InmemGet(key: Key) returns (found: bool)
      requires Valid()
      ensures found <==> AllSet(bitstring[..], Hashes(key), config.m, config.k)
      ensures key in inserted ==> found
    {
      hide Sum, Mask;
      SumStart(Hashes(key));
      var h, h2, i := fnv(key), city(key), 0;
      while i < config.k
        invariant 0 <= i <= config.k && h == Sum(Hashes(key), i)
        invariant AllSet(bitstring[..], Hashes(key), config.m, i)
      {
        var b := h % config.m;
        if bitstring[b / 8] & Mask(b % 8) == 0 {
          assert !Bit(bitstring[..], Probe(Hashes(key), config.m, i));
          return false;
        }
        SumNext(Hashes(key), i);
        h := (h + h2) % TWO64;
        i := i + 1;
      }
      return true;
    }

    /** Write the bits out, chunk by chunk. */
    method Finalize()
      requires Valid()
      modifies this`table
      ensures Stores(table, bitstring[..], config.m)
    {
      hide Mask;
      table := [];
      var i := 0;
      while i < config.m
        invariant 0 <= i <= config.m && (i < config.m ==> i % 8 == 0)
        invariant |table| == i && forall b :: 0 <= b < i ==> table[b] == Bit(bitstring[..], b)
      {
        var size := if config.m - i < CHUNK then config.m - i else CHUNK;
        var chunk := Unpack(bitstring[i / 8..], size);
        forall b | i <= b < i + size ensures chunk[b - i] == Bit(bitstring[..], b) {
          ChunkBit(bitstring[..], i, b - i);
        }
        table := table + chunk;
        ChunkAligned(i);
        i := i + size;
      }
    }

    /** Look a key up in the table by its hash values: every record number asked for exists, and the
        answer is the one the bits would have given. */
    method HashGet(h: Hashed) returns (found: bool)
      requires Shape() && IsHashed(h) && |table| == config.m
      ensures found <==> AllStored(table, h, config.m, config.k)
    {
      hide Sum;
      SumStart(h);
      var h1, i := h.h1, 0;
      while i < config.k
        invariant 0 <= i <= config.k && h1 == Sum(h, i)
        invariant AllStored(table, h, config.m, i)
      {
        var recno := h1 % config.m + 1;
        if !Stored(table, recno) {
          assert Probe(h, config.m, i) + 1 == recno;
          return false;
        }
        SumNext(h, i);
        h1 := (h1 + h.h2) % TWO64;
        i := i + 1;
      }
      return true;
    }

    /** Keep what both filters have; a filter of another configuration is refused. */
    method Intersection(other: Filter) returns (r: Outcome)
      requires Valid() && other.Valid() && fnv == other.fnv && city == other.city
      modifies this`inserted, bitstring
      ensures Valid()
      ensures r.Ok? <==> config == other.config
      ensures r.Invalid? ==> bitstring[..] == old(bitstring[..]) && inserted == old(inserted)
      ensures r.Ok? ==> inserted == old(inserted * other.inserted)
      ensures r.Ok? ==> forall b :: 0 <= b < config.m ==>
        (Bit(bitstring[..], b) <==> old(Bit(bitstring[..], b)) && old(Bit(other.bitstring[..], b)))
    {
      if config != other.config {
        return Invalid;
      }
      hide AllSet, Mask, Probe;
      ghost var was, others, names := bitstring[..], other.bitstring[..], inserted * other.inserted;
      var i := 0;
      while i < Bytes(config.m)
        invariant 0 <= i <= Bytes(config.m)
        invariant forall j :: 0 <= j < i ==> bitstring[j] == was[j] & others[j]
        invariant forall j :: i <= j < bitstring.Length ==> bitstring[j] == was[j] && other.bitstring[j] == others[j]
      {
        bitstring[i] := bitstring[i] & other.bitstring[i];
        i := i + 1;
      }
      forall b | 0 <= b < config.m ensures Bit(bitstring[..], b) <==> Bit(was, b) && Bit(others, b) {
        AndBit(was[b / 8], others[b / 8], b % 8);
      }
      BothSet(was, others, bitstring[..], names);
      inserted := names;
      return Ok;
    }
  }

  lemma SumStart(h: Hashed)
    requires IsHashed(h)
    ensures Sum(h, 0) == h.h1
  {
  }

  /** Adding the second hash with 64-bit wrap-around gets from one probe to the next. */
  lemma SumNext(h: Hashed, i: nat)
    requires IsHashed(h)
    ensures Sum(h, i + 1) == (Sum(h, i) + h.h2) % TWO64
  {
    assert (i + 1) * h.h2 == i * h.h2 + h.h2;
    ModAdd(h.h1 + i * h.h2, h.h2);
  }

  lemma ModAdd(x: nat, y: nat)
    ensures (x + y) % TWO64 == (x % TWO64 + y) % TWO64
  {
    var q, r := x / TWO64, x % TWO64;
    assert x + y == (r + y) + q * TWO64;
    ModPlus(r + y, q);
  }

  lemma {:induction false} ModPlus(x: nat, q: nat)
    ensures (x + q * TWO64) % TWO64 == x % TWO64
  {
    if q > 0 {
      ModPlus(x, q - 1);
      assert (x + q * TWO64) == (x + (q - 1) * TWO64) + TWO64;
    }
  }

  lemma NotProbed(h: Hashed, m: nat)
    requires IsHashed(h) && m > 0
    ensures forall b :: !Probed(h, m, 0, b)
  {
  }

  lemma ProbedNext(h: Hashed, m: nat, i: nat)
    requires IsHashed(h) && m > 0
    ensures forall b :: Probed(h, m, i + 1, b) <==> Probed(h, m, i, b) || b == Probe(h, m, i)
  {
    hide Probe;
    forall b ensures Probed(h, m, i + 1, b) <==> Probed(h, m, i, b) || b == Probe(h, m, i) {
      if Probed(h, m, i, b) {
        var j :| 0 <= j < i && Probe(h, m, j) == b;
        assert 0 <= j < i + 1;
      }
    }
  }

  /** What the table makes of `size` bits of data. */
  function Unpack(bytes: seq<bv8>, size: nat): (bits: seq<bool>)
    requires Bytes(size) <= |bytes|
    ensures |bits| == size
  {
    seq(size, b requires 0 <= b < size => Bit(bytes, b))
  }

  lemma ChunkBit(bytes: seq<bv8>, i: nat, b: nat)
    requires i % 8 == 0 && (i + b) / 8 < |bytes|
    ensures i / 8 <= |bytes| && b / 8 < |bytes[i / 8..]|
    ensures Bit(bytes[i / 8..], b) == Bit(bytes, i + b)
  {
    hide Mask;
    assert (i + b) / 8 == i / 8 + b / 8 && (i + b) % 8 == b % 8;
  }

  /** A full chunk keeps the byte alignment. */
  lemma ChunkAligned(i: nat)
    requires i % 8 == 0
    ensures (i + CHUNK) % 8 == 0
  {
    assert CHUNK % 8 == 0;
  }

  /** A finalized filter answers every key as the filter in memory did. */
  lemma SameAnswers(table: seq<bool>, bytes: seq<bv8>, h: Hashed, m: nat, k: nat)
    requires IsHashed(h) && m > 0 && Stores(table, bytes, m)
    ensures AllStored(table, h, m, k) <==> AllSet(bytes, h, m, k)
  {
    hide Bit;
    if AllStored(table, h, m, k) {
      forall i | 0 <= i < k ensures Bit(bytes, Probe(h, m, i)) {
        assert Stored(table, Probe(h, m, i) + 1);
      }
    }
  }
}
