/**
 Granule Bloom filters (src/metadata/block_zone_map.rs): the split-block filter
 and the manager that keeps deserialised filters in a write-back cache.
 */
module Bloom {
  import opened Bytes
  import opened Common

  // ------------------------------------------------------------------
  // Bits
  // ------------------------------------------------------------------

  /** `1 << k` on a byte. */
  function Mask(k: nat): bv8
    requires k < 8
  {
    if k == 0 then 1 else if k == 1 then 2 else if k == 2 then 4 else if k == 3 then 8
    else if k == 4 then 16 else if k == 5 then 32 else if k == 6 then 64 else 128
  }

  lemma MaskIsShift(k: nat)
    requires k < 8
    ensures Mask(k) == (1 as bv8) << k
  {
  }

  lemma OrBit(x: bv8, k: nat, m: nat)
    requires k < 8 && m < 8
    ensures (x | Mask(k)) & Mask(m) != 0 <==> (x & Mask(m) != 0 || k == m)
  {
  }

  predicate BitAt(bits: seq<bv8>, p: nat)
    requires p < 8 * |bits|
  {
    bits[p / 8] & Mask(p % 8) != 0
  }

  /** The positions of the bits that are set. */
  function SetBits(bits: seq<bv8>): set<nat> {
    set p: nat | p < 8 * |bits| && BitAt(bits, p)
  }

  lemma OrSetsOneBit(bits: seq<bv8>, p: nat)
    requires p < 8 * |bits|
    ensures SetBits(bits[p / 8 := bits[p / 8] | Mask(p % 8)]) == SetBits(bits) + {p}
  {
    var after := bits[p / 8 := bits[p / 8] | Mask(p % 8)];
    forall q: nat | q < 8 * |bits| ensures BitAt(after, q) <==> BitAt(bits, q) || q == p {
      if q / 8 == p / 8 { OrBit(bits[p / 8], p % 8, q % 8); }
    }
  }

  // ------------------------------------------------------------------
  // The filter
  // ------------------------------------------------------------------

  const LANES: nat := 8
  const SALT: seq<nat> := [0x47b55a47, 0x8e763453, 0x32a89235, 0x7f831979, 0x6b8d0ab9, 0x4d9487a3, 0x1d742df3, 0xa12f57bd]

  /** The two halves of the 128-bit hash. */
  datatype Hash = Hash(h1: nat, h2: nat)

  /** Bit that a lane sets: lines 157-162.  The position within the 256-bit block is taken modulo 32. */
  function BitPos(h: Hash, lane: nat): nat
    requires lane < LANES
  {
    SALT[lane] * (h.h2 % U32) % U32 % 32
  }

  function Position(h: Hash, numBlocks: nat, lane: nat): nat
    requires lane < LANES && numBlocks > 0
  {
    h.h1 % numBlocks * 32 * 8 + BitPos(h, lane)
  }

  function KeyBits(h: Hash, numBlocks: nat, lanes: nat): set<nat>
    requires numBlocks > 0 && lanes <= LANES
  {
    set lane: nat | lane < lanes :: Position(h, numBlocks, lane)
  }

  /** The salts modulo 32. */
  const RESIDUES: seq<nat> := [7, 19, 21, 25, 25, 3, 19, 29]

  lemma MulMod(a: nat, b: nat)
    ensures a * b % 32 == (a % 32) * (b % 32) % 32
  {
    ShiftMod(a / 32, a % 32, b);
    ShiftMod(b / 32, b % 32, a % 32);
    assert a * b == (32 * (a / 32) + a % 32) * b;
    assert b * (a % 32) == (a % 32) * b && (b % 32) * (a % 32) == (a % 32) * (b % 32);
  }

  /** Adding a multiple of 32 to a factor does not change a product modulo 32. */
  lemma ShiftMod(k: nat, x: nat, y: nat)
    ensures (32 * k + x) * y % 32 == x * y % 32
  {
    var z, w := k * y, x * y;
    assert (32 * k + x) * y == 32 * z + w;
  }

  lemma ModTwice(x: nat)
    ensures x % U32 % 32 == x % 32
  {
    var k := x / U32;
    assert x == 32 * (0x800_0000 * k) + x % U32;
  }

  /** The wrapping product and the modulus leave only the low five bits of the second hash. */
  lemma BitPosIs(h: Hash, lane: nat)
    requires lane < LANES
    ensures BitPos(h, lane) == RESIDUES[lane] * (h.h2 % 32) % 32
  {
    ModTwice(SALT[lane] * (h.h2 % U32));
    MulMod(SALT[lane], h.h2 % U32);
    ModTwice(h.h2);
    assert SALT[lane] % 32 == RESIDUES[lane];
  }

  /** The bit of a key for one of the residues. */
  function Bit(h: Hash, numBlocks: nat, residue: nat): nat
    requires numBlocks > 0
  {
    h.h1 % numBlocks * 256 + residue * (h.h2 % 32) % 32
  }

  /**
   Two of the residues occur twice, so a key never sets more than six bits; and which ones it sets depends on the
   low five bits of the second hash alone, so a block knows at most 32 kinds of keys.
   */
  lemma KeyBitsAre(h: Hash, numBlocks: nat)
    requires numBlocks > 0
    ensures KeyBits(h, numBlocks, LANES) ==
            {Bit(h, numBlocks, 3), Bit(h, numBlocks, 7), Bit(h, numBlocks, 19), Bit(h, numBlocks, 21), Bit(h, numBlocks, 25), Bit(h, numBlocks, 29)}
    ensures |KeyBits(h, numBlocks, LANES)| <= 6
  {
    hide BitPos, Bit;
    forall lane: nat | lane < LANES ensures Position(h, numBlocks, lane) == Bit(h, numBlocks, RESIDUES[lane]) { LaneBit(h, numBlocks, lane); }
    var bits := KeyBits(h, numBlocks, LANES);
    var six := {Bit(h, numBlocks, 3), Bit(h, numBlocks, 7), Bit(h, numBlocks, 19), Bit(h, numBlocks, 21), Bit(h, numBlocks, 25), Bit(h, numBlocks, 29)};
    assert Position(h, numBlocks, 0) in bits && Position(h, numBlocks, 1) in bits && Position(h, numBlocks, 2) in bits;
    assert Position(h, numBlocks, 3) in bits && Position(h, numBlocks, 5) in bits && Position(h, numBlocks, 7) in bits;
    assert bits == six;
  }

  lemma LaneBit(h: Hash, numBlocks: nat, lane: nat)
    requires lane < LANES && numBlocks > 0
    ensures Position(h, numBlocks, lane) == Bit(h, numBlocks, RESIDUES[lane])
  {
    BitPosIs(h, lane);
  }

  /** A filter cannot tell two keys of one block apart if their second hashes agree in the low five bits. */
  lemma SameLowBitsSameAnswer(f: Filter, a: Hash, b: Hash)
    requires FilterOk(f) && a.h1 % f.numBlocks == b.h1 % f.numBlocks && a.h2 % 32 == b.h2 % 32
    ensures MayHold(f, a) <==> MayHold(f, b)
  {
    hide KeyBits, Bit, SetBits;
    KeyBitsAre(a, f.numBlocks);
    KeyBitsAre(b, f.numBlocks);
    forall residue ensures Bit(a, f.numBlocks, residue) == Bit(b, f.numBlocks, residue) { SameBit(a, b, f.numBlocks, residue); }
  }

  lemma SameBit(a: Hash, b: Hash, numBlocks: nat, residue: nat)
    requires numBlocks > 0 && a.h1 % numBlocks == b.h1 % numBlocks && a.h2 % 32 == b.h2 % 32
    ensures Bit(a, numBlocks, residue) == Bit(b, numBlocks, residue)
  {
  }

  lemma PositionInBlock(h: Hash, numBlocks: nat, lane: nat)
    requires lane < LANES && numBlocks > 0
    ensures Position(h, numBlocks, lane) < 8 * (numBlocks * 32)
    ensures Position(h, numBlocks, lane) / 8 == h.h1 % numBlocks * 32 + BitPos(h, lane) / 8
    ensures Position(h, numBlocks, lane) % 8 == BitPos(h, lane) % 8
    ensures Position(h, numBlocks, lane) / 8 % 32 < 4
  {
  }

  /** The bit test of a lane looks at the bit of its position. */
  lemma LaneTest(h: Hash, numBlocks: nat, lane: nat, bits: seq<bv8>)
    requires lane < LANES && numBlocks > 0 && |bits| == numBlocks * 32
    ensures h.h1 % numBlocks * 32 + BitPos(h, lane) / 8 < |bits|
    ensures bits[h.h1 % numBlocks * 32 + BitPos(h, lane) / 8] & Mask(BitPos(h, lane) % 8) != 0
            <==> Position(h, numBlocks, lane) in SetBits(bits)
  {
    hide BitPos, Mask;
    PositionInBlock(h, numBlocks, lane);
  }

  /** A filter as a value: what bincode writes and reads. */
  datatype Filter = Filter(entries: nat, numBlocks: nat, bits: seq<bv8>)

  predicate FilterOk(f: Filter) {
    f.numBlocks > 0 && |f.bits| == f.numBlocks * 32
  }

  /** Every bit of the key is set: the filter cannot rule the key out. */
  ghost predicate MayHold(f: Filter, h: Hash)
    requires FilterOk(f)
  {
    KeyBits(h, f.numBlocks, LANES) <= SetBits(f.bits)
  }

  class SbbFilter {
    var entries: nat
    var numBlocks: nat
    var bits: seq<bv8>

    function State(): Filter
      reads this
    {
      Filter(entries, numBlocks, bits)
    }

    constructor (f: Filter)
      ensures State() == f
    {
      entries, numBlocks, bits := f.entries, f.numBlocks, f.bits;
    }

    /** `insert_hashes` (src/metadata/block_zone_map.rs:156). */
    method InsertHashes(h: Hash)
      requires FilterOk(State())
      modifies this
      ensures FilterOk(State()) && numBlocks == old(numBlocks) && entries == old(entries) + 1
      ensures SetBits(bits) == old(SetBits(bits)) + KeyBits(h, numBlocks, LANES)
    {
      hide SetBits;
      hide BitPos;
      var blockIdx := h.h1 % numBlocks;
      var offset := blockIdx * 32;
      assert KeyBits(h, numBlocks, 0) == {};
      for lane := 0 to LANES
        invariant numBlocks == old(numBlocks) && entries == old(entries) && FilterOk(State())
        invariant SetBits(bits) == old(SetBits(bits)) + KeyBits(h, numBlocks, lane)
      {
        var bitPos := BitPos(h, lane);
        PositionInBlock(h, numBlocks, lane);
        OrSetsOneBit(bits, Position(h, numBlocks, lane));
        assert KeyBits(h, numBlocks, lane + 1) == KeyBits(h, numBlocks, lane) + {Position(h, numBlocks, lane)};
        var i := offset + bitPos / 8;
        bits := bits[i := bits[i] | Mask(bitPos % 8)];
      }
      entries := entries + 1;
    }

    /** `might_contain_hashes` (src/metadata/block_zone_map.rs:174). */
    method MightContainHashes(h: Hash) returns (r: bool)
      requires FilterOk(State())
      ensures r <==> MayHold(State(), h)
    {
      hide BitPos, Position, SetBits, Mask;
      var offset := h.h1 % numBlocks * 32;
      for lane := 0 to LANES
        invariant forall k: nat :: k < lane ==> Position(h, numBlocks, k) in SetBits(bits)
      {
        var bitPos := BitPos(h, lane);
        LaneTest(h, numBlocks, lane, bits);
        if bits[offset + bitPos / 8] & Mask(bitPos % 8) == 0 {
          assert Position(h, numBlocks, lane) in KeyBits(h, numBlocks, LANES);
          return false;
        }
      }
      return true;
    }
  }

  // ------------------------------------------------------------------
  // A filter holds a set of keys
  // ------------------------------------------------------------------

  function EmptyFilter(numBlocks: nat): Filter {
    Filter(0, numBlocks, seq(numBlocks * 32, _ => 0 as bv8))
  }

  /** The bits that a set of keys sets. */
  function KeysBits(hash: Bytes -> Hash, keys: set<Bytes>, numBlocks: nat): set<nat>
    requires numBlocks > 0
  {
    set k, lane: nat | k in keys && lane < LANES :: Position(hash(k), numBlocks, lane)
  }

  /** The filter's bits are exactly those of the inserted keys. */
  ghost predicate HoldsExactly(f: Filter, hash: Bytes -> Hash, keys: set<Bytes>) {
    FilterOk(f) && SetBits(f.bits) == KeysBits(hash, keys, f.numBlocks)
  }

  lemma EmptyHoldsNothing(hash: Bytes -> Hash, numBlocks: nat)
    requires numBlocks > 0
    ensures HoldsExactly(EmptyFilter(numBlocks), hash, {})
  {
  }

  lemma OneMoreKey(hash: Bytes -> Hash, keys: set<Bytes>, k: Bytes, numBlocks: nat)
    requires numBlocks > 0
    ensures KeysBits(hash, keys + {k}, numBlocks) == KeysBits(hash, keys, numBlocks) + KeyBits(hash(k), numBlocks, LANES)
  {
  }

  /** Some inserted key sets the bit at position `p`. */
  ghost predicate SetByKey(hash: Bytes -> Hash, keys: set<Bytes>, numBlocks: nat, p: nat)
    requires numBlocks > 0
  {
    exists k, lane: nat :: k in keys && lane < LANES && Position(hash(k), numBlocks, lane) == p
  }

  /** The filter answers "maybe" exactly when each of the key's eight bits is set by some inserted key; so never "no" for an inserted one. */
  lemma AnswerMeaning(f: Filter, hash: Bytes -> Hash, keys: set<Bytes>, x: Bytes)
    requires HoldsExactly(f, hash, keys)
    ensures MayHold(f, hash(x)) <==> forall lane: nat :: lane < LANES ==> SetByKey(hash, keys, f.numBlocks, Position(hash(x), f.numBlocks, lane))
    ensures x in keys ==> MayHold(f, hash(x))
  {
    hide Position;
    var n := f.numBlocks;
    forall p ensures p in KeysBits(hash, keys, n) <==> p >= 0 && SetByKey(hash, keys, n, p) {
    }
    forall lane: nat | lane < LANES ensures Position(hash(x), n, lane) in KeyBits(hash(x), n, LANES) {
    }
  }

  /** Only the first four bytes of every 32-byte block are ever used. */
  lemma UpperBytesUnused(f: Filter, hash: Bytes -> Hash, keys: set<Bytes>, p: nat)
    requires HoldsExactly(f, hash, keys) && p in SetBits(f.bits)
    ensures p / 8 % 32 < 4
  {
    var k, lane: nat :| k in keys && lane < LANES && p == Position(hash(k), f.numBlocks, lane);
    PositionInBlock(hash(k), f.numBlocks, lane);
  }

  // ------------------------------------------------------------------
  // The manager
  // ------------------------------------------------------------------

  /** The bytes of one stored filter: either bincode of a filter or something that does not decode. */
  datatype Stored = Encoded(filter: Filter) | Corrupt

  class GranuleBloomFilterManager {
    const hash: Bytes -> Hash
    var granuleFilters: map<nat, Stored>
    var cache: map<nat, SbbFilter>

    /** Every key inserted so far, per granule. */
    ghost var inserted: map<nat, set<Bytes>>

    /** The filter objects created so far, and the granule each belongs to: no two granules share one. */
    ghost var repr: set<SbbFilter>
    ghost var owner: map<SbbFilter, nat>

    /** The filter that counts for a granule, the cached one before the stored one, holds its keys. */
    ghost predicate GranuleOk(g: nat)
      reads this, repr
    {
      && (g in inserted <==> g in cache || g in granuleFilters)
      && (g in cache ==> cache[g] in repr && cache[g] in owner && owner[cache[g]] == g)
      && (g in cache ==> HoldsExactly(cache[g].State(), hash, inserted[g]))
      && (g in granuleFilters && g !in cache ==>
            granuleFilters[g].Encoded? && HoldsExactly(granuleFilters[g].filter, hash, inserted[g]))
    }

    ghost predicate Valid()
      reads this, repr
    {
      forall g :: GranuleOk(g)
    }

    constructor (hash: Bytes -> Hash)
      ensures Valid() && inserted == map[] && granuleFilters == map[] && cache == map[] && this.hash == hash
      ensures repr == {}
    {
      this.hash := hash;
      repr, owner := {}, map[];
      granuleFilters, cache, inserted := map[], map[], map[];
    }

    ghost function Inserted(g: nat): set<Bytes>
      reads this
    {
      if g in inserted then inserted[g] else {}
    }

    /** `is_empty` looks at the serialised filters only. */
    predicate IsEmpty()
      reads this
    {
      granuleFilters == map[]
    }

    /** `insert_into_granule` (src/metadata/block_zone_map.rs:1051); `newBlocks` is the size chosen for a new filter. */
    method InsertIntoGranule(g: nat, newBlocks: nat, pk: Bytes)
      requires Valid() && newBlocks > 0
      modifies this, repr
      ensures Valid() && inserted == old(inserted)[g := old(Inserted(g)) + {pk}]
      ensures granuleFilters == old(granuleFilters)
      ensures fresh(repr - old(repr))
    {
      hide HoldsExactly;
      assert GranuleOk(g);
      if g !in cache { LoadIntoCache(g, newBlocks); }
      assert GranuleOk(g);
      InsertCached(g, pk);
    }

    method LoadIntoCache(g: nat, newBlocks: nat)
      requires Valid() && newBlocks > 0 && g !in cache
      modifies this
      ensures Valid() && inserted == old(inserted)[g := old(Inserted(g))]
      ensures granuleFilters == old(granuleFilters) && g in cache && cache[g] in repr
      ensures fresh(repr - old(repr)) && fresh(cache[g])
    {
      hide HoldsExactly, EmptyFilter;
      assert GranuleOk(g);
      EmptyHoldsNothing(hash, newBlocks);
      var f := if g in granuleFilters && granuleFilters[g].Encoded? then granuleFilters[g].filter else EmptyFilter(newBlocks);
      var bf := new SbbFilter(f);
      inserted := inserted[g := Inserted(g)];
      cache := cache[g := bf];
      repr, owner := repr + {bf}, owner[bf := g];
      forall k ensures GranuleOk(k) {
        assert old(GranuleOk(k));
      }
    }

    method InsertCached(g: nat, pk: Bytes)
      requires Valid() && g in cache && g in inserted && cache[g] in repr
      modifies this`inserted, cache[g]
      ensures Valid() && inserted == old(inserted)[g := old(inserted)[g] + {pk}]
    {
      hide SetBits;
      hide KeysBits;
      hide KeyBits;
      assert GranuleOk(g);
      var bf := cache[g];
      OneMoreKey(hash, inserted[g], pk, bf.numBlocks);
      bf.InsertHashes(hash(pk));
      inserted := inserted[g := inserted[g] + {pk}];
      forall k ensures GranuleOk(k) {
        assert old(GranuleOk(k));
      }
    }

    /** `flush_cache` (src/metadata/block_zone_map.rs:1084). */
    method FlushCache()
      requires Valid()
      modifies this
      ensures Valid() && inserted == old(inserted) && cache == map[] && repr == old(repr)
    {
      hide HoldsExactly;
      while cache != map[]
        invariant Valid() && inserted == old(inserted) && repr == old(repr)
        decreases |cache|
      {
        var g :| g in cache;
        FlushOne(g);
      }
    }

    method FlushOne(g: nat)
      requires Valid() && g in cache
      modifies this`granuleFilters, this`cache
      ensures Valid() && cache == old(cache) - {g} && |cache| < |old(cache)|
      ensures granuleFilters == old(granuleFilters)[g := Encoded(old(cache)[g].State())]
    {
      hide HoldsExactly;
      granuleFilters := granuleFilters[g := Encoded(cache[g].State())];
      var rest := cache - {g};
      assert cache.Keys == rest.Keys + {g} && |cache.Keys| == |rest.Keys| + 1;
      cache := rest;
      forall k ensures GranuleOk(k) {
        assert old(GranuleOk(k));
      }
    }

    /** The guard and the in-memory half of `save`, as `compact_segment` uses them (src/compaction/pdt_merge.rs:356-359). */
    method SaveUnlessEmpty() returns (saved: bool, file: map<nat, Stored>)
      requires Valid()
      modifies this
      ensures Valid() && inserted == old(inserted)
      ensures saved <==> !old(IsEmpty())
      ensures saved ==> cache == map[] && file == granuleFilters
      ensures !saved ==> file == map[] && cache == old(cache)
    {
      hide HoldsExactly;
      saved, file := false, map[];
      if !IsEmpty() {
        FlushCache();
        saved, file := true, granuleFilters;
      }
    }

    /** `get_granule_filter` (src/metadata/block_zone_map.rs:1331). */
    method GetGranuleFilter(g: nat) returns (r: Option<Filter>)
      requires Valid()
      ensures r.Some? <==> g in granuleFilters && granuleFilters[g].Encoded?
      ensures cache == map[] ==> (r.Some? <==> g in inserted)
      ensures cache == map[] && r.Some? ==> HoldsExactly(r.value, hash, inserted[g])
    {
      assert GranuleOk(g);
      if g in granuleFilters && granuleFilters[g].Encoded? {
        return Some(granuleFilters[g].filter);
      }
      return None;
    }
  }

  // ------------------------------------------------------------------
  // Whole runs
  // ------------------------------------------------------------------

  datatype BloomOp = Insert(granule: nat, newBlocks: nat, pk: Bytes) | Flush

  /** The keys inserted into a granule by a list of calls. */
  function KeysIn(ops: seq<BloomOp>, g: nat): set<Bytes> {
    set i: nat | i < |ops| && ops[i].Insert? && ops[i].granule == g :: ops[i].pk
  }

  predicate Uses(ops: seq<BloomOp>, g: nat) {
    exists i :: 0 <= i < |ops| && ops[i].Insert? && ops[i].granule == g
  }

  ghost predicate Mirrors(inserted: map<nat, set<Bytes>>, ops: seq<BloomOp>) {
    && (forall g :: g in inserted <==> Uses(ops, g))
    && (forall g :: g in inserted ==> inserted[g] == KeysIn(ops, g))
  }

  lemma MirrorsStep(inserted: map<nat, set<Bytes>>, ops: seq<BloomOp>, op: BloomOp)
    requires Mirrors(inserted, ops)
    ensures op.Flush? ==> Mirrors(inserted, ops + [op])
    ensures op.Insert? ==>
              Mirrors(inserted[op.granule := (if op.granule in inserted then inserted[op.granule] else {}) + {op.pk}], ops + [op])
  {
    var all := ops + [op];
    forall g ensures Uses(all, g) <==> Uses(ops, g) || (op.Insert? && op.granule == g) {
      if i :| 0 <= i < |ops| && ops[i].Insert? && ops[i].granule == g { assert all[i] == ops[i]; }
      if op.Insert? && op.granule == g { assert all[|ops|] == op; }
    }
    forall g ensures KeysIn(all, g) == KeysIn(ops, g) + if op.Insert? && op.granule == g then {op.pk} else {} {
      forall k | k in KeysIn(ops, g) ensures k in KeysIn(all, g) {
        var i: nat :| i < |ops| && ops[i].Insert? && ops[i].granule == g && ops[i].pk == k;
        assert all[i].pk == k;
      }
      if op.Insert? && op.granule == g { assert all[|ops|].pk == op.pk; }
    }
    forall g | g !in inserted ensures KeysIn(ops, g) == {} {
      assert !Uses(ops, g);
    }
  }

  /**
   After any interleaving of inserts and flushes that ends in a flush, the filter of a granule is there exactly
   when the granule got a key, and its bits are exactly those of the keys inserted into that granule.
   */
  method RunBloomOps(hash: Bytes -> Hash, ops: seq<BloomOp>, g: nat) returns (r: Option<Filter>)
    requires forall i :: 0 <= i < |ops| && ops[i].Insert? ==> ops[i].newBlocks > 0
    ensures r.Some? <==> Uses(ops, g)
    ensures r.Some? ==> HoldsExactly(r.value, hash, KeysIn(ops, g))
    ensures r.Some? ==> forall k :: k in KeysIn(ops, g) ==> MayHold(r.value, hash(k))
  {
    hide HoldsExactly;
    hide Mirrors;
    var manager := new GranuleBloomFilterManager(hash);
    StartMirrors();
    for i := 0 to |ops|
      invariant fresh(manager) && fresh(manager.repr) && manager.Valid() && manager.hash == hash
      invariant Mirrors(manager.inserted, ops[..i])
    {
      assert ops[..i + 1] == ops[..i] + [ops[i]];
      MirrorsStep(manager.inserted, ops[..i], ops[i]);
      match ops[i]
      case Insert(granule, newBlocks, pk) => manager.InsertIntoGranule(granule, newBlocks, pk);
      case Flush => manager.FlushCache();
    }
    assert ops[..|ops|] == ops;
    manager.FlushCache();
    r := manager.GetGranuleFilter(g);
    MirrorsMeaning(manager.inserted, ops, g);
    if r.Some? { AllHeld(r.value, hash, KeysIn(ops, g)); }
  }

  lemma StartMirrors()
    ensures Mirrors(map[], [])
  {
  }

  lemma MirrorsMeaning(inserted: map<nat, set<Bytes>>, ops: seq<BloomOp>, g: nat)
    requires Mirrors(inserted, ops)
    ensures g in inserted <==> Uses(ops, g)
    ensures g in inserted ==> inserted[g] == KeysIn(ops, g)
  {
  }

  lemma AllHeld(f: Filter, hash: Bytes -> Hash, keys: set<Bytes>)
    requires HoldsExactly(f, hash, keys)
    ensures FilterOk(f) && forall k :: k in keys ==> MayHold(f, hash(k))
  {
  }

  /**
   The Bloom part of `compact_segment` (src/compaction/pdt_merge.rs:212-372): fill a new manager batch by batch,
   then save it unless it is empty.  The emptiness test does not see the cache, so nothing is ever saved.
   */
  method BuildCompactionFilters(hash: Bytes -> Hash, newBlocks: nat, batches: seq<seq<Bytes>>) returns (saved: bool, file: map<nat, Stored>)
    requires newBlocks > 0
    ensures !saved && file == map[]
  {
    var manager := new GranuleBloomFilterManager(hash);
    for g := 0 to |batches|
      invariant fresh(manager) && fresh(manager.repr) && manager.Valid() && manager.granuleFilters == map[]
    {
      for i := 0 to |batches[g]|
        invariant fresh(manager) && fresh(manager.repr) && manager.Valid() && manager.granuleFilters == map[]
      {
        manager.InsertIntoGranule(g, newBlocks, batches[g][i]);
      }
    }
    saved, file := manager.SaveUnlessEmpty();
  }
}
