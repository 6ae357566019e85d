/**
 * The sharded open-addressing hash map from card bitmaps to hand values. The table is
 * `Count` shards of `Size` words each; a key and its value sit side by side in two
 * consecutive words. A key's home is `(key * 2) mod TotalSize`: its shard is that
 * index divided by `Size`, and probing moves two words at a time, wrapping around
 * inside that one shard. A key word of 0 marks a free slot; there is no delete, no
 * resize and no check for a key that is already present.
 *
 * The contents are described as values (a sequence of shards) by `Lookup` and
 * `Insert`; the class `HashMap` stores them in a `Count` by `Size` array and its
 * `Get` and `Set` are proved to compute exactly those functions.
 */
module HashMaps {
  import opened Wrappers
  import opened Factorization
  import opened Words

  /** 2^32: `uint` arithmetic wraps modulo this. */
  const UintLimit: nat := 0x1_0000_0000

  /** The largest shard the constructor accepts, in words. */
  const ShardLimit: nat := 10000000

  type Uint = n: nat | n < UintLimit

  // ---------------------------------------------------------------------------
  // Probing

  /** The home index of a key: `(key * 2) % TotalSize`, the product wrapping as a `ulong`. */
  function HomeIndex(key: Word, totalSize: nat): (index: nat)
    requires totalSize > 0
    ensures index < totalSize
    ensures totalSize % 2 == 0 ==> index % 2 == 0
  {
    var doubled := (key * 2) % WordLimit;
    assert doubled % 2 == 0 by { DivModUnique(key * 2, WordLimit, key * 2 / WordLimit, doubled); }
    EvenMod(doubled, totalSize);
    doubled % totalSize
  }

  /**
   * The slot looked at by probe `t`, a slot being the pair of words `2 * slot` (the key)
   * and `2 * slot + 1` (the value): probing starts at slot `start` and moves one slot,
   * two words, at a time, wrapping around at the end of the shard of `slots` slots.
   */
  function Probe(start: nat, t: nat, slots: nat): (slot: nat)
    requires start < slots
    ensures slot < slots
  {
    if t == 0 then start
    else
      var previous := Probe(start, t - 1, slots);
      if previous + 1 < slots then previous + 1 else 0
  }

  /** An even number stays even modulo an even number. */
  lemma EvenMod(a: nat, m: nat)
    requires m > 0
    ensures m % 2 == 0 && a % 2 == 0 ==> (a % m) % 2 == 0
  {
    if m % 2 == 0 && a % 2 == 0 {
      var q, r := a / m, a % m;
      var h := m / 2;
      assert a == (q * h) * 2 + r;
      DivModUnique(a, 2, q * h + r / 2, r % 2);
    }
  }

  lemma ModStep(x: nat, size: nat)
    requires size > 0 && size % 2 == 0
    ensures (x + 2) % size == if x % size + 2 < size then x % size + 2 else x % size + 2 - size
  {
    var q, r := x / size, x % size;
    if r + 2 < size {
      DivModUnique(x + 2, size, q, r + 2);
    } else {
      DivModUnique(x + 2, size, q + 1, r + 2 - size);
    }
  }

  lemma ModSmall(a: nat, size: nat)
    requires a < size
    ensures a % size == a
  {
    DivModUnique(a, size, 0, a);
  }

  /**
   * The word the source reads at probe `t`, `(index + 2 * t) % size` for the even home
   * index `index`, is the key word of slot `Probe((index % size) / 2, t, size / 2)`.
   */
  lemma {:induction false} ProbeMod(index: nat, t: nat, size: nat)
    requires size > 0 && size % 2 == 0 && index % 2 == 0
    ensures (index % size) / 2 < size / 2
    ensures (index + 2 * t) % size == 2 * Probe((index % size) / 2, t, size / 2)
  {
    EvenMod(index, size);
    if t > 0 {
      ProbeMod(index, t - 1, size);
      ModStep(index + 2 * (t - 1), size);
    }
  }

  /** The first `slots` probes, in closed form: slot `start + t`, wrapped once. */
  lemma {:induction false} ProbeBelow(start: nat, t: nat, slots: nat)
    requires start < slots && t < slots
    ensures Probe(start, t, slots) == if start + t < slots then start + t else start + t - slots
  {
    if t > 0 {
      ProbeBelow(start, t - 1, slots);
    }
  }

  /** Probing repeats after `slots` steps: the endless probe loop sees no other slots. */
  lemma {:induction false} ProbePeriodic(start: nat, t: nat, slots: nat)
    requires start < slots
    ensures Probe(start, t + slots, slots) == Probe(start, t, slots)
  {
    if t == 0 {
      ProbeBelow(start, slots - 1, slots);
    } else {
      ProbePeriodic(start, t - 1, slots);
    }
  }

  /** The first `slots` probes look at different slots: every slot is looked at once. */
  lemma ProbeDistinct(start: nat, t: nat, u: nat, slots: nat)
    requires start < slots && t < u < slots
    ensures Probe(start, t, slots) != Probe(start, u, slots)
  {
    ProbeBelow(start, t, slots);
    ProbeBelow(start, u, slots);
  }

  // ---------------------------------------------------------------------------
  // One shard

  /** A slot: the key word and the value word beside it. A key word of 0 marks a free slot. */
  datatype Slot = Slot(key: Word, value: Word)

  /** The slot looked at by probe `t` in a shard probed from slot `start`. */
  function SlotAt(shard: seq<Slot>, start: nat, t: nat): Slot
    requires start < |shard|
  {
    shard[Probe(start, t, |shard|)]
  }

  /**
   * The first probe number `u` in `[t, n)` whose key word is `target`, or `None` when
   * there is none.
   */
  function FirstProbe(shard: seq<Slot>, start: nat, target: Word, t: nat, n: nat): (r: Option<nat>)
    requires start < |shard| && t <= n
    ensures r.Some? ==> t <= r.value < n && SlotAt(shard, start, r.value).key == target
    ensures r.Some? ==> forall u :: t <= u < r.value ==> SlotAt(shard, start, u).key != target
    ensures r.None? ==> forall u :: t <= u < n ==> SlotAt(shard, start, u).key != target
    decreases n - t
  {
    if t == n then None
    else if SlotAt(shard, start, t).key == target then Some(t)
    else FirstProbe(shard, start, target, t + 1, n)
  }

  /** The probe number the scan for `target` stops at: the first match. */
  lemma FirstProbeUnique(shard: seq<Slot>, start: nat, target: Word, n: nat, u: nat)
    requires start < |shard| && u < n
    requires SlotAt(shard, start, u).key == target
    requires forall v :: 0 <= v < u ==> SlotAt(shard, start, v).key != target
    ensures FirstProbe(shard, start, target, 0, n) == Some(u)
  {
  }

  /** Two shards that agree, probe by probe, on whether the key word is `target` give the same scan. */
  lemma {:induction false} FirstProbeAgree(a: seq<Slot>, b: seq<Slot>, start: nat, target: Word, t: nat, n: nat)
    requires start < |a| == |b| && t <= n
    requires forall u :: t <= u < n ==> (SlotAt(a, start, u).key == target) == (SlotAt(b, start, u).key == target)
    ensures FirstProbe(a, start, target, t, n) == FirstProbe(b, start, target, t, n)
    decreases n - t
  {
    if t < n {
      FirstProbeAgree(a, b, start, target, t + 1, n);
    }
  }

  /**
   * A scan of the first `|shard|` probes that finds no `target` means no probe ever finds
   * it: the source's endless loop, on a key that is absent or a shard that is full.
   */
  lemma {:induction false} NeverFound(shard: seq<Slot>, start: nat, target: Word, t: nat)
    requires start < |shard| && FirstProbe(shard, start, target, 0, |shard|) == None
    ensures SlotAt(shard, start, t).key != target
    decreases t
  {
    if t >= |shard| {
      ProbePeriodic(start, t - |shard|, |shard|);
      NeverFound(shard, start, target, t - |shard|);
    }
  }

  /** The value beside the first probed key equal to `key`, if any. */
  function ShardLookup(shard: seq<Slot>, start: nat, key: Word): Option<Word>
    requires start < |shard|
  {
    match FirstProbe(shard, start, key, 0, |shard|)
    case None => None
    case Some(t) => Some(SlotAt(shard, start, t).value)
  }

  /** The first free slot of a shard, by probe number. */
  function FreeSlot(shard: seq<Slot>, start: nat): Option<nat>
    requires start < |shard|
  {
    FirstProbe(shard, start, 0, 0, |shard|)
  }

  /** Every probe before the key's slot finds an occupied slot: how a shard filled by writes keeps its keys. */
  predicate NoGap(shard: seq<Slot>, start: nat, key: Word)
    requires start < |shard|
  {
    var found := FirstProbe(shard, start, key, 0, |shard|);
    found.Some? ==> forall u :: 0 <= u < found.value ==> SlotAt(shard, start, u).key != 0
  }

  /**
   * Filling a free slot with another key leaves what a nonzero key reads, and whether
   * its probes before its slot all find occupied slots, as they were.
   */
  lemma PlaceOther(shard: seq<Slot>, slot: nat, key: Word, value: Word, start: nat, k: Word)
    requires start < |shard| && slot < |shard| && shard[slot].key == 0
    requires k != 0 && k != key
    ensures ShardLookup(shard[slot := Slot(key, value)], start, k) == ShardLookup(shard, start, k)
    ensures NoGap(shard, start, k) ==> NoGap(shard[slot := Slot(key, value)], start, k)
  {
    var placed := shard[slot := Slot(key, value)];
    forall u | 0 <= u < |shard|
      ensures (SlotAt(placed, start, u).key == k) == (SlotAt(shard, start, u).key == k)
      ensures SlotAt(shard, start, u).key != 0 ==> SlotAt(placed, start, u) == SlotAt(shard, start, u)
    {
    }
    FirstProbeAgree(shard, placed, start, k, 0, |shard|);
  }

  /** Filling the slot of probe `t` leaves the slots of the earlier probes as they were. */
  lemma PlaceKeepsEarlier(shard: seq<Slot>, start: nat, t: nat, key: Word, value: Word)
    requires start < |shard| && t < |shard|
    ensures var placed := shard[Probe(start, t, |shard|) := Slot(key, value)];
      && SlotAt(placed, start, t) == Slot(key, value)
      && forall u :: 0 <= u < t ==> SlotAt(placed, start, u) == SlotAt(shard, start, u)
  {
    forall u | 0 <= u < t
      ensures Probe(start, u, |shard|) != Probe(start, t, |shard|)
    {
      ProbeDistinct(start, u, t, |shard|);
    }
  }

  /** A key that is not found reads the value written into the first free slot, with no gap before it. */
  lemma PlaceNew(shard: seq<Slot>, start: nat, key: Word, value: Word)
    requires start < |shard| && FreeSlot(shard, start).Some?
    requires ShardLookup(shard, start, key) == None
    ensures var placed := shard[Probe(start, FreeSlot(shard, start).value, |shard|) := Slot(key, value)];
      ShardLookup(placed, start, key) == Some(value) && NoGap(placed, start, key)
  {
    var t := FreeSlot(shard, start).value;
    PlaceKeepsEarlier(shard, start, t, key, value);
    var placed := shard[Probe(start, t, |shard|) := Slot(key, value)];
    FirstProbeUnique(placed, start, key, |shard|, t);
  }

  /** A key already found, with no gap before it, reads the same after a second write of it. */
  lemma PlaceDuplicate(shard: seq<Slot>, start: nat, key: Word, value: Word)
    requires start < |shard| && FreeSlot(shard, start).Some?
    requires key != 0 && ShardLookup(shard, start, key).Some? && NoGap(shard, start, key)
    ensures var placed := shard[Probe(start, FreeSlot(shard, start).value, |shard|) := Slot(key, value)];
      ShardLookup(placed, start, key) == ShardLookup(shard, start, key) && NoGap(placed, start, key)
  {
    var t0 := FreeSlot(shard, start).value;
    var t1 := FirstProbe(shard, start, key, 0, |shard|).value;
    assert t1 < t0;
    PlaceKeepsEarlier(shard, start, t0, key, value);
    var placed := shard[Probe(start, t0, |shard|) := Slot(key, value)];
    FirstProbeUnique(placed, start, key, |shard|, t1);
  }

  // ---------------------------------------------------------------------------
  // The table as a value

  /** `count` shards of `slots` slots each (`size = 2 * slots` words). */
  predicate Shaped(d: seq<seq<Slot>>, count: nat, slots: nat) {
    && count > 0 && slots > 0
    && |d| == count
    && forall i :: 0 <= i < |d| ==> |d[i]| == slots
  }

  /** The words of a table of `count` shards of `slots` slots: a positive, even number. */
  function TableWords(count: nat, slots: nat): (total: nat)
    requires count > 0 && slots > 0
    ensures total > 0 && total % 2 == 0
  {
    var total := (2 * slots) * count;
    DivModUnique(total, 2, slots * count, 0);
    total
  }

  /** A word index of the table falls into one of its `count` shards. */
  lemma ShardBelow(index: nat, count: nat, slots: nat)
    requires count > 0 && slots > 0 && index < TableWords(count, slots)
    ensures index / (2 * slots) < count
  {
    DivModUnique(index, 2 * slots, index / (2 * slots), index % (2 * slots));
  }

  /** The shard a key lives in: its home index divided by the shard size in words. */
  function ShardOf(key: Word, count: nat, slots: nat): (s: nat)
    requires count > 0 && slots > 0
    ensures s < count
  {
    var index := HomeIndex(key, TableWords(count, slots));
    ShardBelow(index, count, slots);
    index / (2 * slots)
  }

  /** The slot of its shard where a key's probing starts: the home index modulo the shard size, in slots. */
  function Start(key: Word, count: nat, slots: nat): (start: nat)
    requires count > 0 && slots > 0
    ensures start < slots
  {
    var index := HomeIndex(key, TableWords(count, slots));
    ProbeMod(index, 0, 2 * slots);
    (index % (2 * slots)) / 2
  }

  /**
   * `this[key]` read: the value beside the first probed key equal to `key` in the key's
   * shard. `None` when no probe finds it: the source then probes forever (`ProbePeriodic`).
   */
  function Lookup(d: seq<seq<Slot>>, count: nat, slots: nat, key: Word): Option<Word>
    requires Shaped(d, count, slots)
  {
    ShardLookup(d[ShardOf(key, count, slots)], Start(key, count, slots), key)
  }

  /** The outcome of a write: the new contents and the number of occupied slots passed over. */
  datatype Insertion = Inserted(contents: seq<seq<Slot>>, skipped: nat) | Full

  /**
   * `this[key] = value`: the key and the value go into the first probed slot of the key's
   * shard whose key word is 0. `Full` when there is none: the source then probes forever.
   */
  function Insert(d: seq<seq<Slot>>, count: nat, slots: nat, key: Word, value: Word): (r: Insertion)
    requires Shaped(d, count, slots)
    ensures r.Inserted? ==> Shaped(r.contents, count, slots)
  {
    var s := ShardOf(key, count, slots);
    var start := Start(key, count, slots);
    match FreeSlot(d[s], start)
    case None => Full
    case Some(t) => Inserted(d[s := d[s][Probe(start, t, slots) := Slot(key, value)]], t)
  }

  /** The probes of `k` before its slot all find occupied slots. */
  predicate NoGapBefore(d: seq<seq<Slot>>, count: nat, slots: nat, k: Word)
    requires Shaped(d, count, slots)
  {
    NoGap(d[ShardOf(k, count, slots)], Start(k, count, slots), k)
  }

  /** The all-zero table of `count` shards of `slots` slots. */
  function Empty(count: nat, slots: nat): seq<seq<Slot>> {
    seq(count, i => seq(slots, j => Slot(0, 0)))
  }

  // ---------------------------------------------------------------------------
  // What reads see after writes

  /** A key that was not found is found after it is written, with the value written. */
  lemma LookupAfterInsert(d: seq<seq<Slot>>, count: nat, slots: nat, key: Word, value: Word)
    requires Shaped(d, count, slots)
    requires Lookup(d, count, slots, key) == None
    requires Insert(d, count, slots, key, value).Inserted?
    ensures Lookup(Insert(d, count, slots, key, value).contents, count, slots, key) == Some(value)
    ensures NoGapBefore(Insert(d, count, slots, key, value).contents, count, slots, key)
  {
    PlaceNew(d[ShardOf(key, count, slots)], Start(key, count, slots), key, value);
  }

  /**
   * Writing one key does not change what any other nonzero key reads, found or not,
   * nor whether its probes before its slot are all occupied.
   */
  lemma LookupOtherKey(d: seq<seq<Slot>>, count: nat, slots: nat, key: Word, value: Word, k: Word)
    requires Shaped(d, count, slots)
    requires Insert(d, count, slots, key, value).Inserted?
    requires k != 0 && k != key
    ensures Lookup(Insert(d, count, slots, key, value).contents, count, slots, k) == Lookup(d, count, slots, k)
    ensures NoGapBefore(d, count, slots, k) ==> NoGapBefore(Insert(d, count, slots, key, value).contents, count, slots, k)
  {
    var s := ShardOf(key, count, slots);
    var start := Start(key, count, slots);
    var t := FreeSlot(d[s], start).value;
    if ShardOf(k, count, slots) == s {
      PlaceOther(d[s], Probe(start, t, slots), key, value, Start(k, count, slots), k);
    }
  }

  /**
   * Writing a key that is already present, in a table with no free slot before it, does
   * not change what the key reads: the first write wins.
   */
  lemma LookupDuplicate(d: seq<seq<Slot>>, count: nat, slots: nat, key: Word, value: Word)
    requires Shaped(d, count, slots)
    requires key != 0 && Lookup(d, count, slots, key).Some? && NoGapBefore(d, count, slots, key)
    requires Insert(d, count, slots, key, value).Inserted?
    ensures Lookup(Insert(d, count, slots, key, value).contents, count, slots, key) == Lookup(d, count, slots, key)
    ensures NoGapBefore(Insert(d, count, slots, key, value).contents, count, slots, key)
  {
    PlaceDuplicate(d[ShardOf(key, count, slots)], Start(key, count, slots), key, value);
  }

  /** In the empty table no nonzero key is found, and no key has a gap before it. */
  lemma EmptyLookup(count: nat, slots: nat, k: Word)
    requires count > 0 && slots > 0
    ensures Shaped(Empty(count, slots), count, slots)
    ensures k != 0 ==> Lookup(Empty(count, slots), count, slots, k) == None
    ensures NoGapBefore(Empty(count, slots), count, slots, k)
  {
    var d := Empty(count, slots);
    assert Shaped(d, count, slots);
    var s := ShardOf(k, count, slots);
    var start := Start(k, count, slots);
    if k != 0 {
      assert FirstProbe(d[s], start, k, 0, slots) == None;
    }
  }

  // ---------------------------------------------------------------------------
  // Sizing

  /** 1, 2, 4, 8, ...: the shard counts the constructor tries. */
  predicate PowerOfTwo(n: nat)
    decreases n
  {
    n == 1 || (n >= 2 && n % 2 == 0 && PowerOfTwo(n / 2))
  }

  /** A quotient above 1 leaves room to double the divisor. */
  lemma DoubleBelow(total: nat, count: nat)
    requires count > 0 && total / count > 1
    ensures 2 * count <= total
  {
    DivModUnique(total, count, total / count, total % count);
  }

  /** One more doubling: still a power of two, below the words, and the same final count. */
  lemma CountStep(total: nat, count: nat)
    requires PowerOfTwo(count) && total / count > ShardLimit
    ensures PowerOfTwo(2 * count) && 2 * count <= total
    ensures CountFor(total, 2 * count) == CountFor(total, count)
  {
    DoubleBelow(total, count);
    assert (2 * count) / 2 == count;
  }

  /**
   * The shard count for `total` words: the smallest power of two that brings the words
   * per shard down to `ShardLimit`.
   */
  function CountFor(total: nat, count: nat): (c: nat)
    requires PowerOfTwo(count)
    ensures PowerOfTwo(c) && c >= count && total / c <= ShardLimit
    ensures c == count || total / (c / 2) > ShardLimit
    decreases total - count
  {
    if total / count > ShardLimit then
      DoubleBelow(total, count);
      CountFor(total, 2 * count)
    else count
  }

  /** The shard size, in words, as the source computes it: the words divided by the shard count. */
  function SourceShardSize(requested: Uint): nat {
    var total := (requested * 2) % UintLimit;
    total / CountFor(total, 1)
  }

  /**
   * The shard size of this model: the words divided by the shard count, rounded down to
   * an even number so that every key word has its value word in the same shard.
   */
  function ShardWords(total: nat): (words: nat)
    ensures words % 2 == 0 && words <= ShardLimit
    ensures words <= total / CountFor(total, 1) < words + 2
  {
    var q := total / CountFor(total, 1);
    q - q % 2
  }

  /** The rounded shards still hold all but fewer than two words per shard of the requested words. */
  lemma ShardCapacity(total: nat)
    ensures ShardWords(total) * CountFor(total, 1) + 2 * CountFor(total, 1) > total
  {
    Capacity(total, CountFor(total, 1), ShardWords(total));
  }

  /** Rounding a quotient down to even loses less than two per divisor. */
  lemma Capacity(total: nat, count: nat, size: nat)
    requires count > 0 && size <= total / count < size + 2
    ensures size * count + 2 * count > total
  {
    var q, r := total / count, total % count;
    DivModUnique(total, count, q, r);
    MulMonotone(q + 1, size + 2, count);
  }

  lemma MulMonotone(a: nat, b: nat, c: nat)
    requires a <= b
    ensures a * c <= b * c
  {
    assert b * c == a * c + (b - a) * c;
  }

  /**
   * The shard size as the source computes it can be odd: for 195927550 pairs (the
   * evaluator's default request, 156742040 hands times 1.25) the words are 391855100, the
   * shard count 64 and the shard size 6122735. The rounded size of this model is 6122734.
   */
  lemma OddSourceShardSize()
    ensures CountFor(391855100, 1) == 64
    ensures SourceShardSize(195927550) == 6122735 && SourceShardSize(195927550) % 2 == 1
    ensures ShardWords(391855100) == 6122734
  {
    var total := 391855100;
    assert CountFor(total, 1) == CountFor(total, 2) == CountFor(total, 4) == CountFor(total, 8);
    assert CountFor(total, 8) == CountFor(total, 16) == CountFor(total, 32) == CountFor(total, 64) == 64;
  }

  /**
   * With that odd shard size, key 3061367 has its home at the last word of shard 0: the
   * source reads or writes its value word one past the end of that shard's array.
   */
  lemma ValueWordOutsideShard()
    ensures var size := SourceShardSize(195927550);
      var index := HomeIndex(3061367, size * 64);
      index / size == 0 && index % size + 1 == size
  {
    OddSourceShardSize();
  }

  /** The outcome of a read or write that the source either returns from, loops in forever, or throws in. */
  datatype Outcome<+T> = Returned(value: T) | Unending | Faulted

  /** The slots of one shard's words: slot `j` is the key word `2 * j` and the value word `2 * j + 1`. */
  function SlotsOf(words: seq<Word>): (shard: seq<Slot>)
    ensures |shard| == |words| / 2
    ensures forall j :: 0 <= j < |shard| ==> shard[j] == Slot(words[2 * j], words[2 * j + 1])
  {
    seq(|words| / 2, j requires 0 <= j < |words| / 2 => Slot(words[2 * j], words[2 * j + 1]))
  }

  /** Writing a key and a value into the two words of slot `j` replaces that slot and no other. */
  lemma WriteSlot(words: seq<Word>, written: seq<Word>, j: nat, key: Word, value: Word)
    requires |written| == |words| && 2 * j + 1 < |words|
    requires written[2 * j] == key && written[2 * j + 1] == value
    requires forall k :: 0 <= k < |words| && k != 2 * j && k != 2 * j + 1 ==> written[k] == words[k]
    ensures SlotsOf(written) == SlotsOf(words)[j := Slot(key, value)]
  {
    forall k | 0 <= k < |words| / 2
      ensures SlotsOf(written)[k] == SlotsOf(words)[j := Slot(key, value)][k]
    {
    }
  }

  /**
   * Probe `t` from the even home index `home`, as the source computes it: the word
   * `index % |words|`, with `index = home + 2 * t`, is the key word of the slot that probe
   * looks at, and the value word follows it inside the shard.
   */
  lemma ProbeWord(words: seq<Word>, home: nat, start: nat, t: nat, index: nat)
    requires |words| > 0 && |words| % 2 == 0 && home % 2 == 0
    requires start == (home % |words|) / 2 && index == home + 2 * t
    ensures start < |words| / 2
    ensures var offset := index % |words|;
      && offset + 1 < |words| && offset == 2 * Probe(start, t, |words| / 2)
      && SlotAt(SlotsOf(words), start, t) == Slot(words[offset], words[offset + 1])
  {
    ProbeMod(home, t, |words|);
  }

  /** All words zero: all slots free. */
  lemma ZeroSlots(words: seq<Word>)
    requires forall k :: 0 <= k < |words| ==> words[k] == 0
    ensures SlotsOf(words) == seq(|words| / 2, j => Slot(0, 0))
  {
  }

  /**
   * The read loop on one shard, probing from the even word index `index`: the value beside
   * the first probed key word equal to `key`, or `None` once every slot has been looked at.
   */
  method FindKey(words: array<Word>, index: nat, key: Word) returns (r: Option<Word>)
    requires words.Length > 0 && words.Length % 2 == 0 && index % 2 == 0
    ensures (index % words.Length) / 2 < words.Length / 2
    ensures r == ShardLookup(SlotsOf(words[..]), (index % words.Length) / 2, key)
  {
    var size := words.Length;
    ghost var home := index;
    ghost var start := (home % size) / 2;
    ghost var shard := SlotsOf(words[..]);
    ProbeWord(words[..], home, start, 0, index);
    var index := index;
    var t := 0;
    while t < size / 2
      invariant t <= |shard| && index == home + 2 * t
      invariant FirstProbe(shard, start, key, 0, |shard|) == FirstProbe(shard, start, key, t, |shard|)
    {
      ProbeWord(words[..], home, start, t, index);
      var offset := index % size;
      if words[offset] == key {
        return Some(words[offset + 1]);
      }
      index := index + 2;
      t := t + 1;
    }
    return None;
  }

  /**
   * The write loop on one shard, probing from the even word index `index`: the key and the
   * value go into the first free slot, and the number of occupied slots passed over is
   * returned; `None`, and nothing written, when no slot is free.
   */
  method PlaceKey(words: array<Word>, index: nat, key: Word, value: Word) returns (skipped: Option<nat>)
    requires words.Length > 0 && words.Length % 2 == 0 && index % 2 == 0
    modifies words
    ensures (index % words.Length) / 2 < words.Length / 2
    ensures var start := (index % words.Length) / 2;
      var shard := SlotsOf(old(words[..]));
      skipped == FreeSlot(shard, start)
      && SlotsOf(words[..]) == match skipped
        case None => shard
        case Some(t) => shard[Probe(start, t, |shard|) := Slot(key, value)]
  {
    var size := words.Length;
    ghost var home := index;
    ghost var start := (home % size) / 2;
    ghost var unwritten := words[..];
    ghost var shard := SlotsOf(unwritten);
    ProbeWord(unwritten, home, start, 0, index);
    var index := index;
    var t := 0;
    while t < size / 2
      invariant t <= |shard| && index == home + 2 * t
      invariant words[..] == unwritten
      invariant FreeSlot(shard, start) == FirstProbe(shard, start, 0, t, |shard|)
    {
      ProbeWord(unwritten, home, start, t, index);
      var offset := index % size;
      if words[offset] == 0 {
        words[offset] := key;
        words[offset + 1] := value;
        WriteSlot(unwritten, words[..], Probe(start, t, size / 2), key, value);
        return Some(t);
      }
      index := index + 2;
      t := t + 1;
    }
    return None;
  }

  /** The constructor's doubling loop: the shard count for `total` words. */
  method ShardCount(total: nat) returns (shards: nat)
    ensures shards == CountFor(total, 1)
  {
    shards := 1;
    while total / shards > ShardLimit
      invariant PowerOfTwo(shards) && CountFor(total, shards) == CountFor(total, 1)
      decreases total - shards
    {
      CountStep(total, shards);
      shards := 2 * shards;
    }
  }

  /** The shard arrays the constructor allocates: `count` distinct new arrays of `size` zero words. */
  method NewShards(count: nat, size: nat) returns (shards: seq<array<Word>>)
    ensures |shards| == count
    ensures forall i :: 0 <= i < count ==> fresh(shards[i]) && shards[i].Length == size
    ensures forall i :: 0 <= i < count ==> SlotsOf(shards[i][..]) == seq(size / 2, j => Slot(0, 0))
    ensures forall i, j :: 0 <= i < j < count ==> shards[i] != shards[j]
  {
    shards := [];
    for i := 0 to count
      invariant |shards| == i
      invariant forall k :: 0 <= k < i ==> fresh(shards[k]) && shards[k].Length == size
      invariant forall k :: 0 <= k < i ==> SlotsOf(shards[k][..]) == seq(size / 2, j => Slot(0, 0))
      invariant forall k, l :: 0 <= k < l < i ==> shards[k] != shards[l]
    {
      var shard := new Word[size](j => 0);
      ZeroSlots(shard[..]);
      shards := shards + [shard];
    }
  }

  /**
   * The hash map: `count` shards, each an array of `size` words holding key words at even
   * offsets and value words right after them.
   */
  class HashMap {
    var size: nat
    var count: nat
    var totalSize: nat
    var data: seq<array<Word>>
    var misses: int

    /** The shape every map keeps: `count` distinct shards of the same even number of words. */
    predicate Valid()
      reads this
    {
      && count > 0 && |data| == count
      && size % 2 == 0 && totalSize == size * count
      && (forall i :: 0 <= i < count ==> data[i].Length == size)
      && (forall i, j :: 0 <= i < j < count ==> data[i] != data[j])
    }

    /** The table as shards of slots. */
    function Contents(): (d: seq<seq<Slot>>)
      reads this, data
    {
      seq(|data|, i requires 0 <= i < |data| reads this, data => SlotsOf(data[i][..]))
    }

    /**
     * `new HashMap(size)`: room for `requested` key-value pairs, split into the fewest
     * shards (a power of two) of at most `ShardLimit` words, all slots free. The shard
     * size is rounded down to an even number of words: `OddSourceShardSize` shows a request for
     * which `SourceShardSize`, the unrounded division, is odd and `ValueWordOutsideShard` what
     * that breaks.
     */
    constructor (requested: Uint)
      ensures Valid() && misses == 0
      ensures var total := (requested * 2) % UintLimit;
        count == CountFor(total, 1) && size == ShardWords(total)
      ensures Contents() == Empty(count, size / 2)
    {
      var total := (requested * 2) % UintLimit;
      var shards := ShardCount(total);
      // Size = TotalSize / Count, rounded down to an even number of words
      var words := ShardWords(total);
      var arrays := NewShards(shards, words);
      count := shards;
      size := words;
      totalSize := words * shards;
      data := arrays;
      misses := 0;
      new;
      assert Contents() == Empty(count, size / 2);
    }

    /** Where a key's probing starts: its home word index and the shard that index falls in. */
    method Locate(key: Word) returns (index: nat, subarray: nat)
      requires Valid() && totalSize > 0
      ensures subarray == ShardOf(key, count, size / 2) && subarray < count
      ensures index % 2 == 0 && (index % size) / 2 == Start(key, count, size / 2)
    {
      index := HomeIndex(key, totalSize);
      HomeOf(key, count, size);
      subarray := index / size;
    }

    /**
     * `this[key]` read: the value beside the first probed key word equal to `key` in the
     * key's shard. When no probe finds the key the source probes forever (`Unending`);
     * a map of no words divides by zero (`Faulted`).
     */
    method Get(key: Word) returns (r: Outcome<Word>)
      requires Valid()
      ensures totalSize == 0 ==> r == Faulted
      ensures totalSize > 0 ==> (Shaped(Contents(), count, size / 2)
        && r == match Lookup(Contents(), count, size / 2, key)
          case Some(v) => Returned(v)
          case None => Unending)
    {
      if totalSize == 0 {
        return Faulted;
      }
      var index, subarray := Locate(key);
      assert Shaped(Contents(), count, size / 2) && Contents()[subarray] == SlotsOf(data[subarray][..]);
      var found := FindKey(data[subarray], index, key);
      r := match found
        case Some(v) => Returned(v)
        case None => Unending;
    }

    /**
     * `this[key] = value`: the key and the value go into the first probed slot of the
     * key's shard whose key word is 0, and every occupied slot passed over counts as a
     * miss. With no free slot the source probes forever (`Unending`); a map of no words
     * divides by zero (`Faulted`).
     */
    method Set(key: Word, value: Word) returns (r: Outcome<()>)
      requires Valid()
      modifies this`misses, data
      ensures Valid()
      ensures totalSize == 0 ==> r == Faulted && Contents() == old(Contents()) && misses == old(misses)
      ensures totalSize > 0 ==> Shaped(old(Contents()), count, size / 2)
      ensures totalSize > 0 ==> var inserted := Insert(old(Contents()), count, size / 2, key, value);
        && (inserted.Full? ==> r == Unending && Contents() == old(Contents()) && misses == old(misses) + size / 2)
        && (inserted.Inserted? ==>
              r == Returned(()) && Contents() == inserted.contents && misses == old(misses) + inserted.skipped)
    {
      if totalSize == 0 {
        return Faulted;
      }
      var index, subarray := Locate(key);
      ghost var before := Contents();
      assert Shaped(before, count, size / 2) && before[subarray] == SlotsOf(data[subarray][..]);
      var skipped := PlaceKey(data[subarray], index, key, value);
      assert forall i :: 0 <= i < count && i != subarray ==> data[i][..] == old(data[i][..]);
      assert Contents() == before[subarray := SlotsOf(data[subarray][..])];
      InsertShard(before, count, size / 2, key, value, SlotsOf(data[subarray][..]), skipped);
      if skipped.Some? {
        misses := misses + skipped.value;
        r := Returned(());
      } else {
        misses := misses + size / 2;
        r := Unending;
      }
    }
  }

  /** `Insert` is the write loop run on the key's shard. */
  lemma InsertShard(d: seq<seq<Slot>>, count: nat, slots: nat, key: Word, value: Word,
                    written: seq<Slot>, skipped: Option<nat>)
    requires Shaped(d, count, slots)
    requires var s := ShardOf(key, count, slots);
      var start := Start(key, count, slots);
      && skipped == FreeSlot(d[s], start)
      && written == match skipped
        case None => d[s]
        case Some(t) => d[s][Probe(start, t, slots) := Slot(key, value)]
    ensures Insert(d, count, slots, key, value) == match skipped
      case None => Full
      case Some(t) => Inserted(d[ShardOf(key, count, slots) := written], t)
    ensures skipped == None ==> d[ShardOf(key, count, slots) := written] == d
  {
  }

  /** The shard and starting slot of a key, read off its home index in an even-sized table. */
  lemma HomeOf(key: Word, count: nat, size: nat)
    requires count > 0 && size > 0 && size % 2 == 0
    ensures size * count > 0 && (size * count) % 2 == 0
    ensures var index := HomeIndex(key, size * count);
      && index / size == ShardOf(key, count, size / 2)
      && (index % size) / 2 == Start(key, count, size / 2)
      && index % 2 == 0
  {
    assert 2 * (size / 2) == size;
    assert TableWords(count, size / 2) == size * count;
  }
}
