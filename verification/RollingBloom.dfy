/**
 * CRollingBloomFilter of src/bloom.cpp.
 *
 * Every filter position carries a generation 0 (unset), 1, 2 or 3, stored as two bits in two
 * 64-bit words: position (pair, bit) is bit `bit` of data[2 * pair] and data[2 * pair + 1].
 */
module RollingBloom {

  // ----- 64-bit words, least significant bit first -----

  type Word = w: seq<bool> | |w| == 64 witness seq(64, _ => false)

  function Fill(on: bool): Word { seq(64, _ => on) }
  function Xor(a: Word, b: Word): Word { seq(64, i requires 0 <= i < 64 => a[i] != b[i]) }
  function And(a: Word, b: Word): Word { seq(64, i requires 0 <= i < 64 => a[i] && b[i]) }
  function Or(a: Word, b: Word): Word { seq(64, i requires 0 <= i < 64 => a[i] || b[i]) }
  function Not(a: Word): Word { seq(64, i requires 0 <= i < 64 => !a[i]) }

  type BitIndex = k: int | 0 <= k < 64

  /** (uint64_t)on << bit */
  function Shifted(on: bool, bit: BitIndex): Word { seq(64, i requires 0 <= i < 64 => i == bit && on) }

  /** The generation stored at bit k of a pair of words. */
  function Generation(p1: Word, p2: Word, k: BitIndex): nat {
    (if p1[k] then 1 else 0) + (if p2[k] then 2 else 0)
  }

  /** The mask that keeps every bit whose generation is not `gen`; Fill is -(uint64_t) of a bit. */
  function KeepMask(p1: Word, p2: Word, gen: nat): Word {
    Or(Xor(p1, Fill(gen % 2 == 1)), Xor(p2, Fill(gen / 2 == 1)))
  }

  /** Masking wipes exactly the bits of generation `gen`. */
  lemma WipePair(p1: Word, p2: Word, gen: nat, k: BitIndex)
    requires 1 <= gen <= 3
    ensures var m := KeepMask(p1, p2, gen);
            Generation(And(p1, m), And(p2, m), k) == if Generation(p1, p2, k) == gen then 0 else Generation(p1, p2, k)
  {
    var m := KeepMask(p1, p2, gen);
    assert m[k] <==> p1[k] != (gen % 2 == 1) || p2[k] != (gen / 2 == 1);
  }

  /** Replace one bit of a word. */
  function SetBit(w: Word, bit: BitIndex, on: bool): Word { Or(And(w, Not(Shifted(true, bit))), Shifted(on, bit)) }

  lemma SetPair(p1: Word, p2: Word, bit: BitIndex, gen: nat, k: BitIndex)
    requires 1 <= gen <= 3
    ensures Generation(SetBit(p1, bit, gen % 2 == 1), SetBit(p2, bit, gen / 2 == 1), k) ==
            if k == bit then gen else Generation(p1, p2, k)
  {}

  // ----- the filter -----

  datatype Place = Place(pair: int, bit: int)

  predicate InRange(size: nat, pl: Place) { 0 <= pl.pair && 2 * pl.pair + 1 < size && 0 <= pl.bit < 64 }

  function GenAt(data: seq<Word>, pl: Place): nat
    requires InRange(|data|, pl)
  {
    Generation(data[2 * pl.pair], data[2 * pl.pair + 1], pl.bit)
  }

  /** The position that a 32-bit hash selects in a filter of `size` words. */
  function PlaceOf(h: nat, size: nat): (pl: Place)
    requires size > 0 && size % 2 == 0
    ensures InRange(size, pl)
  {
    Place(h / 64 % size / 2, h % 64)
  }

  /** The generation counter cycles through 1, 2, 3. */
  function Label(g: nat): nat { g % 3 + 1 }

  /**
   * The generation-per-position array the words stand for: stamp records in which generation
   * (counted from the last reset) a position was set last; it is readable for three generations.
   */
  ghost predicate Readable(data: seq<Word>, stamp: map<Place, nat>, cur: nat, pl: Place)
    requires InRange(|data|, pl)
  {
    GenAt(data, pl) == if pl in stamp && stamp[pl] + 2 >= cur then Label(stamp[pl]) else 0
  }

  ghost predicate Represents(data: seq<Word>, stamp: map<Place, nat>, cur: nat) {
    && (forall pl | pl in stamp :: stamp[pl] <= cur)
    && (forall pl | InRange(|data|, pl) :: Readable(data, stamp, cur, pl))
  }

  /** Wiping the positions of the next generation's label forgets exactly the oldest generation. */
  lemma WipeForgetsOldest(data: seq<Word>, data': seq<Word>, stamp: map<Place, nat>, cur: nat)
    requires Represents(data, stamp, cur) && |data'| == |data|
    requires forall pl | InRange(|data|, pl) ::
               GenAt(data', pl) == if GenAt(data, pl) == Label(cur + 1) then 0 else GenAt(data, pl)
    ensures Represents(data', stamp, cur + 1)
  {
    forall pl | InRange(|data'|, pl) ensures Readable(data', stamp, cur + 1, pl) {
      assert Readable(data, stamp, cur, pl);
      if pl in stamp && stamp[pl] + 2 >= cur {
        assert stamp[pl] == cur || stamp[pl] + 1 == cur || stamp[pl] + 2 == cur;
      }
    }
  }

  lemma SetStamps(data: seq<Word>, data': seq<Word>, stamp: map<Place, nat>, cur: nat, at: Place)
    requires Represents(data, stamp, cur) && |data'| == |data| && InRange(|data|, at)
    requires forall pl | InRange(|data|, pl) :: GenAt(data', pl) == if pl == at then Label(cur) else GenAt(data, pl)
    ensures Represents(data', stamp[at := cur], cur)
  {
    forall pl | InRange(|data'|, pl) ensures Readable(data', stamp[at := cur], cur, pl) {
      assert Readable(data, stamp, cur, pl);
    }
  }

  predicate StampedSince(stamp: map<Place, nat>, pl: Place, g: int) { pl in stamp && stamp[pl] >= g }

  /** All k positions of a key were set in generation g or later. */
  ghost predicate SetSince<Key>(hash: (nat, Key) -> nat, size: nat, k: nat, stamp: map<Place, nat>, key: Key, g: int)
    requires size > 0 && size % 2 == 0
  {
    forall n: nat | n < k :: StampedSince(stamp, PlaceOf(hash(n, key), size), g)
  }

  /** The same for all items from index lo on. */
  ghost predicate SetFrom<Key>(hash: (nat, Key) -> nat, size: nat, k: nat, stamp: map<Place, nat>, items: seq<Key>,
                               lo: int, g: int)
    requires size > 0 && size % 2 == 0
  {
    forall i | 0 <= i < |items| && lo <= i :: SetSince(hash, size, k, stamp, items[i], g)
  }

  ghost predicate Grows(stamp: map<Place, nat>, stamp': map<Place, nat>) {
    forall pl | pl in stamp :: pl in stamp' && stamp'[pl] >= stamp[pl]
  }

  /** Later stamps keep what was set, and a key stamped now extends the list. */
  lemma Extend<Key>(hash: (nat, Key) -> nat, size: nat, k: nat, stamp: map<Place, nat>, stamp': map<Place, nat>,
                    items: seq<Key>, key: Key, lo: int, g: int)
    requires size > 0 && size % 2 == 0
    requires SetFrom(hash, size, k, stamp, items, lo, g) && Grows(stamp, stamp') && SetSince(hash, size, k, stamp', key, g)
    ensures SetFrom(hash, size, k, stamp', items + [key], lo, g)
  {
    forall i | 0 <= i < |items + [key]| && lo <= i ensures SetSince(hash, size, k, stamp', (items + [key])[i], g) {
      if i < |items| {
        assert SetSince(hash, size, k, stamp, items[i], g);
        forall n: nat | n < k ensures StampedSince(stamp', PlaceOf(hash(n, items[i]), size), g) {
          assert StampedSince(stamp, PlaceOf(hash(n, items[i]), size), g);
        }
      }
    }
  }

  lemma Weaken<Key>(hash: (nat, Key) -> nat, size: nat, k: nat, stamp: map<Place, nat>, key: Key, g: int, g': int)
    requires size > 0 && size % 2 == 0
    requires SetSince(hash, size, k, stamp, key, g) && g' <= g
    ensures SetSince(hash, size, k, stamp, key, g')
  {
    forall n: nat | n < k ensures StampedSince(stamp, PlaceOf(hash(n, key), size), g') {
      assert StampedSince(stamp, PlaceOf(hash(n, key), size), g);
    }
  }

  class RollingBloomFilter<Key(!new)> {
    const nEntriesPerGeneration: nat
    const nHashFuncs: nat
    const data: array<Word>
    var nEntriesThisGeneration: nat
    var nGeneration: nat
    /** RollingBloomHash with the current nTweak. */
    var hash: (nat, Key) -> nat
    ghost var items: seq<Key>
    ghost var cur: nat
    ghost var stamp: map<Place, nat>

    /** The index of the first item that is `generations` older than the current generation. */
    ghost function Start(generations: nat): int
      requires generations <= 2
      reads this
    {
      |items| - nEntriesThisGeneration
        - (if generations == 0 then 0 else if generations == 1 then nEntriesPerGeneration else 2 * nEntriesPerGeneration)
    }

    ghost predicate ItemsSince(generations: nat)
      requires generations <= 2 && data.Length > 0 && data.Length % 2 == 0
      reads this
    {
      SetFrom(hash, data.Length, nHashFuncs, stamp, items, Start(generations), cur - generations)
    }

    ghost predicate Valid()
      reads this, data
    {
      && data.Length > 0 && data.Length % 2 == 0
      && nGeneration == Label(cur)
      && Represents(data[..], stamp, cur)
      && ItemsSince(0) && ItemsSince(1) && ItemsSince(2)
    }

    /** A filter for the last nElements items; nHashFuncs and the number of word pairs come from the false-positive rate. */
    constructor (nElements: nat, nHashFuncs: nat, pairs: nat, hash: (nat, Key) -> nat)
      requires pairs > 0
      ensures Valid() && fresh(data) && items == []
      ensures nElements <= 2 * nEntriesPerGeneration <= nElements + 1
    {
      nEntriesPerGeneration := (nElements + 1) / 2;
      this.nHashFuncs, this.hash := nHashFuncs, hash;
      data := new Word[2 * pairs](_ => Fill(false));
      nEntriesThisGeneration, nGeneration := 0, 1;
      items, cur, stamp := [], 0, map[];
    }

    /** Forget everything and draw a new tweak, that is, new hash functions. */
    method Reset(hash: (nat, Key) -> nat)
      requires Valid()
      modifies this, data
      ensures Valid() && items == []
    {
      this.hash := hash;
      nEntriesThisGeneration, nGeneration := 0, 1;
      for p := 0 to data.Length
        modifies data
        invariant forall i | 0 <= i < p :: data[i] == Fill(false)
      {
        data[p] := Fill(false);
      }
      items, cur, stamp := [], 0, map[];
    }

    /** The mask loop of insert. */
    method Wipe(gen: nat)
      requires data.Length % 2 == 0 && 1 <= gen <= 3
      modifies data
      ensures forall pl | InRange(data.Length, pl) ::
                GenAt(data[..], pl) == if old(GenAt(data[..], pl)) == gen then 0 else old(GenAt(data[..], pl))
    {
      ghost var before := data[..];
      var p := 0;
      while p < data.Length
        invariant 0 <= p <= data.Length && p % 2 == 0
        invariant forall i | p <= i < data.Length :: data[i] == before[i]
        invariant forall pl | InRange(data.Length, pl) && 2 * pl.pair < p ::
                    GenAt(data[..], pl) == if GenAt(before, pl) == gen then 0 else GenAt(before, pl)
      {
        var p1, p2 := data[p], data[p + 1];
        var mask := KeepMask(p1, p2, gen);
        ghost var now := data[..];
        data[p] := And(p1, mask);
        data[p + 1] := And(p2, mask);
        forall pl | InRange(data.Length, pl) && 2 * pl.pair < p + 2
          ensures GenAt(data[..], pl) == if GenAt(before, pl) == gen then 0 else GenAt(before, pl)
        {
          if 2 * pl.pair == p {
            WipePair(p1, p2, gen, pl.bit);
          } else {
            assert GenAt(data[..], pl) == GenAt(now, pl);
          }
        }
        p := p + 2;
      }
    }

    /** Set one position to the current generation. */
    method SetPlace(pl: Place)
      requires InRange(data.Length, pl) && 1 <= nGeneration <= 3
      modifies data
      ensures forall q | InRange(data.Length, q) ::
                GenAt(data[..], q) == if q == pl then nGeneration else old(GenAt(data[..], q))
    {
      var lo, hi := 2 * pl.pair, 2 * pl.pair + 1;
      ghost var p1, p2 := data[lo], data[hi];
      ghost var before := data[..];
      data[lo] := SetBit(data[lo], pl.bit, nGeneration % 2 == 1);
      data[hi] := SetBit(data[hi], pl.bit, nGeneration / 2 == 1);
      forall q | InRange(data.Length, q)
        ensures GenAt(data[..], q) == if q == pl then nGeneration else GenAt(before, q)
      {
        if q.pair == pl.pair { SetPair(p1, p2, pl.bit, nGeneration, q.bit); }
      }
    }

    /** The rollover: wipe the label of the oldest generation and make it the current one. */
    method NextLabel()
      requires data.Length > 0 && data.Length % 2 == 0
      requires nGeneration == Label(cur) && Represents(data[..], stamp, cur)
      modifies this`nGeneration, this`cur, data
      ensures cur == old(cur) + 1 && nGeneration == Label(cur) && Represents(data[..], stamp, cur)
    {
      ghost var before := data[..];
      nGeneration := nGeneration + 1;
      if nGeneration == 4 {
        nGeneration := 1;
      }
      assert nGeneration == Label(cur + 1);
      Wipe(nGeneration);
      WipeForgetsOldest(before, data[..], stamp, cur);
      cur := cur + 1;
    }

    method NextGeneration()
      requires Valid() && nEntriesThisGeneration == nEntriesPerGeneration
      modifies this, data
      ensures Valid() && nEntriesThisGeneration == 0 && items == old(items) && hash == old(hash)
    {
      NextLabel();
      nEntriesThisGeneration := 0;
      assert Start(1) == old(Start(0)) && Start(2) == old(Start(1));
    }

    /** The hash loop of insert. */
    method SetPlaces(key: Key)
      requires data.Length > 0 && data.Length % 2 == 0 && nGeneration == Label(cur)
      requires Represents(data[..], stamp, cur)
      modifies this`stamp, data
      ensures Represents(data[..], stamp, cur)
      ensures SetSince(hash, data.Length, nHashFuncs, stamp, key, cur)
      ensures Grows(old(stamp), stamp)
    {
      for n := 0 to nHashFuncs
        invariant Represents(data[..], stamp, cur)
        invariant SetSince(hash, data.Length, n, stamp, key, cur)
        invariant Grows(old(stamp), stamp)
      {
        SetOne(n, key);
      }
    }

    method SetOne(n: nat, key: Key)
      requires data.Length > 0 && data.Length % 2 == 0 && nGeneration == Label(cur)
      requires Represents(data[..], stamp, cur) && SetSince(hash, data.Length, n, stamp, key, cur)
      modifies this`stamp, data
      ensures Represents(data[..], stamp, cur)
      ensures SetSince(hash, data.Length, n + 1, stamp, key, cur)
      ensures Grows(old(stamp), stamp)
    {
      var pl := PlaceOf(hash(n, key), data.Length);
      ghost var before := data[..];
      SetPlace(pl);
      SetStamps(before, data[..], stamp, cur, pl);
      stamp := stamp[pl := cur];
      forall m: nat | m < n + 1 ensures StampedSince(stamp, PlaceOf(hash(m, key), data.Length), cur) {
        if m < n { assert StampedSince(old(stamp), PlaceOf(hash(m, key), data.Length), cur); }
      }
    }

    method Insert(key: Key)
      requires Valid()
      modifies this, data
      ensures Valid() && items == old(items) + [key] && hash == old(hash)
      ensures nEntriesThisGeneration ==
        (if old(nEntriesThisGeneration) == nEntriesPerGeneration then 0 else old(nEntriesThisGeneration)) + 1
    {
      if nEntriesThisGeneration == nEntriesPerGeneration {
        NextGeneration();
      }
      Record(key);
    }

    method Record(key: Key)
      requires Valid()
      modifies this, data
      ensures Valid() && items == old(items) + [key] && hash == old(hash)
      ensures nEntriesThisGeneration == old(nEntriesThisGeneration) + 1
    {
      nEntriesThisGeneration := nEntriesThisGeneration + 1;
      SetPlaces(key);
      ExtendAll(old(stamp), old(items), key, old(Start(0)), old(Start(1)), old(Start(2)));
      items := items + [key];
    }

    lemma ExtendAll(before: map<Place, nat>, earlier: seq<Key>, key: Key, lo0: int, lo1: int, lo2: int)
      requires data.Length > 0 && data.Length % 2 == 0
      requires Grows(before, stamp) && SetSince(hash, data.Length, nHashFuncs, stamp, key, cur)
      requires SetFrom(hash, data.Length, nHashFuncs, before, earlier, lo0, cur)
      requires SetFrom(hash, data.Length, nHashFuncs, before, earlier, lo1, cur - 1)
      requires SetFrom(hash, data.Length, nHashFuncs, before, earlier, lo2, cur - 2)
      ensures SetFrom(hash, data.Length, nHashFuncs, stamp, earlier + [key], lo0, cur)
      ensures SetFrom(hash, data.Length, nHashFuncs, stamp, earlier + [key], lo1, cur - 1)
      ensures SetFrom(hash, data.Length, nHashFuncs, stamp, earlier + [key], lo2, cur - 2)
    {
      Weaken(hash, data.Length, nHashFuncs, stamp, key, cur, cur - 1);
      Weaken(hash, data.Length, nHashFuncs, stamp, key, cur, cur - 2);
      Extend(hash, data.Length, nHashFuncs, before, stamp, earlier, key, lo0, cur);
      Extend(hash, data.Length, nHashFuncs, before, stamp, earlier, key, lo1, cur - 1);
      Extend(hash, data.Length, nHashFuncs, before, stamp, earlier, key, lo2, cur - 2);
    }

    ghost predicate Marked(key: Key, n: nat)
      requires data.Length > 0 && data.Length % 2 == 0
      reads this, data
    {
      GenAt(data[..], PlaceOf(hash(n, key), data.Length)) != 0
    }

    /**
     * Whether all positions of the key carry a generation.  That is always so for each of the
     * last 2 * nEntriesPerGeneration + nEntriesThisGeneration items inserted: no false negatives.
     */
    method Contains(key: Key) returns (found: bool)
      requires Valid()
      ensures found <==> forall n: nat | n < nHashFuncs :: Marked(key, n)
      ensures (exists i | 0 <= i < |items| && Start(2) <= i :: items[i] == key) ==> found
    {
      if i :| 0 <= i < |items| && Start(2) <= i && items[i] == key {
        RecentIsMarked(i);
      }
      for n := 0 to nHashFuncs
        invariant forall m: nat | m < n :: Marked(key, m)
      {
        var pl := PlaceOf(hash(n, key), data.Length);
        if !Or(data[2 * pl.pair], data[2 * pl.pair + 1])[pl.bit] {
          assert !Marked(key, n);
          return false;
        }
        assert Marked(key, n);
      }
      return true;
    }

    lemma RecentIsMarked(i: nat)
      requires Valid() && Start(2) <= i < |items|
      ensures forall n: nat | n < nHashFuncs :: Marked(items[i], n)
    {
      forall n: nat | n < nHashFuncs ensures Marked(items[i], n) {
        var pl := PlaceOf(hash(n, items[i]), data.Length);
        assert StampedSince(stamp, pl, cur - 2);
        assert Readable(data[..], stamp, cur, pl);
      }
    }
  }

  /** The header's promise for a filter built for nElements: an item is found after fewer than nElements later insertions. */
  method InsertAll<Key(!new, ==)>(f: RollingBloomFilter<Key>, keys: seq<Key>, nElements: nat) returns (found: bool)
    requires f.Valid() && keys != [] && |keys| <= nElements <= 2 * f.nEntriesPerGeneration
    modifies f, f.data
    ensures f.Valid() && found
  {
    for i := 0 to |keys|
      invariant f.Valid() && |f.items| == |old(f.items)| + i
      invariant forall j | 0 <= j < i :: f.items[|old(f.items)| + j] == keys[j]
    {
      f.Insert(keys[i]);
    }
    assert f.items[|old(f.items)|] == keys[0];
    found := f.Contains(keys[0]);
  }
}
