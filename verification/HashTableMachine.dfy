/** The hash table as an object that relinks its chains in place, and the generic hash and compare pair. */
module HashTableMachine {
  import opened Wrappers
  import opened Bits
  import opened HashTable

  method NewBuckets<K>(n: nat) returns (buckets: array<seq<Entry<K>>>)
    ensures fresh(buckets) && buckets.Length == n && buckets[..] == Empty<K>(n)
  {
    buckets := new seq<Entry<K>>[n](_ => []);
  }

  class HashTableRec<K(!new)> {
    const f: Keys<K>
    const keySize: nat
    const dataSize: nat
    var bits: nat
    var elements: nat
    var buckets: array<seq<Entry<K>>>

    ghost function View(): Table<K>
      reads this, buckets
    {
      Table(bits, elements, buckets[..])
    }

    ghost predicate IsValid()
      reads this, buckets
    {
      Lawful(f) && Valid(f, View())
    }

    /** ht_create, when its allocations succeed. */
    constructor (f: Keys<K>, keySize: nat, dataSize: nat)
      requires Lawful(f)
      ensures IsValid() && View() == Created<K>()
      ensures this.f == f && this.keySize == keySize && this.dataSize == dataSize && fresh(buckets)
    {
      CreatedValid(f);
      var created := Created<K>();
      var empty := NewBuckets<K>(Pow2(created.bits));
      this.f, this.keySize, this.dataSize := f, keySize, dataSize;
      bits, elements, buckets := created.bits, created.elements, empty;
      new;
      assert View() == created;
    }

    /** double_size: relinks every chain into a new array, or fails without a trace. */
    method DoubleSize(granted: bool) returns (done: bool)
      requires Lawful(f) && buckets.Length == Pow2(bits)
      modifies this`bits, this`buckets
      ensures done == granted
      ensures View() == if done then Doubled(f, old(View())) else old(View())
      ensures if done then fresh(buckets) else buckets == old(buckets)
    {
      if !granted {
        return false;
      }
      var newBits := bits + 1;
      var newBuckets := NewBuckets<K>(Pow2(newBits));
      var c := 0;
      while c < buckets.Length
        invariant c <= buckets.Length && newBuckets.Length == Pow2(newBits)
        invariant buckets == old(buckets) && buckets[..] == old(buckets[..])
        invariant MoveAll(f, buckets[..][c..], newBits, newBuckets[..])
               == MoveAll(f, old(buckets[..]), newBits, Empty(Pow2(newBits)))
      {
        RelinkChain(buckets[c], newBits, newBuckets);
        assert buckets[..][c..][0] == buckets[c] && buckets[..][c..][1..] == buckets[..][c + 1..];
        c := c + 1;
      }
      buckets, bits := newBuckets, newBits;
      return true;
    }

    /** Moves each entry of a chain to the head of its new chain. */
    method RelinkChain(chain: seq<Entry<K>>, newBits: nat, newBuckets: array<seq<Entry<K>>>)
      requires Lawful(f) && newBuckets.Length == Pow2(newBits)
      modifies newBuckets
      ensures newBuckets[..] == MoveChain(f, chain, newBits, old(newBuckets[..]))
    {
      var i := 0;
      while i < |chain|
        invariant i <= |chain|
        invariant MoveChain(f, chain[i..], newBits, newBuckets[..]) == MoveChain(f, chain, newBits, old(newBuckets[..]))
      {
        var b := f.hash(chain[i].key, newBits);
        ghost var before := newBuckets[..];
        newBuckets[b] := [chain[i]] + newBuckets[b];
        assert newBuckets[..] == before[b := [chain[i]] + before[b]];
        assert chain[i..][0] == chain[i] && chain[i..][1..] == chain[i + 1..];
        i := i + 1;
      }
    }

    /** ht_add: None stands for a null pointer. */
    method AddKey(k: K, a: Allocation) returns (r: Option<nat>)
      requires IsValid()
      modifies this`bits, this`elements, this`buckets, buckets
      ensures IsValid()
      ensures View() == HashTable.Add(f, old(View()), k, a, dataSize).0
      ensures r.Some? <==> HashTable.Add(f, old(View()), k, a, dataSize).1.Some?
      ensures r.Some? ==> a.key.Some? && r.value == if a.data.Some? then a.data.value else a.key.value + keySize
      ensures buckets == old(buckets) || fresh(buckets)
    {
      AddKeeps(f, View(), k, a, dataSize);
      if !Allocated(a, dataSize) {
        return None;
      }
      ghost var before := View();
      var e := Entry(k, a.key.value, a.data);
      LinkEntry(e);
      if elements > 4 * Pow2(bits) && bits < MAX_BITS {
        var done := DoubleSize(a.buckets);
        if !done {
          UnlinkHead(e, before);
          return None;
        }
      }
      return Some(Pointer(e, keySize));
    }

    method LinkEntry(e: Entry<K>)
      requires Lawful(f) && buckets.Length == Pow2(bits)
      modifies this`elements, buckets
      ensures View() == Linked(f, old(View()), e)
    {
      var b := f.hash(e.key, bits);
      buckets[b] := [e] + buckets[b];
      elements := elements + 1;
    }

    /** Takes the entry just linked out again. */
    method UnlinkHead(e: Entry<K>, ghost before: Table<K>)
      requires Lawful(f) && |before.buckets| == Pow2(before.bits)
      requires View() == Linked(f, before, e)
      modifies this`elements, buckets
      ensures View() == before
    {
      var b := f.hash(e.key, bits);
      assert bits == before.bits && |buckets[..]| == Pow2(bits) && b < Pow2(bits);
      elements := elements - 1;
      buckets[b] := buckets[b][1..];
      assert buckets[..] == before.buckets;
    }

    method Search(b: nat, k: K) returns (r: Option<nat>)
      requires b < buckets.Length
      ensures r == FirstMatch(f, buckets[b], k)
    {
      var i := 0;
      ghost var chain := buckets[b];
      while i < |buckets[b]|
        invariant i <= |chain|
        invariant FirstMatch(f, chain, k) ==
                  match FirstMatch(f, chain[i..], k) case None => None case Some(j) => Some(i + j)
      {
        assert chain[i..][0] == chain[i] && chain[i..][1..] == chain[i + 1..];
        if f.same(k, buckets[b][i].key) {
          return Some(i);
        }
        i := i + 1;
      }
      return None;
    }

    /** ht_remove */
    method RemoveKey(k: K)
      requires IsValid()
      modifies this`elements, buckets
      ensures IsValid()
      ensures View() == HashTable.Remove(f, old(View()), k)
    {
      RemoveKeeps(f, View(), k);
      var b := f.hash(k, bits);
      var found := Search(b, k);
      if found.Some? {
        CutKeeps(f, View(), b, found.value);
        UnlinkAt(b, found.value);
      }
    }

    method UnlinkAt(b: nat, i: nat)
      requires b < buckets.Length && i < |buckets[b]| && elements > 0
      modifies this`elements, buckets
      ensures View() == CutAt(old(View()), b, i)
    {
      buckets[b] := buckets[b][..i] + buckets[b][i + 1..];
      elements := elements - 1;
    }

    /** ht_find: None stands for a null pointer. */
    method FindKey(k: K) returns (r: Option<nat>)
      requires IsValid()
      ensures var found := HashTable.Find(f, View(), k);
              && (r.Some? <==> found.Some?)
              && (r.Some? && found.value.data.Some? ==> r.value == found.value.data.value)
              && (r.Some? && found.value.data.None? ==> r.value == found.value.keyAddress + keySize)
    {
      var b := f.hash(k, bits);
      var found := Search(b, k);
      if found.Some? {
        return Some(Pointer(buckets[b][found.value], keySize));
      }
      return None;
    }
  }

  // ---------- the generic hash and compare ----------

  /** A byte as the value of a C char, modulo 2^32. */
  function CharValue(b: byte, signedChar: bool): nat {
    if signedChar && b >= 128 then CARD32 - 256 + b else b
  }

  function Mix(h: nat, c: nat): nat {
    var h1 := (h + c) % CARD32;
    var h2 := (h1 + h1 * 1024) % CARD32;
    Xor(h2, h2 / 64)
  }

  function MixAll(data: seq<byte>, signedChar: bool): nat {
    if data == [] then 0 else Mix(MixAll(data[..|data| - 1], signedChar), CharValue(data[|data| - 1], signedChar))
  }

  function Finalize(h: nat): nat {
    var h1 := (h + h * 8) % CARD32;
    var h2 := Xor(h1, h1 / 2048);
    (h2 + h2 * 32768) % CARD32
  }

  /** one_at_a_time_hash over `data`. */
  function OneAtATime(data: seq<byte>, signedChar: bool): nat {
    Finalize(MixAll(data, signedChar))
  }

  lemma {:induction false} ShiftFive(a: nat)
    ensures Shift(a, 5) == a / 32
  {
    ShiftTwo(a);
    ShiftTwo(a / 4);
    ShiftSplit(a, 2, 2);
    ShiftSplit(a, 4, 1);
    assert Shift(a / 4 / 4, 1) == a / 4 / 4 / 2;
  }

  lemma {:induction false} ShiftTwo(a: nat)
    ensures Shift(a, 2) == a / 4
  {
    assert Shift(a / 2, 1) == a / 2 / 2;
  }

  lemma {:induction false} ShiftSix(a: nat, k: nat)
    ensures Bit(a / 64, k) <==> Bit(a, k + 6)
  {
    ShiftFive(a);
    assert Shift(a / 32, 1) == a / 64;
    ShiftBit(a / 32, 1, k);
    ShiftBit(a, 5, k + 1);
  }

  lemma {:induction false} ShiftEleven(a: nat, k: nat)
    ensures Bit(a / 2048, k) <==> Bit(a, k + 11)
  {
    ShiftFive(a);
    ShiftSix(a / 32, k);
    ShiftBit(a, 5, k + 6);
    assert a / 32 / 64 == a / 2048;
  }

  /** One mixing step in 32 bits: add the char, add the sum shifted up by 10, flip by it shifted down by 6. */
  lemma {:induction false} MixExactly(h: nat, c: nat, k: nat)
    ensures var sum := ((h + c) % 0x1_0000_0000) * 1025 % 0x1_0000_0000;
            Bit(Mix(h, c), k) <==> Bit(sum, k) != Bit(sum, k + 6)
  {
    var h1 := (h + c) % CARD32;
    var h2 := (h1 + h1 * 1024) % CARD32;
    XorBit(h2, h2 / 64, k);
    ShiftSix(h2, k);
  }

  /** The last step: add the hash shifted up by 3, flip by it shifted down by 11, add it shifted up by 15. */
  lemma {:induction false} FinalExactly(h: nat) returns (flipped: nat)
    ensures Finalize(h) == flipped * 32769 % 0x1_0000_0000
    ensures forall k: nat :: Bit(flipped, k) <==> Bit(h * 9 % 0x1_0000_0000, k) != Bit(h * 9 % 0x1_0000_0000, k + 11)
  {
    var h1 := (h + h * 8) % CARD32;
    flipped := Xor(h1, h1 / 2048);
    forall k: nat
      ensures Bit(flipped, k) <==> Bit(h1, k) != Bit(h1, k + 11)
    {
      XorBit(h1, h1 / 2048, k);
      ShiftEleven(h1, k);
    }
  }

  /** A char counts as the number it is in C, modulo 2^32. */
  lemma {:induction false} CharExactly(b: byte, signedChar: bool)
    ensures var number := if signedChar && b > 127 then b - 256 else b;
            CharValue(b, signedChar) == if number < 0 then number + 0x1_0000_0000 else number
  {
  }

  /** The bytes are mixed in one after the other, from zero. */
  lemma {:induction false} MixesInOrder(data: seq<byte>, b: byte, signedChar: bool)
    ensures MixAll([], signedChar) == 0
    ensures MixAll(data + [b], signedChar) == Mix(MixAll(data, signedChar), CharValue(b, signedChar))
  {
    assert (data + [b])[..|data|] == data;
  }

  /** The accumulator loop of one_at_a_time_hash. */
  method OneAtATimeLoop(data: seq<byte>, signedChar: bool) returns (hash: nat)
    ensures hash == OneAtATime(data, signedChar)
  {
    hash := 0;
    var i := 0;
    while i < |data|
      invariant i <= |data| && hash == MixAll(data[..i], signedChar)
    {
      hash := Mix(hash, CharValue(data[i], signedChar));
      assert data[..i + 1][..i] == data[..i];
      i := i + 1;
    }
    assert data[..i] == data;
    hash := Finalize(hash);
  }

  /** The bytes the hash and the comparison look at. */
  function Prefix(key: seq<byte>, keySize: nat): seq<byte> {
    if keySize <= |key| then key[..keySize] else key
  }

  function GenericHash(key: seq<byte>, keySize: nat, signedChar: bool, numBits: nat): nat {
    And(OneAtATime(Prefix(key, keySize), signedChar), Pow2(numBits) - 1)
  }

  function GenericKeys(keySize: nat, signedChar: bool): Keys<seq<byte>> {
    Keys((key, numBits) => GenericHash(key, keySize, signedChar, numBits),
         (l, r) => Prefix(l, keySize) == Prefix(r, keySize))
  }

  /** The generic pair meets what the table asks of its functions. */
  lemma {:induction false} GenericKeysLawful(keySize: nat, signedChar: bool)
    ensures Lawful(GenericKeys(keySize, signedChar)) && Equivalence(GenericKeys(keySize, signedChar))
  {
    var f := GenericKeys(keySize, signedChar);
    forall k, n
      ensures f.hash(k, n) < Pow2(n)
    {
      AndMask(OneAtATime(Prefix(k, keySize), signedChar), n);
    }
  }

  /** Keys are the same exactly when their first keySize bytes are; other bytes do not count. */
  lemma {:induction false} GenericSameExactly(keySize: nat, signedChar: bool, l: seq<byte>, r: seq<byte>)
    requires |l| >= keySize && |r| >= keySize
    ensures GenericKeys(keySize, signedChar).same(l, r) <==> forall i :: 0 <= i < keySize ==> l[i] == r[i]
  {
    if l[..keySize] == r[..keySize] {
      assert forall i :: 0 <= i < keySize ==> l[..keySize][i] == r[..keySize][i];
    }
  }

  lemma {:induction false} GenericHashSplits(key: seq<byte>, keySize: nat, signedChar: bool, n: nat)
    ensures || GenericHash(key, keySize, signedChar, n + 1) == GenericHash(key, keySize, signedChar, n)
            || GenericHash(key, keySize, signedChar, n + 1) == GenericHash(key, keySize, signedChar, n) + Pow2(n)
  {
    var h := OneAtATime(Prefix(key, keySize), signedChar);
    AndMask(h, n);
    AndMask(h, n + 1);
    LowSplits(h, n);
  }

  /** What doubling needs of a table; it holds of a table that is over its load, unlike Valid. */
  ghost predicate Doubles<K(!new)>(f: Keys<K>, t: Table<K>) {
    Lawful(f) && |t.buckets| == Pow2(t.bits) && Placed(f, t.buckets, t.bits)
  }

  /** The table that ht_add doubles: a valid table with one more entry linked. */
  lemma {:induction false} LinkedDoubles<K(!new)>(f: Keys<K>, t: Table<K>, e: Entry<K>)
    requires Lawful(f) && Valid(f, t)
    ensures Doubles(f, Linked(f, t, e))
  {
    LinkedKeeps(f, t, e);
  }

  /** An entry in bucket b after doubling was in the bucket its shorter hash names, and b is its longer hash. */
  lemma {:induction false} DoubledBucket<K(!new)>(f: Keys<K>, t: Table<K>, b: nat, e: Entry<K>)
    requires Doubles(f, t) && b < |Doubled(f, t).buckets| && e in Doubled(f, t).buckets[b]
    ensures f.hash(e.key, t.bits + 1) == b
    ensures e in t.buckets[f.hash(e.key, t.bits)]
  {
    var next := Doubled(f, t).buckets;
    DoubledKeeps(f, t);
    var i :| 0 <= i < |next[b]| && next[b][i] == e;
    assert f.hash(next[b][i].key, t.bits + 1) == b;
    InChainInEntries(next, b, e);
    var c := EntryBucket(t.buckets, e);
    var j :| 0 <= j < |t.buckets[c]| && t.buckets[c][j] == e;
    assert f.hash(t.buckets[c][j].key, t.bits) == c;
  }

  lemma {:induction false} InChainInEntries<K>(bs: seq<seq<Entry<K>>>, b: nat, e: Entry<K>)
    requires b < |bs| && e in bs[b]
    ensures e in Entries(bs)
  {
    EntriesUpdate(bs, b, []);
    assert e in multiset(bs[b]);
  }

  /** No entry of bucket c is lost by doubling. */
  lemma {:induction false} DoubledFinds<K(!new)>(f: Keys<K>, t: Table<K>, c: nat, e: Entry<K>) returns (b: nat)
    requires Doubles(f, t) && c < |t.buckets| && e in t.buckets[c]
    ensures b < |Doubled(f, t).buckets| && e in Doubled(f, t).buckets[b] && f.hash(e.key, t.bits) == c
  {
    DoubledKeeps(f, t);
    InChainInEntries(t.buckets, c, e);
    b := EntryBucket(Doubled(f, t).buckets, e);
    var i :| 0 <= i < |t.buckets[c]| && t.buckets[c][i] == e;
    assert f.hash(t.buckets[c][i].key, t.bits) == c;
  }

  /** A hash of one more bit either is the same or has that bit on top. */
  ghost predicate Extends<K(!new)>(f: Keys<K>, bits: nat) {
    forall k :: f.hash(k, bits + 1) == f.hash(k, bits) || f.hash(k, bits + 1) == f.hash(k, bits) + Pow2(bits)
  }

  /**
   Doubling splits bucket c into buckets c and c + 2^bits only: the entries of
   bucket c are exactly those of the two, and are in no other.
   */
  ghost predicate SplitInTwo<K>(before: seq<seq<Entry<K>>>, next: seq<seq<Entry<K>>>, c: nat, bits: nat, e: Entry<K>) {
    && c < |before| == Pow2(bits) && |next| == 2 * Pow2(bits)
    && (e in before[c] <==> e in next[c] || e in next[c + Pow2(bits)])
    && (e in before[c] ==> forall b :: 0 <= b < |next| && e in next[b] ==> b == c || b == c + Pow2(bits))
  }

  lemma {:induction false} DoublingSplits<K(!new)>(f: Keys<K>, t: Table<K>, c: nat, e: Entry<K>)
    requires Doubles(f, t) && Extends(f, t.bits) && c < |t.buckets|
    ensures SplitInTwo(t.buckets, Doubled(f, t).buckets, c, t.bits, e)
  {
    var next := Doubled(f, t).buckets;
    forall b: nat | b < |next| && e in next[b]
      ensures e in t.buckets[f.hash(e.key, t.bits)]
      ensures b == f.hash(e.key, t.bits) || b == f.hash(e.key, t.bits) + Pow2(t.bits)
    {
      DoubledBucket(f, t, b, e);
    }
    if e in t.buckets[c] {
      var b := DoubledFinds(f, t, c, e);
    }
  }

  lemma {:induction false} GenericExtends(keySize: nat, signedChar: bool, bits: nat)
    ensures Extends(GenericKeys(keySize, signedChar), bits)
  {
    forall key: seq<byte>
      ensures var f := GenericKeys(keySize, signedChar);
              f.hash(key, bits + 1) == f.hash(key, bits) || f.hash(key, bits + 1) == f.hash(key, bits) + Pow2(bits)
    {
      GenericHashSplits(key, keySize, signedChar, bits);
    }
  }

  /** With the generic pair, doubling splits each bucket in two. */
  lemma {:induction false} DoublingSplitsBucket(
    keySize: nat, signedChar: bool, t: Table<seq<byte>>, c: nat, e: Entry<seq<byte>>)
    requires |t.buckets| == Pow2(t.bits) && c < |t.buckets|
    requires Placed(GenericKeys(keySize, signedChar), t.buckets, t.bits)
    ensures Lawful(GenericKeys(keySize, signedChar))
    ensures SplitInTwo(t.buckets, Doubled(GenericKeys(keySize, signedChar), t).buckets, c, t.bits, e)
  {
    GenericKeysLawful(keySize, signedChar);
    GenericExtends(keySize, signedChar, t.bits);
    DoublingSplits(GenericKeys(keySize, signedChar), t, c, e);
  }

  /** What ht_add does to a valid table that its new entry overloads. */
  lemma {:induction false} AddDoubles<K(!new)>(f: Keys<K>, t: Table<K>, k: K, a: Allocation, dataSize: nat)
    requires Lawful(f) && Valid(f, t) && Allocated(a, dataSize) && a.buckets
    requires t.elements + 1 > 4 * Pow2(t.bits) && t.bits < MAX_BITS
    ensures var linked := Linked(f, t, Entry(k, a.key.value, a.data));
            && Doubles(f, linked) && linked.bits == t.bits
            && Add(f, t, k, a, dataSize).0 == Doubled(f, linked)
  {
    LinkedDoubles(f, t, Entry(k, a.key.value, a.data));
  }

  /** The same at the call ht_add makes, with the new entry among those that move. */
  lemma {:induction false} AddSplitsBuckets(
    keySize: nat, signedChar: bool, t: Table<seq<byte>>, k: seq<byte>, a: Allocation, dataSize: nat,
    c: nat, e: Entry<seq<byte>>)
    requires Valid(GenericKeys(keySize, signedChar), t) && Allocated(a, dataSize) && a.buckets && c < |t.buckets|
    requires t.elements + 1 > 4 * Pow2(t.bits) && t.bits < MAX_BITS
    ensures Lawful(GenericKeys(keySize, signedChar))
    ensures var f := GenericKeys(keySize, signedChar);
            SplitInTwo(Linked(f, t, Entry(k, a.key.value, a.data)).buckets, Add(f, t, k, a, dataSize).0.buckets, c,
                       t.bits, e)
  {
    var f := GenericKeys(keySize, signedChar);
    GenericKeysLawful(keySize, signedChar);
    GenericExtends(keySize, signedChar, t.bits);
    AddDoubles(f, t, k, a, dataSize);
    DoublingSplits(f, Linked(f, t, Entry(k, a.key.value, a.data)), c, e);
  }
}
