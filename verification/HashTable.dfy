/**
 The chained hash table that doubles its bucket array as it fills. Chains are
 sequences with the head first; an allocation may fail at any point.
 */
module HashTable {
  import opened Wrappers
  import opened Bits

  const INIT_BITS := 6
  const MAX_BITS := 11

  /** How a table hashes and compares its keys. */
  datatype Keys<!K> = Keys(hash: (K, nat) -> nat, same: (K, K) -> bool)

  /** Keys that compare equal hash equally, and a hash of n bits is below 2^n. */
  ghost predicate Lawful<K(!new)>(f: Keys<K>) {
    && (forall k, l, n :: f.same(k, l) ==> f.hash(k, n) == f.hash(l, n))
    && (forall k, n :: f.hash(k, n) < Pow2(n))
  }

  /** Comparing equal is an equivalence. */
  ghost predicate Equivalence<K(!new)>(f: Keys<K>) {
    && (forall k :: f.same(k, k))
    && (forall k, l :: f.same(k, l) ==> f.same(l, k))
    && (forall k, l, m :: f.same(k, l) && f.same(k, m) ==> f.same(l, m))
  }

  /** A chain element: its key, where the key's copy lives, and its data unless that is null. */
  datatype Entry<K> = Entry(key: K, keyAddress: nat, data: Option<nat>)

  /** The pointer handed out for an entry: its data, or the end of its key. */
  function Pointer<K>(e: Entry<K>, keySize: nat): nat {
    match e.data case Some(d) => d case None => e.keyAddress + keySize
  }

  datatype Table<K> = Table(bits: nat, elements: nat, buckets: seq<seq<Entry<K>>>)

  /** What the allocations of one add return. */
  datatype Allocation = Allocation(element: bool, key: Option<nat>, data: Option<nat>, buckets: bool)

  // ---------- contents ----------

  ghost function Entries<K>(bs: seq<seq<Entry<K>>>): multiset<Entry<K>> {
    if bs == [] then multiset{} else multiset(bs[0]) + Entries(bs[1..])
  }

  /** Every entry is in the bucket its hash names. */
  ghost predicate Placed<K(!new)>(f: Keys<K>, bs: seq<seq<Entry<K>>>, bits: nat) {
    forall b, i :: 0 <= b < |bs| && 0 <= i < |bs[b]| ==> f.hash(bs[b][i].key, bits) == b
  }

  /** The table's invariant; the load bound gives way only at the largest size. */
  ghost predicate Valid<K(!new)>(f: Keys<K>, t: Table<K>) {
    && INIT_BITS <= t.bits <= MAX_BITS
    && |t.buckets| == Pow2(t.bits)
    && Placed(f, t.buckets, t.bits)
    && t.elements == |Entries(t.buckets)|
    && (t.elements <= 4 * Pow2(t.bits) || t.bits == MAX_BITS)
  }

  function Empty<K>(n: nat): (bs: seq<seq<Entry<K>>>)
    ensures |bs| == n && forall b :: 0 <= b < n ==> bs[b] == []
  {
    seq(n, i => [])
  }

  lemma {:induction false} EntriesOfEmpty<K>(bs: seq<seq<Entry<K>>>)
    requires forall b :: 0 <= b < |bs| ==> bs[b] == []
    ensures Entries(bs) == multiset{}
  {
    if bs != [] {
      EntriesOfEmpty(bs[1..]);
    }
  }

  lemma {:induction false} EntriesUpdate<K>(bs: seq<seq<Entry<K>>>, b: nat, es: seq<Entry<K>>)
    requires b < |bs|
    ensures multiset(bs[b]) <= Entries(bs)
    ensures Entries(bs[b := es]) == Entries(bs) - multiset(bs[b]) + multiset(es)
  {
    if b > 0 {
      EntriesUpdate(bs[1..], b - 1, es);
      assert bs[b := es][1..] == bs[1..][b - 1 := es];
    } else {
      assert bs[0 := es][1..] == bs[1..];
    }
  }

  lemma {:induction false} EntryBucket<K>(bs: seq<seq<Entry<K>>>, e: Entry<K>) returns (b: nat)
    requires e in Entries(bs)
    ensures b < |bs| && e in bs[b]
  {
    if e in multiset(bs[0]) {
      b := 0;
    } else {
      var c := EntryBucket(bs[1..], e);
      b := c + 1;
    }
  }

  // ---------- double_size ----------

  /** Moves the entries of a chain, head first, each to the head of its new chain. */
  function MoveChain<K(!new)>(f: Keys<K>, es: seq<Entry<K>>, bits: nat, acc: seq<seq<Entry<K>>>)
    : (r: seq<seq<Entry<K>>>)
    requires Lawful(f) && |acc| == Pow2(bits)
    ensures |r| == |acc|
  {
    if es == [] then acc
    else
      var b := f.hash(es[0].key, bits);
      MoveChain(f, es[1..], bits, acc[b := [es[0]] + acc[b]])
  }

  function MoveAll<K(!new)>(f: Keys<K>, bs: seq<seq<Entry<K>>>, bits: nat, acc: seq<seq<Entry<K>>>)
    : (r: seq<seq<Entry<K>>>)
    requires Lawful(f) && |acc| == Pow2(bits)
    ensures |r| == |acc|
  {
    if bs == [] then acc else MoveAll(f, bs[1..], bits, MoveChain(f, bs[0], bits, acc))
  }

  function Doubled<K(!new)>(f: Keys<K>, t: Table<K>): Table<K>
    requires Lawful(f)
  {
    Table(t.bits + 1, t.elements, MoveAll(f, t.buckets, t.bits + 1, Empty(Pow2(t.bits + 1))))
  }

  lemma {:induction false} PlacedUpdate<K(!new)>(
    f: Keys<K>, bs: seq<seq<Entry<K>>>, bits: nat, b: nat, chain: seq<Entry<K>>)
    requires Placed(f, bs, bits) && b < |bs|
    requires forall i :: 0 <= i < |chain| ==> f.hash(chain[i].key, bits) == b
    ensures Placed(f, bs[b := chain], bits)
  {
  }

  lemma {:induction false} LinkEntries<K>(bs: seq<seq<Entry<K>>>, b: nat, e: Entry<K>)
    requires b < |bs|
    ensures Entries(bs[b := [e] + bs[b]]) == Entries(bs) + multiset{e}
  {
    EntriesUpdate(bs, b, [e] + bs[b]);
    assert multiset([e] + bs[b]) == multiset{e} + multiset(bs[b]);
  }

  lemma {:induction false} MoveChainEntries<K(!new)>(f: Keys<K>, es: seq<Entry<K>>, bits: nat, acc: seq<seq<Entry<K>>>)
    requires Lawful(f) && |acc| == Pow2(bits)
    ensures Entries(MoveChain(f, es, bits, acc)) == Entries(acc) + multiset(es)
    decreases |es|
  {
    if es != [] {
      var e, b := es[0], f.hash(es[0].key, bits);
      LinkEntries(acc, b, e);
      MoveChainEntries(f, es[1..], bits, acc[b := [e] + acc[b]]);
      assert es == [e] + es[1..];
      assert multiset(es) == multiset{e} + multiset(es[1..]);
    }
  }

  lemma {:induction false} MoveChainPlaced<K(!new)>(f: Keys<K>, es: seq<Entry<K>>, bits: nat, acc: seq<seq<Entry<K>>>)
    requires Lawful(f) && |acc| == Pow2(bits) && Placed(f, acc, bits)
    ensures Placed(f, MoveChain(f, es, bits, acc), bits)
    decreases |es|
  {
    if es != [] {
      var b := f.hash(es[0].key, bits);
      PlacedUpdate(f, acc, bits, b, [es[0]] + acc[b]);
      MoveChainPlaced(f, es[1..], bits, acc[b := [es[0]] + acc[b]]);
    }
  }

  /** Doubling loses and invents no entry, and puts each where its hash of one more bit says. */
  lemma {:induction false} MoveAllKeeps<K(!new)>(f: Keys<K>, bs: seq<seq<Entry<K>>>, bits: nat, acc: seq<seq<Entry<K>>>)
    requires Lawful(f) && |acc| == Pow2(bits) && Placed(f, acc, bits)
    ensures Entries(MoveAll(f, bs, bits, acc)) == Entries(acc) + Entries(bs)
    ensures Placed(f, MoveAll(f, bs, bits, acc), bits)
    decreases |bs|
  {
    if bs != [] {
      MoveChainEntries(f, bs[0], bits, acc);
      MoveChainPlaced(f, bs[0], bits, acc);
      MoveAllKeeps(f, bs[1..], bits, MoveChain(f, bs[0], bits, acc));
    }
  }

  lemma {:induction false} DoubledKeeps<K(!new)>(f: Keys<K>, t: Table<K>)
    requires Lawful(f)
    ensures Entries(Doubled(f, t).buckets) == Entries(t.buckets)
    ensures Placed(f, Doubled(f, t).buckets, t.bits + 1)
  {
    var bits := t.bits + 1;
    var none: seq<seq<Entry<K>>> := Empty(Pow2(bits));
    EntriesOfEmpty(none);
    MoveAllKeeps(f, t.buckets, bits, none);
  }

  // ---------- the operations ----------

  function FirstMatch<K>(f: Keys<K>, es: seq<Entry<K>>, k: K): (r: Option<nat>)
    ensures r.Some? ==> r.value < |es| && f.same(k, es[r.value].key)
    ensures r.None? ==> forall i :: 0 <= i < |es| ==> !f.same(k, es[i].key)
  {
    if es == [] then None
    else if f.same(k, es[0].key) then Some(0)
    else match FirstMatch(f, es[1..], k) case None => None case Some(i) => Some(i + 1)
  }

  function Find<K(!new)>(f: Keys<K>, t: Table<K>, k: K): Option<Entry<K>>
    requires Lawful(f) && |t.buckets| == Pow2(t.bits)
  {
    var chain := t.buckets[f.hash(k, t.bits)];
    match FirstMatch(f, chain, k) case None => None case Some(i) => Some(chain[i])
  }

  /** The table without the i-th entry of chain b. */
  function CutAt<K>(t: Table<K>, b: nat, i: nat): Table<K>
    requires b < |t.buckets| && i < |t.buckets[b]|
  {
    var chain := t.buckets[b][..i] + t.buckets[b][i + 1..];
    Table(t.bits, if t.elements > 0 then t.elements - 1 else 0, t.buckets[b := chain])
  }

  function Remove<K(!new)>(f: Keys<K>, t: Table<K>, k: K): Table<K>
    requires Lawful(f) && |t.buckets| == Pow2(t.bits)
  {
    var b := f.hash(k, t.bits);
    match FirstMatch(f, t.buckets[b], k)
    case None => t
    case Some(i) => CutAt(t, b, i)
  }

  predicate Allocated(a: Allocation, dataSize: nat) {
    a.element && a.key.Some? && (dataSize == 0 || a.data.Some?)
  }

  /** The table with `e` at the head of its chain, before any doubling. */
  function Linked<K(!new)>(f: Keys<K>, t: Table<K>, e: Entry<K>): Table<K>
    requires Lawful(f) && |t.buckets| == Pow2(t.bits)
  {
    var b := f.hash(e.key, t.bits);
    Table(t.bits, t.elements + 1, t.buckets[b := [e] + t.buckets[b]])
  }

  predicate NeedsDoubling<K>(t: Table<K>) {
    t.elements > 4 * Pow2(t.bits) && t.bits < MAX_BITS
  }

  /** ht_add: None when an allocation it needs fails. */
  function Add<K(!new)>(f: Keys<K>, t: Table<K>, k: K, a: Allocation, dataSize: nat): (Table<K>, Option<Entry<K>>)
    requires Lawful(f) && |t.buckets| == Pow2(t.bits)
  {
    if !Allocated(a, dataSize) then (t, None)
    else
      var e := Entry(k, a.key.value, a.data);
      var linked := Linked(f, t, e);
      if !NeedsDoubling(linked) then (linked, Some(e))
      else if a.buckets then (Doubled(f, linked), Some(e))
      else (t, None)
  }

  function Created<K>(): Table<K> {
    Table(INIT_BITS, 0, Empty(Pow2(INIT_BITS)))
  }

  // ---------- what the operations keep ----------

  lemma {:induction false} CreatedValid<K(!new)>(f: Keys<K>)
    ensures Valid(f, Created<K>()) && Entries(Created<K>().buckets) == multiset{}
  {
    EntriesOfEmpty<K>(Created<K>().buckets);
  }

  lemma {:induction false} LinkedKeeps<K(!new)>(f: Keys<K>, t: Table<K>, e: Entry<K>)
    requires Lawful(f) && Valid(f, t)
    ensures Entries(Linked(f, t, e).buckets) == Entries(t.buckets) + multiset{e}
    ensures Placed(f, Linked(f, t, e).buckets, t.bits)
  {
    var b := f.hash(e.key, t.bits);
    var chain := t.buckets[b];
    PlacedUpdate(f, t.buckets, t.bits, b, [e] + chain);
    LinkEntries(t.buckets, b, e);
  }

  /** An add that returns adds exactly its entry; one that fails leaves the very same table. */
  lemma {:induction false} AddKeeps<K(!new)>(f: Keys<K>, t: Table<K>, k: K, a: Allocation, dataSize: nat)
    requires Lawful(f) && Valid(f, t)
    ensures var (next, added) := Add(f, t, k, a, dataSize);
            && Valid(f, next)
            && (added.None? ==> next == t)
            && (added.Some? ==>
                added.value.key == k && Entries(next.buckets) == Entries(t.buckets) + multiset{added.value})
            && (Allocated(a, dataSize) && a.buckets ==> added.Some?)
  {
    if Allocated(a, dataSize) {
      var e := Entry(k, a.key.value, a.data);
      LinkedKeeps(f, t, e);
      if NeedsDoubling(Linked(f, t, e)) {
        DoubledValid(f, t, e);
      }
    }
  }

  /** Doubling a table that a new entry has overloaded makes it valid again. */
  lemma {:induction false} DoubledValid<K(!new)>(f: Keys<K>, t: Table<K>, e: Entry<K>)
    requires Lawful(f) && Valid(f, t) && NeedsDoubling(Linked(f, t, e))
    ensures Valid(f, Doubled(f, Linked(f, t, e)))
    ensures Entries(Doubled(f, Linked(f, t, e)).buckets) == Entries(t.buckets) + multiset{e}
  {
    LinkedKeeps(f, t, e);
    DoubledKeeps(f, Linked(f, t, e));
  }

  lemma {:induction false} CutOne<T>(s: seq<T>, i: nat)
    requires i < |s|
    ensures multiset(s[..i] + s[i + 1..]) == multiset(s) - multiset{s[i]}
  {
    assert s == s[..i] + [s[i]] + s[i + 1..];
  }

  /** An entry that compares equal to `k` is in the chain that `k` hashes to. */
  lemma {:induction false} MatchIsInChain<K(!new)>(f: Keys<K>, t: Table<K>, k: K, e: Entry<K>)
    requires Lawful(f) && Valid(f, t) && e in Entries(t.buckets) && f.same(k, e.key)
    ensures e in t.buckets[f.hash(k, t.bits)]
  {
    var b := EntryBucket(t.buckets, e);
    var i :| 0 <= i < |t.buckets[b]| && t.buckets[b][i] == e;
    assert f.hash(t.buckets[b][i].key, t.bits) == b;
  }

  lemma {:induction false} ChainIsInEntries<K(!new)>(f: Keys<K>, t: Table<K>, b: nat, i: nat)
    requires Valid(f, t) && b < |t.buckets| && i < |t.buckets[b]|
    ensures t.buckets[b][i] in Entries(t.buckets)
  {
    EntriesUpdate(t.buckets, b, []);
    assert t.buckets[b][i] in multiset(t.buckets[b]);
  }

  /** Find answers with a matching entry of the table, and fails only when there is none. */
  lemma {:induction false} FindExact<K(!new)>(f: Keys<K>, t: Table<K>, k: K)
    requires Lawful(f) && Valid(f, t)
    ensures var r := Find(f, t, k);
            && (r.Some? ==> r.value in Entries(t.buckets) && f.same(k, r.value.key))
            && (r.None? ==> forall e :: e in Entries(t.buckets) ==> !f.same(k, e.key))
  {
    var b := f.hash(k, t.bits);
    var m := FirstMatch(f, t.buckets[b], k);
    if m.Some? {
      ChainIsInEntries(f, t, b, m.value);
    } else {
      forall e | e in Entries(t.buckets)
        ensures !f.same(k, e.key)
      {
        if f.same(k, e.key) {
          MatchIsInChain(f, t, k, e);
        }
      }
    }
  }

  lemma {:induction false} CutKeeps<K(!new)>(f: Keys<K>, t: Table<K>, b: nat, i: nat)
    requires Valid(f, t) && b < |t.buckets| && i < |t.buckets[b]|
    ensures Valid(f, CutAt(t, b, i)) && t.elements > 0
    ensures Entries(CutAt(t, b, i).buckets) == Entries(t.buckets) - multiset{t.buckets[b][i]}
  {
    var chain := t.buckets[b];
    PlacedUpdate(f, t.buckets, t.bits, b, chain[..i] + chain[i + 1..]);
    CutOne(chain, i);
    EntriesUpdate(t.buckets, b, chain[..i] + chain[i + 1..]);
    TakeFromPart(Entries(t.buckets), multiset(chain), chain[i]);
  }

  lemma {:induction false} TakeFromPart<T>(all: multiset<T>, part: multiset<T>, x: T)
    requires part <= all && x in part
    ensures all - part + (part - multiset{x}) == all - multiset{x}
    ensures |all - multiset{x}| == |all| - 1
  {
  }

  /** Remove takes out the entry that find would have answered with, and no other. */
  lemma {:induction false} RemoveKeeps<K(!new)>(f: Keys<K>, t: Table<K>, k: K)
    requires Lawful(f) && Valid(f, t)
    ensures Valid(f, Remove(f, t, k))
    ensures Find(f, t, k).None? ==> Remove(f, t, k) == t
    ensures Find(f, t, k).Some? ==>
              Entries(Remove(f, t, k).buckets) == Entries(t.buckets) - multiset{Find(f, t, k).value}
  {
    var b := f.hash(k, t.bits);
    match FirstMatch(f, t.buckets[b], k)
    case None =>
    case Some(i) => CutKeeps(f, t, b, i);
  }

  // ---------- the finite map a table stands for ----------

  /** A finite map up to key equality: a set of entries with pairwise different keys. */
  ghost predicate Functional<K>(f: Keys<K>, s: set<Entry<K>>) {
    forall d, e :: d in s && e in s && f.same(d.key, e.key) ==> d == e
  }

  ghost predicate Represents<K>(f: Keys<K>, t: Table<K>, s: set<Entry<K>>) {
    Functional(f, s) && Entries(t.buckets) == multiset(s)
  }

  ghost predicate Absent<K>(f: Keys<K>, s: set<Entry<K>>, k: K) {
    forall e :: e in s ==> !f.same(k, e.key)
  }

  datatype Op<K> = AddOp(key: K, a: Allocation) | RemoveOp(key: K) | FindOp(key: K)

  function Step<K(!new)>(f: Keys<K>, t: Table<K>, op: Op<K>, dataSize: nat): (Table<K>, Option<Entry<K>>)
    requires Lawful(f) && |t.buckets| == Pow2(t.bits)
  {
    match op
    case AddOp(k, a) => Add(f, t, k, a, dataSize)
    case RemoveOp(k) => (Remove(f, t, k), None)
    case FindOp(k) => (t, Find(f, t, k))
  }

  /** What a map does for `op` when the operation answers `answer`. */
  ghost function MapNext<K>(f: Keys<K>, s: set<Entry<K>>, op: Op<K>, answer: Option<Entry<K>>): set<Entry<K>> {
    match op
    case AddOp(_, _) => if answer.Some? then s + {answer.value} else s
    case RemoveOp(k) => set e | e in s && !f.same(k, e.key)
    case FindOp(_) => s
  }

  ghost predicate MapAnswers<K>(f: Keys<K>, s: set<Entry<K>>, op: Op<K>, answer: Option<Entry<K>>) {
    match op
    case AddOp(k, _) => answer.Some? ==> answer.value.key == k
    case RemoveOp(_) => true
    case FindOp(k) =>
      if Absent(f, s, k) then answer.None?
      else answer.Some? && answer.value in s && f.same(k, answer.value.key)
  }

  lemma {:induction false} RemoveRefines<K(!new)>(f: Keys<K>, t: Table<K>, s: set<Entry<K>>, k: K)
    requires Lawful(f) && Equivalence(f) && Valid(f, t) && Represents(f, t, s)
    ensures Represents(f, Remove(f, t, k), set e | e in s && !f.same(k, e.key))
  {
    FindExact(f, t, k);
    RemoveKeeps(f, t, k);
    match Find(f, t, k) {
      case None => DropAbsent(f, s, k);
      case Some(found) =>
        assert found in multiset(s);
        DropFound(f, s, k, found);
    }
  }

  lemma {:induction false} DropAbsent<K>(f: Keys<K>, s: set<Entry<K>>, k: K)
    requires forall e :: e in multiset(s) ==> !f.same(k, e.key)
    ensures (set e | e in s && !f.same(k, e.key)) == s
  {
    assert forall e :: e in s ==> e in multiset(s);
  }

  lemma {:induction false} DropFound<K(!new)>(f: Keys<K>, s: set<Entry<K>>, k: K, found: Entry<K>)
    requires Equivalence(f) && Functional(f, s) && found in s && f.same(k, found.key)
    ensures var left := set e | e in s && !f.same(k, e.key);
            multiset(left) == multiset(s) - multiset{found} && Functional(f, left)
  {
    var left := set e | e in s && !f.same(k, e.key);
    forall e | e in s && f.same(k, e.key)
      ensures e == found
    {
      assert f.same(found.key, e.key);
    }
    assert left == s - {found};
  }

  lemma {:induction false} FindRefines<K(!new)>(f: Keys<K>, t: Table<K>, s: set<Entry<K>>, k: K)
    requires Lawful(f) && Valid(f, t) && Represents(f, t, s)
    ensures MapAnswers(f, s, FindOp(k), Find(f, t, k))
  {
    FindExact(f, t, k);
    assert forall e :: e in s <==> e in Entries(t.buckets);
  }

  lemma {:induction false} InsertAbsent<K(!new)>(f: Keys<K>, s: set<Entry<K>>, e: Entry<K>)
    requires Equivalence(f) && Functional(f, s) && Absent(f, s, e.key)
    ensures Functional(f, s + {e}) && multiset(s + {e}) == multiset(s) + multiset{e}
  {
    assert f.same(e.key, e.key);
    assert e !in s;
    forall c, d | c in s + {e} && d in s + {e} && f.same(c.key, d.key)
      ensures c == d
    {
      assert f.same(d.key, c.key);
    }
  }

  lemma {:induction false} AddRefines<K(!new)>(
    f: Keys<K>, t: Table<K>, s: set<Entry<K>>, k: K, a: Allocation, dataSize: nat)
    requires Lawful(f) && Equivalence(f) && Valid(f, t) && Represents(f, t, s) && Absent(f, s, k)
    ensures var (next, added) := Add(f, t, k, a, dataSize);
            Represents(f, next, MapNext(f, s, AddOp(k, a), added))
  {
    AddKeeps(f, t, k, a, dataSize);
    var (next, added) := Add(f, t, k, a, dataSize);
    if added.Some? {
      InsertAbsent(f, s, added.value);
    }
  }

  /** The answers of a run of operations. */
  function Run<K(!new)>(f: Keys<K>, t: Table<K>, ops: seq<Op<K>>, dataSize: nat): (r: (Table<K>, seq<Option<Entry<K>>>))
    requires Lawful(f) && Valid(f, t)
    ensures Valid(f, r.0) && |r.1| == |ops|
    decreases |ops|
  {
    if ops == [] then (t, [])
    else
      StepValid(f, t, ops[0], dataSize);
      var (next, answer) := Step(f, t, ops[0], dataSize);
      var (last, answers) := Run(f, next, ops[1..], dataSize);
      (last, [answer] + answers)
  }

  lemma {:induction false} StepValid<K(!new)>(f: Keys<K>, t: Table<K>, op: Op<K>, dataSize: nat)
    requires Lawful(f) && Valid(f, t)
    ensures Valid(f, Step(f, t, op, dataSize).0)
  {
    match op
    case AddOp(k, a) => AddKeeps(f, t, k, a, dataSize);
    case RemoveOp(k) => RemoveKeeps(f, t, k);
    case FindOp(_) =>
  }

  /** Keys are absent when they are added. */
  ghost predicate AddsAbsent<K>(f: Keys<K>, s: set<Entry<K>>, ops: seq<Op<K>>, answers: seq<Option<Entry<K>>>)
    requires |answers| == |ops|
    decreases |ops|
  {
    ops == [] ||
    (&& (ops[0].AddOp? ==> Absent(f, s, ops[0].key))
     && AddsAbsent(f, MapNext(f, s, ops[0], answers[0]), ops[1..], answers[1..]))
  }

  /** A run of a finite map: each answer is the map's, a failed add changes nothing. */
  ghost predicate MapRun<K>(
    f: Keys<K>, s: set<Entry<K>>, ops: seq<Op<K>>, answers: seq<Option<Entry<K>>>, last: set<Entry<K>>)
    requires |answers| == |ops|
    decreases |ops|
  {
    if ops == [] then last == s
    else
      && MapAnswers(f, s, ops[0], answers[0])
      && MapRun(f, MapNext(f, s, ops[0], answers[0]), ops[1..], answers[1..], last)
  }

  /** Every run of a table, through doublings and failing allocations, is a run of a finite map. */
  lemma {:induction false} RunRefinesMap<K(!new)>(
    f: Keys<K>, t: Table<K>, s: set<Entry<K>>, ops: seq<Op<K>>, dataSize: nat)
    returns (last: set<Entry<K>>)
    requires Lawful(f) && Equivalence(f) && Valid(f, t) && Represents(f, t, s)
    requires AddsAbsent(f, s, ops, Run(f, t, ops, dataSize).1)
    ensures MapRun(f, s, ops, Run(f, t, ops, dataSize).1, last)
    ensures Represents(f, Run(f, t, ops, dataSize).0, last)
    decreases |ops|
  {
    if ops == [] {
      last := s;
    } else {
      var op := ops[0];
      var (next, answer) := Step(f, t, op, dataSize);
      StepValid(f, t, op, dataSize);
      var answers := Run(f, t, ops, dataSize).1;
      assert answers[0] == answer && answers[1..] == Run(f, next, ops[1..], dataSize).1;
      match op {
        case AddOp(k, a) =>
          AddKeeps(f, t, k, a, dataSize);
          AddRefines(f, t, s, k, a, dataSize);
        case RemoveOp(k) => RemoveRefines(f, t, s, k);
        case FindOp(k) => FindRefines(f, t, s, k);
      }
      last := RunRefinesMap(f, next, MapNext(f, s, op, answer), ops[1..], dataSize);
    }
  }

  // ---------- what an add answers, and what is found afterwards ----------

  /** One more element is more than the buckets may hold, and there may be more buckets. */
  predicate Overloads<K>(t: Table<K>) {
    t.elements + 1 > 4 * Pow2(t.bits) && t.bits < 11
  }

  /**
   An add succeeds exactly when all the memory it needs is there: the element,
   the key, the data if there is any, and the buckets if the table is full. The
   entry then has the memory that was given, and a full table one more bit.
   */
  lemma {:induction false} AddExactly<K(!new)>(f: Keys<K>, t: Table<K>, k: K, a: Allocation, dataSize: nat)
    requires Lawful(f) && Valid(f, t)
    ensures var (next, added) := Add(f, t, k, a, dataSize);
            && (added.Some? <==>
                 a.element && a.key.Some? && (dataSize > 0 ==> a.data.Some?) && (Overloads(t) ==> a.buckets))
            && (added.Some? ==>
                 && added.value == Entry(k, a.key.value, a.data)
                 && next.elements == t.elements + 1
                 && next.bits == if Overloads(t) then t.bits + 1 else t.bits)
  {
  }

  /** No entry compares equal to the key. */
  ghost predicate NoEntry<K>(f: Keys<K>, t: Table<K>, k: K) {
    forall e :: e in Entries(t.buckets) ==> !f.same(k, e.key)
  }

  /** A key that was absent is found after it was added, through any doubling. */
  lemma {:induction false} AddedIsFound<K(!new)>(f: Keys<K>, t: Table<K>, k: K, a: Allocation, dataSize: nat, l: K)
    requires Lawful(f) && Equivalence(f) && Valid(f, t) && NoEntry(f, t, k) && f.same(l, k)
    requires Add(f, t, k, a, dataSize).1.Some?
    ensures Find(f, Add(f, t, k, a, dataSize).0, l) == Add(f, t, k, a, dataSize).1
  {
    var (next, added) := Add(f, t, k, a, dataSize);
    AddKeeps(f, t, k, a, dataSize);
    FindExact(f, next, l);
    var e := added.value;
    assert e in Entries(next.buckets);
    assert forall d :: d in Entries(t.buckets) && f.same(l, d.key) ==> f.same(k, d.key);
  }

  /** The operation does not remove the entry's key. */
  predicate Spares<K>(f: Keys<K>, op: Op<K>, e: Entry<K>) {
    op.RemoveOp? ==> !f.same(op.key, e.key)
  }

  lemma {:induction false} MapRunSpares<K>(
    f: Keys<K>, s: set<Entry<K>>, ops: seq<Op<K>>, answers: seq<Option<Entry<K>>>, last: set<Entry<K>>, e: Entry<K>)
    requires |answers| == |ops| && MapRun(f, s, ops, answers, last) && e in s
    requires forall k :: 0 <= k < |ops| ==> Spares(f, ops[k], e)
    ensures e in last
    decreases |ops|
  {
    if ops != [] {
      MapRunSpares(f, MapNext(f, s, ops[0], answers[0]), ops[1..], answers[1..], last, e);
    }
  }

  /** An entry is found, by every equal key, after any run that does not remove its key. */
  lemma {:induction false} StaysFound<K(!new)>(
    f: Keys<K>, t: Table<K>, s: set<Entry<K>>, ops: seq<Op<K>>, dataSize: nat, e: Entry<K>, l: K)
    requires Lawful(f) && Equivalence(f) && Valid(f, t) && Represents(f, t, s) && e in s && f.same(l, e.key)
    requires AddsAbsent(f, s, ops, Run(f, t, ops, dataSize).1)
    requires forall k :: 0 <= k < |ops| ==> Spares(f, ops[k], e)
    ensures Find(f, Run(f, t, ops, dataSize).0, l) == Some(e)
  {
    var (end, answers) := Run(f, t, ops, dataSize);
    var last := RunRefinesMap(f, t, s, ops, dataSize);
    MapRunSpares(f, s, ops, answers, last, e);
    FindRefines(f, end, last, l);
    assert !Absent(f, last, l);
    var found := Find(f, end, l).value;
    assert f.same(e.key, found.key);
  }
}
