/** The shared memory of Kokkos::UnorderedMap and the structure its hash chains keep.

    A table is its availability bitset, its bucket heads, and per slot a next index, a key and a value.
    The chains are not stored anywhere: they are what the heads and next indices spell out. Here they are
    described by a sequence of slots per bucket, and `WellChained` says when such a description fits the
    memory. */
module MapMemory {
  import opened Bitset

  type Key(==, 0, !new)
  type Value(==, 0, !new)

  const INVALID: nat := 0xFFFF_FFFF

  // Fixed for the life of one allocation: capacity, number of buckets, and the hasher.
  datatype Shape = Shape(capacity: nat, buckets: nat, hash: Key -> nat)

  predicate ValidShape(sh: Shape) {
    0 < sh.capacity < INVALID && 0 < sh.buckets
  }

  function Bucket(sh: Shape, k: Key): (b: nat)
    requires ValidShape(sh)
    ensures b < sh.buckets
  {
    sh.hash(k) % sh.buckets
  }

  datatype Mem = Mem(avail: seq<Word>, heads: seq<nat>, next: seq<nat>, keys: seq<Key>, values: seq<Value>,
                     modified: bool, erasable: bool, failed: bool)

  predicate Sized(sh: Shape, m: Mem) {
    && ValidShape(sh)
    && Fits(sh.capacity, m.avail)
    && |m.heads| == sh.buckets
    && |m.next| == |m.keys| == |m.values| == sh.capacity + 1
  }

  // curr_ptr of the original: the address of a bucket head or of a slot's next index.
  datatype Ptr = Head(bucket: nat) | Next(slot: nat)

  predicate ValidPtr(sh: Shape, p: Ptr) {
    match p
    case Head(b) => b < sh.buckets
    case Next(i) => i < sh.capacity
  }

  function Load(sh: Shape, m: Mem, p: Ptr): nat
    requires Sized(sh, m) && ValidPtr(sh, p)
  {
    match p
    case Head(b) => m.heads[b]
    case Next(i) => m.next[i]
  }

  function Store(sh: Shape, m: Mem, p: Ptr, v: nat): (r: Mem)
    requires Sized(sh, m) && ValidPtr(sh, p)
    ensures Sized(sh, r)
  {
    match p
    case Head(b) => m.(heads := m.heads[b := v])
    case Next(i) => m.(next := m.next[i := v])
  }

  /* ---------- Chains ---------- */

  type Chains = seq<seq<nat>>

  // The address that follows the first p slots of chain c of bucket b, and what it must hold.
  function PtrAt(b: nat, c: seq<nat>, p: nat): Ptr
    requires p <= |c|
  {
    if p == 0 then Head(b) else Next(c[p - 1])
  }

  function Target(c: seq<nat>, p: nat): nat
    requires p <= |c|
  {
    if p < |c| then c[p] else INVALID
  }

  ghost predicate InRange(sh: Shape, c: seq<nat>) {
    forall j :: 0 <= j < |c| ==> c[j] < sh.capacity
  }

  // Following the memory from the head of bucket b visits exactly the slots of c and then stops.
  ghost predicate Linked(sh: Shape, m: Mem, b: nat, c: seq<nat>)
    requires Sized(sh, m) && b < sh.buckets && InRange(sh, c)
  {
    forall p: nat {:trigger Target(c, p)} :: p <= |c| ==> Load(sh, m, PtrAt(b, c, p)) == Target(c, p)
  }

  ghost predicate KeysFit(sh: Shape, m: Mem, b: nat, c: seq<nat>)
    requires Sized(sh, m) && InRange(sh, c)
  {
    && (forall j :: 0 <= j < |c| ==> Bucket(sh, m.keys[c[j]]) == b)
    && (forall i, j :: 0 <= i < j < |c| ==> m.keys[c[i]] != m.keys[c[j]])
  }

  ghost predicate Chained(ch: Chains, i: nat) {
    exists b :: 0 <= b < |ch| && i in ch[b]
  }

  // No slot appears twice, in one chain or in two.
  ghost predicate Disjoint(ch: Chains) {
    && (forall b, i, j :: 0 <= b < |ch| && 0 <= i < j < |ch[b]| ==> ch[b][i] != ch[b][j])
    && (forall b, b', i: nat :: 0 <= b < b' < |ch| && i in ch[b] ==> i !in ch[b'])
  }

  ghost predicate WellChained(sh: Shape, m: Mem, ch: Chains) {
    && Sized(sh, m)
    && |ch| == sh.buckets
    && (forall b :: 0 <= b < |ch| ==> InRange(sh, ch[b]))
    && (forall b :: 0 <= b < |ch| ==> Linked(sh, m, b, ch[b]))
    && (forall b :: 0 <= b < |ch| ==> KeysFit(sh, m, b, ch[b]))
    && Disjoint(ch)
    && (forall i :: 0 <= i < sh.capacity && !Chained(ch, i) ==> m.next[i] == INVALID)
  }

  // During an insert phase every chained slot has its bit set; an erase phase clears bits first.
  ghost predicate AllSet(sh: Shape, m: Mem, ch: Chains)
    requires Sized(sh, m)
  {
    forall i: nat :: Chained(ch, i) ==> Test(sh.capacity, m.avail, i)
  }

  lemma ChainedInRange(sh: Shape, m: Mem, ch: Chains, i: nat)
    requires WellChained(sh, m, ch) && Chained(ch, i)
    ensures i < sh.capacity
  {
    var b :| 0 <= b < |ch| && i in ch[b];
    var j :| 0 <= j < |ch[b]| && ch[b][j] == i;
  }

  // The memory determines its chains: at most one description fits it.
  lemma {:induction false} LinkedPrefix(sh: Shape, m: Mem, b: nat, c: seq<nat>, d: seq<nat>, p: nat)
    requires Sized(sh, m) && b < sh.buckets && InRange(sh, c) && InRange(sh, d)
    requires Linked(sh, m, b, c) && Linked(sh, m, b, d)
    requires p <= |c|
    ensures p <= |d| && c[..p] == d[..p]
  {
    if p > 0 {
      LinkedPrefix(sh, m, b, c, d, p - 1);
      assert PtrAt(b, c, p - 1) == PtrAt(b, d, p - 1) by {
        if p - 1 > 0 { assert c[p - 2] == c[..p - 1][p - 2] == d[..p - 1][p - 2]; }
      }
      assert Target(c, p - 1) == Target(d, p - 1);
    }
  }

  lemma ChainsUnique(sh: Shape, m: Mem, ch: Chains, ch': Chains)
    requires WellChained(sh, m, ch) && WellChained(sh, m, ch')
    ensures ch == ch'
  {
    forall b | 0 <= b < |ch|
      ensures ch[b] == ch'[b]
    {
      LinkedPrefix(sh, m, b, ch[b], ch'[b], |ch[b]|);
      LinkedPrefix(sh, m, b, ch'[b], ch[b], |ch'[b]|);
      assert ch[b] == ch[b][..|ch[b]|] && ch'[b] == ch'[b][..|ch'[b]|];
    }
  }

  // The end of a chain is exactly where a pointer holds the invalid index.
  lemma LoadAlongChain(sh: Shape, m: Mem, ch: Chains, b: nat, p: nat)
    requires WellChained(sh, m, ch) && b < sh.buckets && p <= |ch[b]|
    ensures ValidPtr(sh, PtrAt(b, ch[b], p))
    ensures Load(sh, m, PtrAt(b, ch[b], p)) == Target(ch[b], p)
    ensures Load(sh, m, PtrAt(b, ch[b], p)) == INVALID <==> p == |ch[b]|
  {
    assert Linked(sh, m, b, ch[b]);
    assert Target(ch[b], p) == Load(sh, m, PtrAt(b, ch[b], p));
  }

  /* ---------- Contents as a dictionary ---------- */

  ghost function Slots(ch: Chains): set<nat> {
    set b, i | 0 <= b < |ch| && i in ch[b] :: i
  }

  lemma SlotsAreChained(ch: Chains, i: nat)
    ensures i in Slots(ch) <==> Chained(ch, i)
  {
  }

  lemma KeysDistinct(sh: Shape, m: Mem, ch: Chains, i: nat, j: nat)
    requires WellChained(sh, m, ch) && Chained(ch, i) && Chained(ch, j)
    ensures i < sh.capacity && j < sh.capacity
    ensures m.keys[i] == m.keys[j] ==> i == j
  {
    ChainedInRange(sh, m, ch, i);
    ChainedInRange(sh, m, ch, j);
    var b :| 0 <= b < |ch| && i in ch[b];
    var d :| 0 <= d < |ch| && j in ch[d];
    var p :| 0 <= p < |ch[b]| && ch[b][p] == i;
    var q :| 0 <= q < |ch[d]| && ch[d][q] == j;
    assert KeysFit(sh, m, b, ch[b]) && KeysFit(sh, m, d, ch[d]);
    assert Bucket(sh, m.keys[i]) == b && Bucket(sh, m.keys[j]) == d;
    if b == d && p < q {
      assert m.keys[ch[b][p]] != m.keys[ch[b][q]];
    } else if b == d && q < p {
      assert m.keys[ch[b][q]] != m.keys[ch[b][p]];
    }
  }

  ghost function KeySet(sh: Shape, m: Mem, ch: Chains): set<Key>
    requires WellChained(sh, m, ch)
  {
    Image(m.keys, Slots(ch))
  }

  ghost function SlotOf(sh: Shape, m: Mem, ch: Chains, k: Key): (i: nat)
    requires WellChained(sh, m, ch) && k in KeySet(sh, m, ch)
    ensures i in Slots(ch) && i < |m.keys| && m.keys[i] == k
  {
    var i :| i in Slots(ch) && i < |m.keys| && m.keys[i] == k; i
  }

  // What a user sees: each key with the index and the value stored for it.
  ghost function Contents(sh: Shape, m: Mem, ch: Chains): map<Key, (nat, Value)>
    requires WellChained(sh, m, ch)
  {
    map k | k in KeySet(sh, m, ch) :: (SlotOf(sh, m, ch, k), m.values[SlotOf(sh, m, ch, k)])
  }

  lemma ContentsAt(sh: Shape, m: Mem, ch: Chains, i: nat)
    requires WellChained(sh, m, ch) && Chained(ch, i)
    ensures i < sh.capacity
    ensures m.keys[i] in Contents(sh, m, ch) && Contents(sh, m, ch)[m.keys[i]] == (i, m.values[i])
  {
    ChainedInRange(sh, m, ch, i);
    SlotsAreChained(ch, i);
    var j := SlotOf(sh, m, ch, m.keys[i]);
    SlotsAreChained(ch, j);
    KeysDistinct(sh, m, ch, i, j);
  }

  lemma ContentsFrom(sh: Shape, m: Mem, ch: Chains, k: Key)
    requires WellChained(sh, m, ch) && k in Contents(sh, m, ch)
    ensures var i := Contents(sh, m, ch)[k].0;
            Chained(ch, i) && i < sh.capacity && m.keys[i] == k && Contents(sh, m, ch)[k].1 == m.values[i]
  {
    var i := SlotOf(sh, m, ch, k);
    SlotsAreChained(ch, i);
    ChainedInRange(sh, m, ch, i);
  }

  ghost function Image(keys: seq<Key>, s: set<nat>): set<Key> {
    set i | i in s && i < |keys| :: keys[i]
  }

  lemma {:induction false} InjectiveImage(keys: seq<Key>, s: set<nat>)
    requires forall i :: i in s ==> i < |keys|
    requires forall i, j :: i in s && j in s && keys[i] == keys[j] ==> i == j
    ensures |Image(keys, s)| == |s|
  {
    if s == {} {
      assert Image(keys, s) == {};
    } else {
      var x :| x in s;
      InjectiveImage(keys, s - {x});
      assert Image(keys, s) == Image(keys, s - {x}) + {keys[x]};
    }
  }

  // Chained slots hold distinct keys.
  lemma ChainedImage(sh: Shape, m: Mem, ch: Chains, s: set<nat>)
    requires WellChained(sh, m, ch) && forall i :: i in s ==> Chained(ch, i)
    ensures |Image(m.keys, s)| == |s|
  {
    forall i | i in s
      ensures i < |m.keys|
    {
      ChainedInRange(sh, m, ch, i);
    }
    forall i, j | i in s && j in s && m.keys[i] == m.keys[j]
      ensures i == j
    {
      KeysDistinct(sh, m, ch, i, j);
    }
    InjectiveImage(m.keys, s);
  }

  // As many distinct keys as chained slots.
  lemma ContentsSize(sh: Shape, m: Mem, ch: Chains)
    requires WellChained(sh, m, ch)
    ensures |Contents(sh, m, ch)| == |Slots(ch)|
  {
    forall i | i in Slots(ch)
      ensures Chained(ch, i)
    {
      SlotsAreChained(ch, i);
    }
    ChainedImage(sh, m, ch, Slots(ch));
    assert Contents(sh, m, ch).Keys == KeySet(sh, m, ch);
  }

  /* ---------- The one structural change: appending at the tail ---------- */

  function Appended(ch: Chains, b: nat, i: nat): Chains
    requires b < |ch|
  {
    ch[b := ch[b] + [i]]
  }

  lemma ChainedAfterAppend(ch: Chains, b: nat, i: nat, j: nat)
    requires b < |ch|
    ensures Chained(Appended(ch, b, i), j) <==> j == i || Chained(ch, j)
  {
    var ch' := Appended(ch, b, i);
    if Chained(ch, j) {
      var d :| 0 <= d < |ch| && j in ch[d];
      assert j in ch'[d];
    }
    if Chained(ch', j) {
      var d :| 0 <= d < |ch'| && j in ch'[d];
      if j != i { assert j in ch[d]; }
    }
    if j == i { assert i in ch'[b]; }
  }

  lemma AppendLinksOwn(sh: Shape, m: Mem, ch: Chains, b: nat, i: nat)
    requires WellChained(sh, m, ch) && b < sh.buckets && i < sh.capacity && !Chained(ch, i)
    ensures var p := PtrAt(b, ch[b], |ch[b]|);
            ValidPtr(sh, p) && InRange(sh, ch[b] + [i]) && Linked(sh, Store(sh, m, p, i), b, ch[b] + [i])
  {
    LoadAlongChain(sh, m, ch, b, |ch[b]|);
    var c := ch[b];
    var d := c + [i];
    var tail := PtrAt(b, c, |c|);
    var m' := Store(sh, m, tail, i);
    forall p: nat | p <= |d|
      ensures Load(sh, m', PtrAt(b, d, p)) == Target(d, p)
    {
      if p == |d| {
        assert PtrAt(b, d, p) == Next(i);
        assert i !in ch[b];
        assert tail != Next(i);
      } else if p == |c| {
        assert PtrAt(b, d, p) == tail;
      } else {
        LoadAlongChain(sh, m, ch, b, p);
        assert PtrAt(b, d, p) == PtrAt(b, c, p) != tail;
      }
    }
  }

  lemma AppendLinksOther(sh: Shape, m: Mem, ch: Chains, b: nat, i: nat, o: nat)
    requires WellChained(sh, m, ch) && b < sh.buckets && i < sh.capacity && !Chained(ch, i)
    requires o < sh.buckets && o != b
    ensures var p := PtrAt(b, ch[b], |ch[b]|);
            ValidPtr(sh, p) && Linked(sh, Store(sh, m, p, i), o, ch[o])
  {
    LoadAlongChain(sh, m, ch, b, |ch[b]|);
    var tail := PtrAt(b, ch[b], |ch[b]|);
    forall p: nat | p <= |ch[o]|
      ensures Load(sh, Store(sh, m, tail, i), PtrAt(o, ch[o], p)) == Target(ch[o], p)
    {
      LoadAlongChain(sh, m, ch, o, p);
      if p > 0 && |ch[b]| > 0 {
        assert ch[o][p - 1] in ch[o] && ch[b][|ch[b]| - 1] in ch[b];
      }
      assert PtrAt(o, ch[o], p) != tail;
    }
  }

  lemma AppendDisjoint(ch: Chains, b: nat, i: nat)
    requires Disjoint(ch) && b < |ch| && !Chained(ch, i)
    ensures Disjoint(Appended(ch, b, i))
  {
    var ch' := Appended(ch, b, i);
    forall d, p, q | 0 <= d < |ch'| && 0 <= p < q < |ch'[d]|
      ensures ch'[d][p] != ch'[d][q]
    {
      if d == b && q == |ch[b]| { assert ch[b][p] in ch[b]; }
    }
    forall d, e, j: nat | 0 <= d < e < |ch'| && j in ch'[d]
      ensures j !in ch'[e]
    {
      assert i !in ch[d] && i !in ch[e];
      assert j != i ==> j in ch[d];
    }
  }

  lemma AppendKeepsWellChained(sh: Shape, m: Mem, ch: Chains, i: nat)
    requires WellChained(sh, m, ch) && i < sh.capacity && !Chained(ch, i)
    requires var c := ch[Bucket(sh, m.keys[i])]; forall j :: 0 <= j < |c| ==> m.keys[c[j]] != m.keys[i]
    ensures var b := Bucket(sh, m.keys[i]);
            var p := PtrAt(b, ch[b], |ch[b]|);
            ValidPtr(sh, p) && WellChained(sh, Store(sh, m, p, i), Appended(ch, b, i))
  {
    var b := Bucket(sh, m.keys[i]);
    LoadAlongChain(sh, m, ch, b, |ch[b]|);
    var tail := PtrAt(b, ch[b], |ch[b]|);
    var m' := Store(sh, m, tail, i);
    var ch' := Appended(ch, b, i);
    AppendLinksOwn(sh, m, ch, b, i);
    AppendDisjoint(ch, b, i);
    forall o | 0 <= o < |ch'|
      ensures InRange(sh, ch'[o]) && Linked(sh, m', o, ch'[o]) && KeysFit(sh, m', o, ch'[o])
    {
      assert KeysFit(sh, m, o, ch[o]);
      if o != b {
        AppendLinksOther(sh, m, ch, b, i, o);
      }
    }
    forall j | 0 <= j < sh.capacity && !Chained(ch', j)
      ensures m'.next[j] == INVALID
    {
      ChainedAfterAppend(ch, b, i, j);
      assert tail.Next? ==> tail.slot in ch[b];
    }
  }

  // An entry survives any change that leaves its slot chained and its key and value in place.
  lemma KeptEntry(sh: Shape, m: Mem, ch: Chains, m': Mem, ch': Chains, k: Key)
    requires WellChained(sh, m, ch) && WellChained(sh, m', ch') && k in Contents(sh, m, ch)
    requires Chained(ch', Contents(sh, m, ch)[k].0)
    requires var i := Contents(sh, m, ch)[k].0; i < sh.capacity && m'.keys[i] == k && m'.values[i] == Contents(sh, m, ch)[k].1
    ensures k in Contents(sh, m', ch') && Contents(sh, m', ch')[k] == Contents(sh, m, ch)[k]
  {
    ContentsAt(sh, m', ch', Contents(sh, m, ch)[k].0);
  }

  // Every entry survives an append, and none has the new key.
  lemma AppendKeepsEntry(sh: Shape, m: Mem, ch: Chains, i: nat, m': Mem, ch': Chains, k: Key)
    requires WellChained(sh, m, ch) && WellChained(sh, m', ch') && i < sh.capacity && !Chained(ch, i)
    requires m'.keys == m.keys && m'.values == m.values && ch' == Appended(ch, Bucket(sh, m.keys[i]), i)
    requires k in Contents(sh, m, ch)
    ensures k in Contents(sh, m', ch') && Contents(sh, m', ch')[k] == Contents(sh, m, ch)[k] && k != m.keys[i]
  {
    ContentsFrom(sh, m, ch, k);
    var j := Contents(sh, m, ch)[k].0;
    ChainedAfterAppend(ch, Bucket(sh, m.keys[i]), i, i);
    ChainedAfterAppend(ch, Bucket(sh, m.keys[i]), i, j);
    KeptEntry(sh, m, ch, m', ch', k);
    KeysDistinct(sh, m', ch', i, j);
  }

  lemma AppendAddsOne(sh: Shape, m: Mem, ch: Chains, i: nat, m': Mem, ch': Chains, k: Key)
    requires WellChained(sh, m, ch) && WellChained(sh, m', ch') && i < sh.capacity && !Chained(ch, i)
    requires m'.keys == m.keys && m'.values == m.values && ch' == Appended(ch, Bucket(sh, m.keys[i]), i)
    requires k in Contents(sh, m', ch')
    ensures k == m.keys[i] || k in Contents(sh, m, ch)
  {
    ContentsFrom(sh, m', ch', k);
    var j := Contents(sh, m', ch')[k].0;
    ChainedAfterAppend(ch, Bucket(sh, m.keys[i]), i, j);
    if j != i {
      ContentsAt(sh, m, ch, j);
    }
  }

  // Appending adds one entry to the dictionary and touches no other.
  lemma AppendContents(sh: Shape, m: Mem, ch: Chains, i: nat, m': Mem, ch': Chains)
    requires WellChained(sh, m, ch) && WellChained(sh, m', ch') && i < sh.capacity && !Chained(ch, i)
    requires m'.keys == m.keys && m'.values == m.values && ch' == Appended(ch, Bucket(sh, m.keys[i]), i)
    ensures m.keys[i] !in Contents(sh, m, ch)
    ensures Contents(sh, m', ch') == Contents(sh, m, ch)[m.keys[i] := (i, m.values[i])]
  {
    var before, after := Contents(sh, m, ch), Contents(sh, m', ch');
    ChainedAfterAppend(ch, Bucket(sh, m.keys[i]), i, i);
    ContentsAt(sh, m', ch', i);
    forall k | k in before
      ensures k in after && after[k] == before[k] && k != m.keys[i]
    {
      AppendKeepsEntry(sh, m, ch, i, m', ch', k);
    }
    forall k | k in after && k != m.keys[i]
      ensures k in before
    {
      AppendAddsOne(sh, m, ch, i, m', ch', k);
    }
    SameMap(after, before, m.keys[i], (i, m.values[i]));
  }

  lemma SameMap<K, V>(after: map<K, V>, before: map<K, V>, k0: K, v0: V)
    requires k0 in after && after[k0] == v0
    requires forall k :: k in before ==> k in after && after[k] == before[k] && k != k0
    requires forall k :: k in after && k != k0 ==> k in before
    ensures k0 !in before && after == before[k0 := v0]
  {
  }

  // A key is in the dictionary exactly when its own bucket's chain holds it.
  lemma AbsentFromChain(sh: Shape, m: Mem, ch: Chains, k: Key)
    requires WellChained(sh, m, ch)
    ensures k in Contents(sh, m, ch) <==> exists j :: 0 <= j < |ch[Bucket(sh, k)]| && m.keys[ch[Bucket(sh, k)][j]] == k
  {
    var b := Bucket(sh, k);
    if k in Contents(sh, m, ch) {
      ContentsFrom(sh, m, ch, k);
      var i := Contents(sh, m, ch)[k].0;
      var d :| 0 <= d < |ch| && i in ch[d];
      var j :| 0 <= j < |ch[d]| && ch[d][j] == i;
      assert KeysFit(sh, m, d, ch[d]);
    }
    if j :| 0 <= j < |ch[b]| && m.keys[ch[b][j]] == k {
      assert ch[b][j] in ch[b];
      ContentsAt(sh, m, ch, ch[b][j]);
    }
  }

  /* ---------- A fresh table ---------- */

  function NoChains(buckets: nat): Chains {
    seq(buckets, _ => [])
  }

  ghost predicate Blank(sh: Shape, m: Mem) {
    && Sized(sh, m)
    && (forall b :: 0 <= b < |m.heads| ==> m.heads[b] == INVALID)
    && (forall i :: 0 <= i < |m.next| ==> m.next[i] == INVALID)
  }

  // The constructor's memory has only empty chains and no entries.
  lemma BlankTable(sh: Shape, m: Mem)
    requires Blank(sh, m)
    ensures forall i: nat :: !Chained(NoChains(sh.buckets), i)
    ensures WellChained(sh, m, NoChains(sh.buckets)) && AllSet(sh, m, NoChains(sh.buckets))
    ensures Contents(sh, m, NoChains(sh.buckets)) == map[]
  {
    var ch := NoChains(sh.buckets);
    forall b | 0 <= b < |ch|
      ensures Linked(sh, m, b, ch[b])
    {
      assert ch[b] == [];
    }
    assert Slots(ch) == {};
    assert KeySet(sh, m, ch) == {};
  }
}
