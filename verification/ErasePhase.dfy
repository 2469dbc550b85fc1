/** Ending an erase phase: each bucket drops the slots whose bit was cleared, relinking the rest in place.
    One removal takes one slot out of the middle of a chain; it is the mirror image of an append. */
module ErasePhase {
  import opened MapMemory
  import opened InsertProtocol

  // Chain b without the slot at place x.
  function WithoutSlot(ch: Chains, b: nat, x: nat): Chains
    requires b < |ch| && x < |ch[b]|
  {
    ch[b := ch[b][..x] + ch[b][x + 1..]]
  }

  // The link to the slot now skips it; its own link and key are blanked.
  ghost function Unlinked(sh: Shape, m: Mem, ch: Chains, b: nat, x: nat, blank: Key): (r: Mem)
    requires WellChained(sh, m, ch) && b < sh.buckets && x < |ch[b]|
    ensures Sized(sh, r)
  {
    LoadAlongChain(sh, m, ch, b, x);
    assert InRange(sh, ch[b]);
    var linked := Store(sh, m, PtrAt(b, ch[b], x), Target(ch[b], x + 1));
    linked.(next := linked.next[ch[b][x] := INVALID], keys := linked.keys[ch[b][x] := blank])
  }

  lemma WithoutSlotElements(ch: Chains, b: nat, x: nat, d: nat, i: nat)
    requires Disjoint(ch) && b < |ch| && x < |ch[b]| && d < |ch|
    ensures i in WithoutSlot(ch, b, x)[d] <==> i in ch[d] && i != ch[b][x]
  {
    var i0 := ch[b][x];
    assert i0 in ch[b];
    if d == b {
      var r := ch[b][..x] + ch[b][x + 1..];
      if i in ch[b] && i != i0 {
        var j :| 0 <= j < |ch[b]| && ch[b][j] == i;
        assert r[if j < x then j else j - 1] == i;
      }
      if i in r {
        var j :| 0 <= j < |r| && r[j] == i;
        assert ch[b][if j < x then j else j + 1] == i;
      }
    } else if b < d {
      assert i0 !in ch[d];
    } else {
      assert i0 !in ch[d];
    }
  }

  lemma ChainedWithoutSlot(ch: Chains, b: nat, x: nat, i: nat)
    requires Disjoint(ch) && b < |ch| && x < |ch[b]|
    ensures Chained(WithoutSlot(ch, b, x), i) <==> Chained(ch, i) && i != ch[b][x]
  {
    var ch' := WithoutSlot(ch, b, x);
    forall d: nat | d < |ch|
      ensures i in ch'[d] <==> i in ch[d] && i != ch[b][x]
    {
      WithoutSlotElements(ch, b, x, d, i);
    }
    if Chained(ch, i) && i != ch[b][x] {
      var d :| 0 <= d < |ch| && i in ch[d];
      assert i in ch'[d];
    }
    if Chained(ch', i) {
      var d :| 0 <= d < |ch'| && i in ch'[d];
      assert i in ch[d];
    }
  }

  lemma WithoutSlotDisjoint(ch: Chains, b: nat, x: nat)
    requires Disjoint(ch) && b < |ch| && x < |ch[b]|
    ensures Disjoint(WithoutSlot(ch, b, x))
  {
    var ch' := WithoutSlot(ch, b, x);
    forall d, e, i: nat | 0 <= d < e < |ch'| && i in ch'[d]
      ensures i !in ch'[e]
    {
      WithoutSlotElements(ch, b, x, d, i);
      WithoutSlotElements(ch, b, x, e, i);
      assert i in ch[d] ==> i !in ch[e];
    }
  }

  // The links of the shortened chain.
  lemma UnlinkOwn(sh: Shape, m: Mem, ch: Chains, b: nat, x: nat, blank: Key)
    requires WellChained(sh, m, ch) && b < sh.buckets && x < |ch[b]|
    ensures InRange(sh, WithoutSlot(ch, b, x)[b])
    ensures Linked(sh, Unlinked(sh, m, ch, b, x, blank), b, WithoutSlot(ch, b, x)[b])
  {
    var c, r := ch[b], WithoutSlot(ch, b, x)[b];
    var m' := Unlinked(sh, m, ch, b, x, blank);
    assert InRange(sh, c);
    forall p: nat | p <= |r|
      ensures Load(sh, m', PtrAt(b, r, p)) == Target(r, p)
    {
      UnlinkOwnAt(sh, m, ch, b, x, blank, p);
    }
  }

  lemma UnlinkOwnAt(sh: Shape, m: Mem, ch: Chains, b: nat, x: nat, blank: Key, p: nat)
    requires WellChained(sh, m, ch) && b < sh.buckets && x < |ch[b]|
    requires p < |ch[b]|
    ensures var r := WithoutSlot(ch, b, x)[b];
            && ValidPtr(sh, PtrAt(b, r, p))
            && Load(sh, Unlinked(sh, m, ch, b, x, blank), PtrAt(b, r, p)) == Target(r, p)
  {
    var c, r := ch[b], WithoutSlot(ch, b, x)[b];
    var q := if p <= x then p else p + 1;
    assert InRange(sh, c);
    LoadAlongChain(sh, m, ch, b, q);
    assert PtrAt(b, r, p) == PtrAt(b, c, q);
    assert p > 0 ==> r[p - 1] != c[x];
    assert p != x ==> PtrAt(b, c, q) != PtrAt(b, c, x);
    assert Target(r, p) == if p < x then Target(c, p) else Target(c, p + 1);
  }

  lemma UnlinkOther(sh: Shape, m: Mem, ch: Chains, b: nat, x: nat, blank: Key, o: nat)
    requires WellChained(sh, m, ch) && b < sh.buckets && x < |ch[b]| && o < sh.buckets && o != b
    ensures Linked(sh, Unlinked(sh, m, ch, b, x, blank), o, ch[o])
  {
    var m' := Unlinked(sh, m, ch, b, x, blank);
    forall p: nat | p <= |ch[o]|
      ensures Load(sh, m', PtrAt(o, ch[o], p)) == Target(ch[o], p)
    {
      LoadAlongChain(sh, m, ch, o, p);
      if p > 0 {
        SlotsApart(ch, b, x, o, p - 1);
        if x > 0 { SlotsApart(ch, b, x - 1, o, p - 1); }
      }
    }
  }

  lemma SlotsApart(ch: Chains, b: nat, x: nat, o: nat, p: nat)
    requires Disjoint(ch) && b < |ch| && o < |ch| && b != o && x < |ch[b]| && p < |ch[o]|
    ensures ch[b][x] != ch[o][p]
  {
    assert ch[b][x] in ch[b] && ch[o][p] in ch[o];
  }

  lemma UnlinkKeys(sh: Shape, m: Mem, ch: Chains, b: nat, x: nat, blank: Key, o: nat)
    requires WellChained(sh, m, ch) && b < sh.buckets && x < |ch[b]| && o < sh.buckets
    ensures InRange(sh, WithoutSlot(ch, b, x)[o]) && KeysFit(sh, Unlinked(sh, m, ch, b, x, blank), o, WithoutSlot(ch, b, x)[o])
  {
    assert KeysFit(sh, m, o, ch[o]) && InRange(sh, ch[o]);
    forall j | 0 <= j < |WithoutSlot(ch, b, x)[o]|
      ensures WithoutSlot(ch, b, x)[o][j] < sh.capacity
      ensures Unlinked(sh, m, ch, b, x, blank).keys[WithoutSlot(ch, b, x)[o][j]] == m.keys[WithoutSlot(ch, b, x)[o][j]]
    {
      UnlinkKeyAt(sh, m, ch, b, x, blank, o, j);
    }
  }

  lemma UnlinkKeyAt(sh: Shape, m: Mem, ch: Chains, b: nat, x: nat, blank: Key, o: nat, j: nat)
    requires WellChained(sh, m, ch) && b < sh.buckets && x < |ch[b]| && o < sh.buckets && j < |WithoutSlot(ch, b, x)[o]|
    ensures var i := WithoutSlot(ch, b, x)[o][j];
            i in ch[o] && i < sh.capacity && Unlinked(sh, m, ch, b, x, blank).keys[i] == m.keys[i]
  {
    assert InRange(sh, ch[o]);
    WithoutSlotElements(ch, b, x, o, WithoutSlot(ch, b, x)[o][j]);
  }

  /** Taking one slot out leaves a well-formed table. */
  lemma UnlinkKeepsWellChained(sh: Shape, m: Mem, ch: Chains, b: nat, x: nat, blank: Key)
    requires WellChained(sh, m, ch) && b < sh.buckets && x < |ch[b]|
    ensures WellChained(sh, Unlinked(sh, m, ch, b, x, blank), WithoutSlot(ch, b, x))
  {
    var m', ch' := Unlinked(sh, m, ch, b, x, blank), WithoutSlot(ch, b, x);
    WithoutSlotDisjoint(ch, b, x);
    forall o | 0 <= o < |ch'|
      ensures InRange(sh, ch'[o]) && Linked(sh, m', o, ch'[o]) && KeysFit(sh, m', o, ch'[o])
    {
      UnlinkKeys(sh, m, ch, b, x, blank, o);
      if o == b {
        UnlinkOwn(sh, m, ch, b, x, blank);
      } else {
        UnlinkOther(sh, m, ch, b, x, blank, o);
      }
    }
    forall i | 0 <= i < sh.capacity && !Chained(ch', i)
      ensures m'.next[i] == INVALID
    {
      ChainedWithoutSlot(ch, b, x, i);
      if x > 0 { ChainedAt(ch, b, x - 1); }
      UnlinkedLinks(sh, m, ch, b, x, blank, i);
    }
  }

  lemma UnlinkedLinks(sh: Shape, m: Mem, ch: Chains, b: nat, x: nat, blank: Key, i: nat)
    requires WellChained(sh, m, ch) && b < sh.buckets && x < |ch[b]| && i < sh.capacity
    ensures var next := Unlinked(sh, m, ch, b, x, blank).next;
            next[i] == if i == ch[b][x] then INVALID else if x > 0 && i == ch[b][x - 1] then Target(ch[b], x + 1) else m.next[i]
  {
  }

  // And it leaves the rest of the contents alone.
  lemma UnlinkContents(sh: Shape, m: Mem, ch: Chains, b: nat, x: nat, blank: Key, m': Mem, ch': Chains)
    requires WellChained(sh, m, ch) && b < sh.buckets && x < |ch[b]|
    requires m' == Unlinked(sh, m, ch, b, x, blank) && ch' == WithoutSlot(ch, b, x) && WellChained(sh, m', ch')
    ensures forall k :: k in Contents(sh, m', ch') <==> k in Contents(sh, m, ch) && Contents(sh, m, ch)[k].0 != ch[b][x]
    ensures forall k :: k in Contents(sh, m', ch') ==> Contents(sh, m', ch')[k] == Contents(sh, m, ch)[k]
  {
    var before, after := Contents(sh, m, ch), Contents(sh, m', ch');
    forall k | k in before && before[k].0 != ch[b][x]
      ensures k in after && after[k] == before[k]
    {
      ContentsFrom(sh, m, ch, k);
      ChainedWithoutSlot(ch, b, x, before[k].0);
      KeptEntry(sh, m, ch, m', ch', k);
    }
    forall k | k in after
      ensures k in before && before[k] == after[k] && before[k].0 != ch[b][x]
    {
      ContentsFrom(sh, m', ch', k);
      ChainedWithoutSlot(ch, b, x, after[k].0);
      ContentsAt(sh, m, ch, after[k].0);
    }
  }
}
