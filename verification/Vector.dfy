/**
 * Kokkos::vector: a resizable array kept in a DualView, with elements read and written on
 * the host.
 */
module Vector {
  import opened DualView
  import opened Counting

  /** size_t(n * extra), in exact arithmetic. */
  function Grown(n: nat, extra: real): nat
    requires extra >= 0.0
  {
    (n as real * extra).Floor
  }

  /** Overallocation reserves enough for every size exactly when its factor is at least one. */
  lemma GrownCovers(extra: real)
    requires extra >= 0.0
    ensures (forall n: nat :: Grown(n, extra) >= n) <==> extra >= 1.0
  {
    if extra >= 1.0 {
      forall n: nat ensures Grown(n, extra) >= n {
        GrownAtLeast(n, extra);
      }
    } else {
      assert Grown(1, extra) < 1;
    }
  }

  lemma GrownAtLeast(n: nat, extra: real)
    requires extra >= 1.0
    ensures Grown(n, extra) >= n
  {
    assert n as real * (extra - 1.0) >= 0.0;
  }

  /** A run of equal elements over the places from .. to. */
  function Filled<T>(s: seq<T>, from: nat, to: nat, x: T): (r: seq<T>)
    requires from <= to <= |s|
    ensures |r| == |s|
    ensures forall i :: 0 <= i < |s| ==> r[i] == if from <= i < to then x else s[i]
  {
    seq(|s|, i requires 0 <= i < |s| => if from <= i < to then x else s[i])
  }

  /** std::copy_backward of [start, size) by count places. */
  function Shifted<T>(s: seq<T>, start: nat, size: nat, count: nat): (r: seq<T>)
    requires start <= size && size + count <= |s|
    ensures |r| == |s|
    ensures forall i :: 0 <= i < |s| ==> r[i] == if start + count <= i < size + count then s[i - count] else s[i]
  {
    seq(|s|, i requires 0 <= i < |s| => if start + count <= i < size + count then s[i - count] else s[i])
  }

  function Overwritten<T>(s: seq<T>, start: nat, xs: seq<T>): (r: seq<T>)
    requires start + |xs| <= |s|
    ensures |r| == |s|
    ensures forall i :: 0 <= i < |s| ==> r[i] == if start <= i < start + |xs| then xs[i - start] else s[i]
  {
    seq(|s|, i requires 0 <= i < |s| => if start <= i < start + |xs| then xs[i - start] else s[i])
  }

  // ------------------------------------------------------------------ operations

  datatype Vec<T> = Vec(dual: Dual<T>, size: nat, extra: real, zero: T) {

    function Span(): nat { |dual.device| }

    function ResizeTo(n: nat): Vec<T>
      requires extra >= 0.0
    {
      this.(dual := dual.Resize(Grown(n, extra), zero))
    }

    function Resize(n: nat): Vec<T>
      requires extra >= 0.0
    {
      (if n >= Span() then ResizeTo(n) else this).(size := n)
    }

    function Reserve(n: nat): Vec<T>
      requires extra >= 0.0
    {
      ResizeTo(n)
    }

    /** assign: fills whichever copy is current and marks it. */
    function Assign(n: nat, x: T): Vec<T>
      requires extra >= 1.0 && |dual.host| == |dual.device|
    {
      GrownAtLeast(n, extra);
      var v := if n > Span() then ResizeTo(n) else this;
      if v.dual.NeedSyncOfDevice() then
        v.(size := n, dual := v.dual.(host := Filled(v.dual.host, 0, n, x)).ModifyHost())
      else
        v.(size := n, dual := v.dual.(device := Filled(v.dual.device, 0, n, x)).ModifyDevice())
    }

    function PushBack(x: T): Vec<T>
      requires extra >= 1.0 && |dual.host| == |dual.device| && size <= Span()
    {
      GrownAtLeast(size, extra);
      var marked := dual.SyncOfHost().ModifyHost();
      var grown := Grown(size, extra);
      var room := if size == Span() then marked.Resize(if grown == size then size + 1 else grown, zero) else marked;
      this.(dual := room.WithHost(size, x), size := size + 1)
    }

    function PopBack(): Vec<T>
      requires size > 0
    {
      this.(size := size - 1)
    }

    function Clear(): Vec<T> {
      this.(size := 0)
    }

    /** insert(it, count, x), for an iterator `at` places behind begin(). */
    function Insert(at: nat, count: nat, x: T): Vec<T>
      requires extra >= 1.0 && |dual.host| == |dual.device| && size <= Span() && at <= size
    {
      if size == 0 then
        var v := Assign(count, x);
        v.(dual := v.dual.SyncHost())
      else
        var marked := this.(dual := dual.SyncHost().ModifyHost());
        if count == 0 then marked
        else
          GrownAtLeast(size + count, extra);
          var v := marked.Resize(size + count);
          v.(dual := v.dual.(host := Filled(Shifted(v.dual.host, at, size, count), at, at + count, x)))
    }

    /**
     * Whether insert(it, b, e) with `count` elements stays inside the allocation. On an empty
     * vector the size is read only after the vector has been resized, so copy_backward moves
     * the `count` new places up by another `count`.
     */
    predicate RangeMoveFits(count: nat)
      requires extra >= 0.0
    {
      size == 0 && count > 0 ==> 2 * count <= Resize(count).Span()
    }

    /** insert(it, b, e), where its move stays inside the allocation. */
    function InsertRange(at: nat, xs: seq<T>): Vec<T>
      requires extra >= 1.0 && |dual.host| == |dual.device| && size <= Span() && at <= size && RangeMoveFits(|xs|)
    {
      if xs == [] then this
      else
        GrownAtLeast(size + |xs|, extra);
        var v := RangeRoom(|xs|);
        var orgSize := if size == 0 then |xs| else size;
        v.(dual := v.dual.(host := Overwritten(Shifted(v.dual.host, at, orgSize, |xs|), at, xs)))
    }

    /** What insert(it, b, e) does before it moves: sync_host, modify_host and one of the two resizes. */
    function RangeRoom(count: nat): Vec<T>
      requires extra >= 0.0
    {
      this.(dual := dual.SyncHost().ModifyHost()).Resize(if size == 0 then count else size + count)
    }

    // ---------------------------------------------------------------- meaning

    ghost predicate Valid() {
      dual.Coherent() && size <= Span() && extra >= 1.0
    }

    ghost function Elements(): seq<T>
      requires Valid()
    {
      dual.Current()[..size]
    }

    /** The counters stay clear of wrapping around during the next operation. */
    ghost predicate Room() {
      Max(dual.hostFlag, dual.deviceFlag) + 2 < UINT32
    }
  }

  // ------------------------------------------------------------------ refinement

  lemma ResizeKeepsPrefix<T>(v: Vec<T>, n: nat)
    requires v.Valid() && v.Room()
    ensures v.Resize(n).Valid()
    ensures |v.Resize(n).Elements()| == n
    ensures forall i :: 0 <= i < n && i < v.size ==> v.Resize(n).Elements()[i] == v.Elements()[i]
  {
    GrownAtLeast(n, v.extra);
  }

  /** reserve keeps the elements exactly when it asks for enough room; otherwise size exceeds span. */
  lemma ReserveMeaning<T>(v: Vec<T>, n: nat)
    requires v.Valid() && v.Room()
    ensures v.Reserve(n).Valid() <==> Grown(n, v.extra) >= v.size
    ensures v.Reserve(n).Valid() ==> v.Reserve(n).Elements() == v.Elements()
  {
  }

  lemma AssignMeaning<T>(v: Vec<T>, n: nat, x: T)
    requires v.Valid() && v.Room()
    ensures v.Assign(n, x).Valid() && v.Assign(n, x).Elements() == Fresh(n, x)
  {
    GrownAtLeast(n, v.extra);
  }

  lemma PushBackMeaning<T>(v: Vec<T>, x: T)
    requires v.Valid() && v.Room() && v.dual.tracked
    ensures v.PushBack(x).Valid() && v.PushBack(x).Elements() == v.Elements() + [x]
  {
    GrownAtLeast(v.size, v.extra);
  }

  lemma PopBackMeaning<T>(v: Vec<T>)
    requires v.Valid() && v.size > 0
    ensures v.PopBack().Valid() && v.PopBack().Elements() == v.Elements()[..v.size - 1]
  {
  }

  /** sync_host, modify_host and resize leave the elements on the host. */
  lemma MarkedAndResized<T>(v: Vec<T>, n: nat)
    requires v.Valid() && v.Room() && v.dual.tracked && n >= v.size
    ensures var w := v.(dual := v.dual.SyncHost().ModifyHost()).Resize(n);
            && w.Valid() && w.size == n && w.extra == v.extra && w.dual.hostFlag > w.dual.deviceFlag
            && |w.dual.host| >= n && w.dual.host[..v.size] == v.Elements()
  {
    var marked := v.(dual := v.dual.SyncHost().ModifyHost());
    assert marked.Valid() && marked.dual.hostFlag > marked.dual.deviceFlag;
    assert marked.dual.host[..v.size] == v.Elements();
    GrownAtLeast(n, v.extra);
  }

  lemma InsertedAt<T>(s: seq<T>, at: nat, size: nat, xs: seq<T>)
    requires at <= size && size + |xs| <= |s|
    ensures Overwritten(Shifted(s, at, size, |xs|), at, xs)[..size + |xs|] == s[..size][..at] + xs + s[..size][at..]
  {
  }

  lemma FilledIsOverwritten<T>(s: seq<T>, at: nat, count: nat, x: T)
    requires at + count <= |s|
    ensures Filled(s, at, at + count, x) == Overwritten(s, at, Fresh(count, x))
  {
  }

  lemma InsertMeaning<T>(v: Vec<T>, at: nat, count: nat, x: T)
    requires v.Valid() && v.Room() && at <= v.size
    ensures v.Insert(at, count, x).Valid()
    ensures v.Insert(at, count, x).Elements() == v.Elements()[..at] + Fresh(count, x) + v.Elements()[at..]
  {
    if v.size == 0 {
      AssignMeaning(v, count, x);
    } else if count == 0 {
      var w := v.Insert(at, count, x);
      assert w.Valid() && w.Elements() == v.Elements();
      assert Fresh(count, x) == [] && v.Elements() == v.Elements()[..at] + [] + v.Elements()[at..];
    } else {
      MarkedAndResized(v, v.size + count);
      var w := v.(dual := v.dual.SyncHost().ModifyHost()).Resize(v.size + count);
      FilledIsOverwritten(Shifted(w.dual.host, at, v.size, count), at, count, x);
      InsertedAt(w.dual.host, at, v.size, Fresh(count, x));
    }
  }

  lemma OverwrittenStart<T>(s: seq<T>, xs: seq<T>)
    requires |xs| <= |s|
    ensures Overwritten(s, 0, xs)[..|xs|] == xs
  {
  }

  lemma InsertRangeMeaning<T>(v: Vec<T>, at: nat, xs: seq<T>)
    requires v.Valid() && v.Room() && at <= v.size && v.dual.tracked && v.RangeMoveFits(|xs|)
    ensures v.InsertRange(at, xs).Valid()
    ensures v.InsertRange(at, xs).Elements() == v.Elements()[..at] + xs + v.Elements()[at..]
  {
    if xs != [] {
      MarkedAndResized(v, v.size + |xs|);
      var w := v.RangeRoom(|xs|);
      if v.size == 0 {
        OverwrittenStart(Shifted(w.dual.host, 0, |xs|, |xs|), xs);
      } else {
        InsertedAt(w.dual.host, at, v.size, xs);
      }
    }
  }

  lemma ProductSign(x: real, y: real)
    requires x > 0.0
    ensures x * y >= 0.0 <==> y >= 0.0
  {
  }

  lemma GrownTwice(n: nat, extra: real)
    requires n > 0 && extra >= 1.0
    ensures Grown(n, extra) >= 2 * n <==> extra >= 2.0
  {
    ProductSign(n as real, extra - 2.0);
    assert n as real * (extra - 2.0) == n as real * extra - (2 * n) as real;
  }

  /**
   * insert(it, b, e) stays inside the allocation if and only if the vector has elements, the
   * range is empty, or there is room for the range twice: in the span, or, when the vector
   * has to grow, by a factor of at least two.
   */
  lemma RangeMoveFitsIff<T>(v: Vec<T>, count: nat)
    requires v.Valid()
    ensures v.RangeMoveFits(count) <==>
              || v.size > 0 || count == 0
              || (if count >= v.Span() then v.extra >= 2.0 else 2 * count <= v.Span())
  {
    if count > 0 {
      GrownTwice(count, v.extra);
    }
  }

  /** With the default factor every nonempty range overruns a default-constructed vector. */
  lemma DefaultRangeOverruns<T>(v: Vec<T>, count: nat)
    requires v.Valid() && !v.dual.tracked && v.extra < 2.0 && count > 0
    ensures !v.RangeMoveFits(count)
  {
    RangeMoveFitsIff(v, count);
  }

  /**
   * A default-constructed vector has no counters when its first push_back marks the host,
   * and the resize that follows marks the device; the next push_back then overwrites the
   * first element.  Two pushes keep both elements exactly when the first was a default value.
   */
  lemma UntrackedPushBack<T>(v: Vec<T>, x: T, y: T)
    requires v.Valid() && !v.dual.tracked
    ensures v.PushBack(x).Valid()
    ensures v.PushBack(x).PushBack(y).Valid()
    ensures v.PushBack(x).PushBack(y).Elements() == [x, y] <==> x == v.zero
  {
    var w := v.PushBack(x);
    assert Grown(0, v.extra) == 0;
    assert w.dual == Dual([x], [v.zero], true, 0, 1) && w.size == 1;
    GrownAtLeast(1, v.extra);
    assert w.dual.SyncOfHost().ModifyHost() == Dual([v.zero], [v.zero], true, 1, 0);
    assert w.PushBack(y).Elements() == [v.zero, y];
  }

  // ------------------------------------------------------------------ runs

  datatype VecOp<T> =
    | PushBack(x: T) | PopBack | Clear
    | Assign(n: nat, x: T) | Resize(n: nat) | Reserve(n: nat)
    | Insert(at: nat, count: nat, x: T) | InsertRange(at: nat, xs: seq<T>)

  /** What the operation may assume of its arguments; for a range insert, that its move fits. */
  ghost predicate Allowed<T>(v: Vec<T>, op: VecOp<T>) {
    match op
    case PopBack => v.size > 0
    case Reserve(n) => v.Valid() && Grown(n, v.extra) >= v.size
    case Insert(at, _, _) => at <= v.size
    case InsertRange(at, xs) => v.Valid() && at <= v.size && v.RangeMoveFits(|xs|)
    case _ => true
  }

  ghost function After<T>(v: Vec<T>, op: VecOp<T>): Vec<T>
    requires v.Valid() && Allowed(v, op)
  {
    match op
    case PushBack(x) => v.PushBack(x)
    case PopBack => v.PopBack()
    case Clear => v.Clear()
    case Assign(n, x) => v.Assign(n, x)
    case Resize(n) => v.Resize(n)
    case Reserve(n) => v.Reserve(n)
    case Insert(at, count, x) => v.Insert(at, count, x)
    case InsertRange(at, xs) => v.InsertRange(at, xs)
  }

  /** The same operation on a sequence; resize leaves the elements it adds open. */
  ghost predicate PlainStep<T>(s: seq<T>, op: VecOp<T>, t: seq<T>) {
    match op
    case PushBack(x) => t == s + [x]
    case PopBack => |s| > 0 && t == s[..|s| - 1]
    case Clear => t == []
    case Assign(n, x) => t == Fresh(n, x)
    case Resize(n) => |t| == n && forall i :: 0 <= i < n && i < |s| ==> t[i] == s[i]
    case Reserve(_) => t == s
    case Insert(at, count, x) => at <= |s| && t == s[..at] + Fresh(count, x) + s[at..]
    case InsertRange(at, xs) => at <= |s| && t == s[..at] + xs + s[at..]
  }

  lemma StepRefines<T>(v: Vec<T>, op: VecOp<T>)
    requires v.Valid() && v.Room() && v.dual.tracked && Allowed(v, op)
    ensures After(v, op).Valid() && After(v, op).dual.tracked
    ensures PlainStep(v.Elements(), op, After(v, op).Elements())
  {
    match op
    case PushBack(x) => PushBackMeaning(v, x);
    case PopBack => PopBackMeaning(v);
    case Clear =>
    case Assign(n, x) => AssignMeaning(v, n, x);
    case Resize(n) => ResizeKeepsPrefix(v, n);
    case Reserve(n) => ReserveMeaning(v, n);
    case Insert(at, count, x) => InsertMeaning(v, at, count, x);
    case InsertRange(at, xs) => InsertRangeMeaning(v, at, xs);
  }

  ghost function Flags<T>(v: Vec<T>): nat {
    Max(v.dual.hostFlag, v.dual.deviceFlag)
  }

  lemma StepFlags<T>(v: Vec<T>, op: VecOp<T>)
    requires v.Valid() && v.Room() && Allowed(v, op)
    ensures Flags(After(v, op)) <= Flags(v) + 2
  {
    match op
    case Assign(n, x) => GrownAtLeast(n, v.extra);
    case Insert(at, count, x) =>
      GrownAtLeast(count, v.extra);
      GrownAtLeast(v.size + count, v.extra);
    case InsertRange(at, xs) => GrownAtLeast(v.size + |xs|, v.extra);
    case _ =>
  }

  ghost predicate Stepped<T>(v: Vec<T>, op: VecOp<T>, w: Vec<T>) {
    v.Valid() ==> Allowed(v, op) && w == After(v, op)
  }

  ghost predicate Run<T>(states: seq<Vec<T>>, ops: seq<VecOp<T>>) {
    && |states| == |ops| + 1
    && forall t :: 0 <= t < |ops| ==>
         Stepped(states[t], ops[t], states[t + 1])
  }

  /** Every state of a run is valid; in particular size never exceeds span. */
  lemma {:induction false} RunStaysValid<T>(states: seq<Vec<T>>, ops: seq<VecOp<T>>, t: nat)
    requires Run(states, ops) && t <= |ops|
    requires states[0].Valid() && states[0].dual.tracked && Flags(states[0]) + 2 * |ops| + 1 < UINT32
    ensures states[t].Valid() && states[t].dual.tracked && Flags(states[t]) <= Flags(states[0]) + 2 * t
  {
    if t > 0 {
      RunStaysValid(states, ops, t - 1);
      assert Stepped(states[t - 1], ops[t - 1], states[t]);
      StepRefines(states[t - 1], ops[t - 1]);
      StepFlags(states[t - 1], ops[t - 1]);
    }
  }

  /** With counters, every run whose range inserts fit refines the same run on a sequence. */
  lemma RunRefines<T>(states: seq<Vec<T>>, ops: seq<VecOp<T>>, t: nat)
    requires Run(states, ops) && t < |ops|
    requires states[0].Valid() && states[0].dual.tracked && Flags(states[0]) + 2 * |ops| + 1 < UINT32
    ensures states[t].Valid() && states[t + 1].Valid()
    ensures PlainStep(states[t].Elements(), ops[t], states[t + 1].Elements())
  {
    RunStaysValid(states, ops, t);
    assert Stepped(states[t], ops[t], states[t + 1]);
    StepRefines(states[t], ops[t]);
  }

  // ------------------------------------------------------------------ the class

  datatype RangeInsert = Inserts | Aborts | Overruns

  class Vector<T> {
    const dv: View<T>
    var size: nat
    var extra: real

    ghost function Value(): Vec<T>
      reads this, dv, dv.hView, dv.dView
    {
      Vec(dv.State(), size, extra, dv.zero)
    }

    /** Enough storage for the elements, and a factor that keeps it so. */
    ghost predicate Sound()
      reads this, dv, dv.hView, dv.dView
    {
      dv.Valid() && extra >= 1.0 && size <= dv.dView.Length
    }

    constructor Empty(zero: T)
      ensures Sound() && fresh(dv) && fresh(dv.hView) && fresh(dv.dView)
      ensures Value().Valid() && Value().Elements() == [] && !Value().dual.tracked
    {
      dv := new View<T>.Empty(zero);
      size, extra := 0, 1.1;
    }

    constructor (n: nat, x: T, zero: T)
      ensures Sound() && fresh(dv) && fresh(dv.hView) && fresh(dv.dView)
      ensures Value().Valid() && Value().Elements() == Fresh(n, x) && Value().dual.tracked
      ensures Value().Span() == Grown(n, 1.1) && extra == 1.1
    {
      dv := new View<T>(Grown(n, 1.1), zero);
      size, extra := n, 1.1;
      new;
      dv.hostFlag := 1;
      GrownAtLeast(n, extra);
      AssignMeaning(Value(), n, x);
      Assign(n, x);
    }

    method Resize(n: nat)
      requires Sound()
      modifies this, dv
      ensures Sound() && Value() == old(Value()).Resize(n)
      ensures Reallocated(old(dv.hView), old(dv.dView))
    {
      GrownAtLeast(n, extra);
      if n >= dv.dView.Length {
        dv.Resize(Grown(n, extra));
      }
      size := n;
    }

    /** The views are the old ones or new ones. */
    twostate predicate Reallocated(hView: array<T>, dView: array<T>)
      reads this, dv
    {
      (dv.hView == hView || fresh(dv.hView)) && (dv.dView == dView || fresh(dv.dView))
    }

    method Assign(n: nat, x: T)
      requires Sound()
      modifies this, dv, dv.hView, dv.dView
      ensures Sound() && Value() == old(Value()).Assign(n, x)
      ensures Reallocated(old(dv.hView), old(dv.dView))
    {
      GrownAtLeast(n, extra);
      if n > dv.dView.Length {
        dv.Resize(Grown(n, extra));
      }
      size := n;
      if dv.tracked && dv.hostFlag > 0 && dv.hostFlag >= dv.deviceFlag {
        Fill(dv.hView, 0, n, x);
        dv.Modify(false);
      } else {
        Fill(dv.dView, 0, n, x);
        dv.Modify(true);
      }
    }

    method Fill(view: array<T>, from: nat, to: nat, x: T)
      requires from <= to <= view.Length
      modifies view
      ensures view[..] == Filled(old(view[..]), from, to, x)
    {
      forall i | from <= i < to {
        view[i] := x;
      }
    }
  
    method Reserve(n: nat)
      requires Sound()
      modifies this, dv
      ensures Value() == old(Value()).Reserve(n)
      ensures Grown(n, extra) >= size ==> Sound()
      ensures Reallocated(old(dv.hView), old(dv.dView))
    {
      dv.Resize(Grown(n, extra));
    }

    method PushBack(x: T)
      requires Sound()
      modifies this, dv, dv.hView, dv.dView
      ensures Sound() && Value() == old(Value()).PushBack(x)
      ensures Reallocated(old(dv.hView), old(dv.dView))
    {
      dv.SyncOf(false);
      dv.Modify(false);
      if size == dv.dView.Length {
        GrownAtLeast(size, extra);
        var newSize := Grown(size, extra);
        if newSize == size { newSize := newSize + 1; }
        dv.Resize(newSize);
      }
      dv.hView[size] := x;
      size := size + 1;
    }

    method PopBack()
      requires Sound() && size > 0
      modifies this
      ensures Sound() && Value() == old(Value()).PopBack()
    {
      size := size - 1;
    }

    method Clear()
      requires Sound()
      modifies this
      ensures Sound() && Value() == old(Value()).Clear()
    {
      size := 0;
    }

    /** std::copy_backward inside the host view. */
    method MoveUp(view: array<T>, start: nat, end: nat, count: nat)
      requires start <= end && end + count <= view.Length
      modifies view
      ensures view[..] == Shifted(old(view[..]), start, end, count)
    {
      forall i | start <= i < end {
        view[i + count] := view[i];
      }
    }

    /** insert(it, count, x), `at` places behind begin(); `ok` is false where it aborts. */
    method Insert(at: int, count: nat, x: T) returns (ok: bool)
      requires Sound()
      modifies this, dv, dv.hView, dv.dView
      ensures Sound() && (ok <==> 0 <= at <= old(size))
      ensures ok ==> Value() == old(Value()).Insert(at, count, x)
      ensures Reallocated(old(dv.hView), old(dv.dView))
    {
      if size == 0 && at == 0 {
        Assign(count, x);
        dv.SyncHost();
        return true;
      }
      dv.SyncHost();
      dv.Modify(false);
      if at < 0 || at > size { return false; }
      if count == 0 { return true; }
      InsertCopies(at, count, x);
      ok := true;
    }

    method InsertCopies(at: nat, count: nat, x: T)
      requires Sound() && at <= size
      modifies this, dv, dv.hView
      ensures Sound() && old(Value()).Resize(old(size) + count).Span() >= old(size) + count
      ensures var v, n := old(Value()).Resize(old(size) + count), old(size);
              Value() == v.(dual := v.dual.(host := Filled(Shifted(v.dual.host, at, n, count), at, at + count, x)))
      ensures Reallocated(old(dv.hView), old(dv.dView))
    {
      var orgSize := size;
      Resize(size + count);
      MoveUp(dv.hView, at, orgSize, count);
      Fill(dv.hView, at, at + count, x);
    }

    /** insert(it, b, e), up to a move that would leave the allocation. */
    method InsertRange(at: int, xs: seq<T>) returns (r: RangeInsert)
      requires Sound()
      modifies this, dv, dv.hView, dv.dView
      ensures Sound()
      ensures r.Aborts? <==> xs != [] && !(0 <= at <= old(size))
      ensures r.Overruns? <==> 0 <= at <= old(size) && !old(Value().RangeMoveFits(|xs|))
      ensures r.Inserts? && 0 <= at <= old(size) ==> Value() == old(Value()).InsertRange(at, xs)
      ensures r.Overruns? ==> Value() == old(Value()).RangeRoom(|xs|)
      ensures xs == [] ==> Value() == old(Value())
      ensures Reallocated(old(dv.hView), old(dv.dView))
    {
      if |xs| == 0 { return Inserts; }
      dv.SyncHost();
      dv.Modify(false);
      if at < 0 || at > size { return Aborts; }
      var resized := false;
      if size == 0 && at == 0 {
        Resize(|xs|);
        resized := true;
      }
      var orgSize := size;
      if !resized { Resize(size + |xs|); }
      if orgSize + |xs| > dv.hView.Length { return Overruns; }
      MoveAndCopy(at, orgSize, xs);
      r := Inserts;
    }

    method MoveAndCopy(at: nat, end: nat, xs: seq<T>)
      requires Sound() && at <= end && end + |xs| <= dv.hView.Length
      modifies dv.hView
      ensures Sound()
      ensures Value() == old(Value().(dual := dv.State().(host := Overwritten(Shifted(dv.hView[..], at, end, |xs|), at, xs))))
    {
      MoveUp(dv.hView, at, end, |xs|);
      CopyIn(dv.hView, at, xs);
    }

    method CopyIn(view: array<T>, start: nat, xs: seq<T>)
      requires start + |xs| <= view.Length
      modifies view
      ensures view[..] == Overwritten(old(view[..]), start, xs)
    {
      forall i | start <= i < start + |xs| {
        view[i] := xs[i - start];
      }
    }
  }

  /** vector(1, x), clear(), insert(begin(), b, b + 10): 11 places, of which the move writes 10 .. 19. */
  method RangeIntoCleared<T>(x: T, zero: T, xs: seq<T>) returns (r: RangeInsert, places: nat)
    requires |xs| == 10
    ensures r == Overruns && places == 11
  {
    var v := new Vector<T>(1, x, zero);
    v.Clear();
    RangeMoveFitsIff(v.Value(), 10);
    r := v.InsertRange(0, xs);
    places := v.dv.hView.Length;
  }

  // ------------------------------------------------------------------ searching

  ghost predicate Sorted(s: seq<int>) {
    forall i, j :: 0 <= i <= j < |s| ==> s[i] <= s[j]
  }

  /** find, on the elements of the host view; the result `|h|` stands for end(). */
  method Find(h: seq<int>, val: int) returns (at: nat)
    requires Sorted(h)
    ensures at <= |h|
    ensures at == |h| <==> val !in h
    ensures at < |h| ==> h[at] == val && forall i :: 0 <= i < at ==> h[i] < val
  {
    if |h| == 0 { return |h|; }
    var current, upper, lower := |h| / 2, |h| - 1, 0;
    if val < h[0] || val > h[|h| - 1] { return |h|; }
    while upper > lower
      invariant 0 <= lower <= upper < |h|
      invariant lower <= current <= upper && (upper > lower && upper < |h| - 1 ==> current < upper)
      invariant forall i :: 0 <= i < lower ==> h[i] < val
      invariant val <= h[upper]
      decreases upper - lower, current
    {
      if val > h[current] {
        lower := current + 1;
      } else {
        upper := current;
      }
      current := (upper + lower) / 2;
    }
    if val == h[current] { at := current; } else { at := |h|; }
  }

  ghost predicate IsLowerBound(h: seq<int>, start: nat, theEnd: nat, val: int, at: int)
    requires theEnd <= |h|
  {
    && start <= at <= theEnd
    && (forall i :: start <= i < at ==> h[i] < val)
    && (at < theEnd ==> h[at] >= val)
  }

  /**
   * lower_bound never looks past the last element, so it finds the lower bound of a range
   * that reaches the end exactly when that element decides the search. An end beyond the
   * elements is treated as the end of the elements, except that an empty range returns it.
   */
  method LowerBound(h: seq<int>, start: nat, theEnd: nat, val: int) returns (at: int)
    requires Sorted(h)
    ensures start <= theEnd <= |h| ==>
              (IsLowerBound(h, start, theEnd, val, at) <==>
                 theEnd < |h| || start == |h| || (if start == |h| - 1 then h[start] < val else h[|h| - 1] >= val))
    ensures theEnd >= |h| > start + 1 ==>
              if h[|h| - 1] < val then at == |h| - 1 else IsLowerBound(h, start, |h|, val, at)
    ensures theEnd <= start || |h| <= start + 1 ==> at == theEnd
  {
    var lower, upper := start, if |h| > theEnd then theEnd else |h| - 1;
    if upper <= lower { return theEnd; }
    var lowerVal, upperVal := h[lower], h[upper];
    var idx := (upper + lower) / 2;
    var v := h[idx];
    if v > upperVal { return upper; }
    if v < lowerVal { return start; }
    ghost var top := upper;
    while upper > lower
      invariant start <= lower <= upper <= top && idx == (upper + lower) / 2 && v == h[idx]
      invariant forall i :: start <= i < lower ==> h[i] < val
      invariant upper < top ==> h[upper] >= val
    {
      if val > v {
        idx := idx + 1;
        lower := idx;
      } else {
        upper := idx;
      }
      idx := (upper + lower) / 2;
      v := h[idx];
    }
    return idx;
  }
}
