/**
 * Kokkos::DualView: a host copy and a device copy of one array in two distinct memory
 * spaces, and two modification counters that say which copy is the latest.
 */
module DualView {
  import opened Counting

  /** The counters are 32-bit unsigned. */
  function Wrap(flag: nat): (w: nat)
    ensures w < UINT32
    ensures flag < UINT32 ==> w == flag
  {
    if flag < UINT32 then flag else flag % UINT32
  }

  function Max(a: nat, b: nat): nat {
    if b > a then b else a
  }

  /** What Kokkos::resize leaves of the elements: the common prefix, then fresh ones. */
  function Resized<T>(s: seq<T>, n: nat, zero: T): (r: seq<T>)
    ensures |r| == n
    ensures forall i :: 0 <= i < n ==> r[i] == if i < |s| then s[i] else zero
  {
    if n <= |s| then s[..n] else s + Fresh(n - |s|, zero)
  }

  function Fresh<T>(n: nat, zero: T): (r: seq<T>)
    ensures |r| == n
    ensures forall i :: 0 <= i < n ==> r[i] == zero
  {
    seq(n, i => zero)
  }

  // ------------------------------------------------------------------ state and operations

  /** Both copies and both counters; a default-constructed view has no counters to write. */
  datatype Dual<T> = Dual(host: seq<T>, device: seq<T>, tracked: bool, hostFlag: nat, deviceFlag: nat) {

    function NeedSyncHost(): bool { tracked && hostFlag < deviceFlag }

    function NeedSyncDevice(): bool { tracked && deviceFlag < hostFlag }

    /** need_sync<Device> for the host and for the device side. */
    function NeedSyncOfHost(): bool { tracked && deviceFlag > 0 && deviceFlag >= hostFlag }

    function NeedSyncOfDevice(): bool { tracked && hostFlag > 0 && hostFlag >= deviceFlag }

    function PulledToHost(): Dual<T> { this.(host := device, hostFlag := 0, deviceFlag := 0) }

    function PulledToDevice(): Dual<T> { this.(device := host, hostFlag := 0, deviceFlag := 0) }

    function SyncHost(): Dual<T> { if NeedSyncHost() then PulledToHost() else this }

    function SyncDevice(): Dual<T> { if NeedSyncDevice() then PulledToDevice() else this }

    /** sync<Device>. */
    function SyncOfHost(): Dual<T> { if NeedSyncOfHost() then PulledToHost() else this }

    function SyncOfDevice(): Dual<T> { if NeedSyncOfDevice() then PulledToDevice() else this }

    function ModifyHost(): Dual<T> {
      if tracked then this.(hostFlag := Wrap(Max(hostFlag, deviceFlag) + 1)) else this
    }

    function ModifyDevice(): Dual<T> {
      if tracked then this.(deviceFlag := Wrap(Max(hostFlag, deviceFlag) + 1)) else this
    }

    function WithHost(i: nat, x: T): Dual<T>
      requires i < |host|
    {
      this.(host := host[i := x])
    }

    function WithDevice(i: nat, x: T): Dual<T>
      requires i < |device|
    {
      this.(device := device[i := x])
    }

    /** resize: the current copy is resized, the other one is allocated anew. */
    function Resize(n: nat, zero: T): Dual<T> {
      if deviceFlag >= hostFlag then
        Dual(Fresh(n, zero), Resized(device, n, zero), true, hostFlag, Wrap(deviceFlag + 1))
      else
        Dual(Resized(host, n, zero), Fresh(n, zero), true, Wrap(hostFlag + 1), deviceFlag)
    }

    function Realloc(n: nat, zero: T): Dual<T> {
      Dual(Fresh(n, zero), Fresh(n, zero), true, 0, 0)
    }

    /** deep_copy(this, src), for views of equal extent. */
    function CopyFrom(src: Dual<T>): Dual<T> {
      if src.NeedSyncDevice() then this.(host := src.host).ModifyHost()
      else this.(device := src.device).ModifyDevice()
    }

    // ---------------------------------------------------------------- what it keeps

    /**
     * Equal counters are zero and both copies agree; a view without counters is empty.
     * With unequal counters the larger one marks the latest copy, and the other may be stale.
     */
    ghost predicate Coherent() {
      && |host| == |device|
      && hostFlag < UINT32 && deviceFlag < UINT32
      && (!tracked ==> host == [] && hostFlag == 0 && deviceFlag == 0)
      && (hostFlag == deviceFlag ==> hostFlag == 0 && host == device)
    }

    /** The latest value. */
    ghost function Current(): seq<T> {
      if hostFlag > deviceFlag then host else device
    }

    ghost predicate Room() {
      Max(hostFlag, deviceFlag) + 1 < UINT32
    }
  }

  /**
   * The templated sync and need_sync decide like the named ones exactly when the counters
   * are not equal and nonzero, which no coherent state is.
   */
  lemma SyncsAgree<T>(s: Dual<T>)
    ensures s.tracked ==>
      ((s.SyncOfHost() == s.SyncHost() && s.SyncOfDevice() == s.SyncDevice())
       <==> !(s.hostFlag == s.deviceFlag && s.hostFlag > 0))
    ensures s.Coherent() ==>
              && s.NeedSyncOfHost() == s.NeedSyncHost() && s.NeedSyncOfDevice() == s.NeedSyncDevice()
              && s.SyncOfHost() == s.SyncHost() && s.SyncOfDevice() == s.SyncDevice()
  {
  }

  /** After a sync of the host it holds the latest value; if it was behind, nothing is marked any more, else nothing changed. */
  ghost predicate HostSynced<T>(s: Dual<T>, t: Dual<T>) {
    && t.host == s.Current() && t.device == s.device && !t.NeedSyncHost() && !t.NeedSyncOfHost()
    && (if s.hostFlag < s.deviceFlag then t.hostFlag == t.deviceFlag == 0 else t == s)
  }

  ghost predicate DeviceSynced<T>(s: Dual<T>, t: Dual<T>) {
    && t.device == s.Current() && t.host == s.host && !t.NeedSyncDevice() && !t.NeedSyncOfDevice()
    && (if s.deviceFlag < s.hostFlag then t.hostFlag == t.deviceFlag == 0 else t == s)
  }

  /** Each kind of sync of a side brings that side the latest value, and need_sync says exactly when it has to. */
  lemma SyncBringsLatest<T>(s: Dual<T>)
    requires s.Coherent()
    ensures HostSynced(s, s.SyncHost()) && HostSynced(s, s.SyncOfHost())
    ensures DeviceSynced(s, s.SyncDevice()) && DeviceSynced(s, s.SyncOfDevice())
    ensures s.SyncHost().Coherent() && s.SyncDevice().Coherent()
    ensures s.NeedSyncHost() <==> s.hostFlag < s.deviceFlag
    ensures s.NeedSyncDevice() <==> s.deviceFlag < s.hostFlag
  {
  }

  /** Marking a side as modified makes it the latest exactly when the counter does not wrap around. */
  lemma ModifyMarks<T>(s: Dual<T>)
    requires s.tracked && s.hostFlag < UINT32 && s.deviceFlag < UINT32
    ensures s.ModifyHost().hostFlag > s.ModifyHost().deviceFlag <==> s.Room()
    ensures s.ModifyDevice().deviceFlag > s.ModifyDevice().hostFlag <==> s.Room()
  {
    if !s.Room() {
      assert Max(s.hostFlag, s.deviceFlag) + 1 == UINT32;
      assert Wrap(UINT32) == 0;
    }
  }

  /** Marking a side loses nothing exactly when it is not behind, or does not differ. */
  lemma ModifyKeepsCurrent<T>(s: Dual<T>)
    requires s.Coherent() && s.Room()
    ensures s.ModifyHost().Current() == s.Current() <==> (!s.NeedSyncHost() || s.host == s.device)
    ensures s.ModifyDevice().Current() == s.Current() <==> (!s.NeedSyncDevice() || s.host == s.device)
  {
  }

  // ------------------------------------------------------------------ runs

  datatype Op<T> =
    | SyncHost | SyncDevice | SyncOfHost | SyncOfDevice
    | ModifyHost | ModifyDevice
    | WriteHost(i: nat, x: T) | WriteDevice(i: nat, x: T)
    | Resize(n: nat) | Realloc(n: nat)
    | CopyFrom(src: Dual<T>)

  /** A client marks a side only while the other is not ahead, and writes only a marked side. */
  ghost predicate Disciplined<T>(s: Dual<T>, op: Op<T>) {
    match op
    case SyncHost | SyncDevice | SyncOfHost | SyncOfDevice => true
    case ModifyHost => !s.NeedSyncHost()
    case ModifyDevice => !s.NeedSyncDevice()
    case WriteHost(i, _) => s.hostFlag > s.deviceFlag && i < |s.host|
    case WriteDevice(i, _) => s.deviceFlag > s.hostFlag && i < |s.device|
    case Resize(_) | Realloc(_) => true
    case CopyFrom(src) => src.Coherent() && |src.host| == |s.host|
  }

  ghost function After<T>(s: Dual<T>, op: Op<T>, zero: T): Dual<T>
    requires Disciplined(s, op)
  {
    match op
    case SyncHost => s.SyncHost()
    case SyncDevice => s.SyncDevice()
    case SyncOfHost => s.SyncOfHost()
    case SyncOfDevice => s.SyncOfDevice()
    case ModifyHost => s.ModifyHost()
    case ModifyDevice => s.ModifyDevice()
    case WriteHost(i, x) => s.WithHost(i, x)
    case WriteDevice(i, x) => s.WithDevice(i, x)
    case Resize(n) => s.Resize(n, zero)
    case Realloc(n) => s.Realloc(n, zero)
    case CopyFrom(src) => s.CopyFrom(src)
  }

  /** The same step on a single array. */
  ghost function Plain<T>(v: seq<T>, op: Op<T>, zero: T): seq<T> {
    match op
    case WriteHost(i, x) => if i < |v| then v[i := x] else v
    case WriteDevice(i, x) => if i < |v| then v[i := x] else v
    case Resize(n) => Resized(v, n, zero)
    case Realloc(n) => Fresh(n, zero)
    case CopyFrom(src) => src.Current()
    case _ => v
  }

  lemma StepCoherent<T>(s: Dual<T>, op: Op<T>, zero: T)
    requires s.Coherent() && s.Room() && Disciplined(s, op)
    ensures After(s, op, zero).Coherent()
    ensures After(s, op, zero).Current() == Plain(s.Current(), op, zero)
    ensures Max(After(s, op, zero).hostFlag, After(s, op, zero).deviceFlag) <= Max(s.hostFlag, s.deviceFlag) + 1
  {
  }

  ghost predicate Run<T>(states: seq<Dual<T>>, ops: seq<Op<T>>, zero: T) {
    && |states| == |ops| + 1
    && forall t :: 0 <= t < |ops| ==> Disciplined(states[t], ops[t]) && states[t + 1] == After(states[t], ops[t], zero)
  }

  /** What a run does to a single array. */
  ghost function PlainRun<T>(v: seq<T>, ops: seq<Op<T>>, zero: T): seq<T> {
    if ops == [] then v else Plain(PlainRun(v, ops[..|ops| - 1], zero), ops[|ops| - 1], zero)
  }

  /**
   * Every disciplined run keeps the view coherent, its latest copy holds what the same
   * operations make of a single array, and both kinds of sync decide alike.
   */
  lemma {:induction false} RunCoherent<T>(states: seq<Dual<T>>, ops: seq<Op<T>>, zero: T, t: nat)
    requires Run(states, ops, zero) && t <= |ops|
    requires states[0].Coherent() && Max(states[0].hostFlag, states[0].deviceFlag) + |ops| < UINT32
    ensures states[t].Coherent()
    ensures states[t].Current() == PlainRun(states[0].Current(), ops[..t], zero)
    ensures states[t].SyncOfHost() == states[t].SyncHost() && states[t].SyncOfDevice() == states[t].SyncDevice()
    ensures Max(states[t].hostFlag, states[t].deviceFlag) <= Max(states[0].hostFlag, states[0].deviceFlag) + t
  {
    if t > 0 {
      RunCoherent(states, ops, zero, t - 1);
      StepCoherent(states[t - 1], ops[t - 1], zero);
      assert ops[..t][..t - 1] == ops[..t - 1];
    }
    SyncsAgree(states[t]);
  }

  /** Right after a sync of a side, that side holds what the run makes of a single array. */
  lemma RunSynced<T>(states: seq<Dual<T>>, ops: seq<Op<T>>, zero: T, t: nat)
    requires Run(states, ops, zero) && t < |ops|
    requires states[0].Coherent() && Max(states[0].hostFlag, states[0].deviceFlag) + |ops| < UINT32
    ensures ops[t].SyncHost? || ops[t].SyncOfHost? ==> states[t + 1].host == PlainRun(states[0].Current(), ops[..t + 1], zero)
    ensures ops[t].SyncDevice? || ops[t].SyncOfDevice? ==> states[t + 1].device == PlainRun(states[0].Current(), ops[..t + 1], zero)
  {
    RunCoherent(states, ops, zero, t);
    RunCoherent(states, ops, zero, t + 1);
    SyncBringsLatest(states[t]);
    assert states[t + 1] == After(states[t], ops[t], zero);
    assert ops[..t + 1][..t] == ops[..t];
  }

  // ------------------------------------------------------------------ the class

  class View<T> {
    const zero: T
    var hView: array<T>
    var dView: array<T>
    var tracked: bool
    var hostFlag: nat
    var deviceFlag: nat

    /** Two memory spaces never share an array. */
    ghost predicate Valid()
      reads this
    {
      hView != dView && hView.Length == dView.Length
    }

    ghost function State(): Dual<T>
      reads this, hView, dView
    {
      Dual(hView[..], dView[..], tracked, hostFlag, deviceFlag)
    }

    /** The default constructor: no elements and no counters. */
    constructor Empty(zero: T)
      ensures Valid() && this.zero == zero && fresh(hView) && fresh(dView)
      ensures State() == Dual([], [], false, 0, 0)
    {
      this.zero := zero;
      hView := new T[0](i => zero);
      dView := new T[0](i => zero);
      tracked, hostFlag, deviceFlag := false, 0, 0;
    }

    constructor (n: nat, zero: T)
      ensures Valid() && this.zero == zero && fresh(hView) && fresh(dView)
      ensures State() == Dual(Fresh(n, zero), Fresh(n, zero), true, 0, 0)
    {
      this.zero := zero;
      hView := new T[n](i => zero);
      dView := new T[n](i => zero);
      tracked, hostFlag, deviceFlag := true, 0, 0;
    }

    method CopyElements(dst: array<T>, src: array<T>)
      requires dst.Length == src.Length
      modifies dst
      ensures dst[..] == old(src[..])
    {
      forall i | 0 <= i < dst.Length {
        dst[i] := src[i];
      }
    }

    method SyncHost()
      requires Valid()
      modifies this, hView
      ensures Valid() && hView == old(hView) && dView == old(dView)
      ensures State() == old(State()).SyncHost()
    {
      if !tracked { return; }
      if deviceFlag > hostFlag {
        CopyElements(hView, dView);
        deviceFlag, hostFlag := 0, 0;
      }
    }

    method SyncDevice()
      requires Valid()
      modifies this, dView
      ensures Valid() && hView == old(hView) && dView == old(dView)
      ensures State() == old(State()).SyncDevice()
    {
      if !tracked { return; }
      if hostFlag > deviceFlag {
        CopyElements(dView, hView);
        deviceFlag, hostFlag := 0, 0;
      }
    }

    /** sync<Device>, for the host side or the device side. */
    method SyncOf(device: bool)
      requires Valid()
      modifies this, hView, dView
      ensures Valid() && hView == old(hView) && dView == old(dView)
      ensures State() == if device then old(State()).SyncOfDevice() else old(State()).SyncOfHost()
    {
      if !tracked { return; }
      if device {
        if hostFlag > 0 && hostFlag >= deviceFlag {
          CopyElements(dView, hView);
          hostFlag, deviceFlag := 0, 0;
        }
      } else {
        if deviceFlag > 0 && deviceFlag >= hostFlag {
          CopyElements(hView, dView);
          hostFlag, deviceFlag := 0, 0;
        }
      }
    }

    method Modify(device: bool)
      requires Valid()
      modifies this`hostFlag, this`deviceFlag
      ensures Valid()
      ensures State() == if device then old(State()).ModifyDevice() else old(State()).ModifyHost()
    {
      if tracked {
        var next := Wrap((if deviceFlag > hostFlag then deviceFlag else hostFlag) + 1);
        if device { deviceFlag := next; } else { hostFlag := next; }
      }
    }

    /** Kokkos::resize of one view: reallocates only when the extent changes. */
    method ResizedView(view: array<T>, n: nat) returns (resized: array<T>)
      ensures resized[..] == Resized(view[..], n, zero)
      ensures resized == view || fresh(resized)
    {
      if view.Length == n { return view; }
      var was, z := view[..], zero;
      resized := new T[n](i => if 0 <= i < |was| then was[i] else z);
    }

    method Allocated(n: nat) returns (view: array<T>)
      ensures fresh(view) && view[..] == Fresh(n, zero)
    {
      var z := zero;
      view := new T[n](i => z);
    }

    method Resize(n: nat)
      requires Valid()
      modifies this
      ensures Valid() && State() == old(State()).Resize(n, zero)
      ensures hView == old(hView) || fresh(hView)
      ensures dView == old(dView) || fresh(dView)
    {
      tracked := true;
      if deviceFlag >= hostFlag {
        dView := ResizedView(dView, n);
        hView := Allocated(n);
        deviceFlag := Wrap(deviceFlag + 1);
      } else {
        hView := ResizedView(hView, n);
        var temp := Allocated(n);
        CopyElements(temp, hView);
        hView := temp;
        dView := Allocated(n);
        hostFlag := Wrap(hostFlag + 1);
      }
    }

    method Realloc(n: nat)
      requires Valid()
      modifies this
      ensures Valid() && State() == old(State()).Realloc(n, zero)
      ensures fresh(hView) && fresh(dView)
    {
      dView := Allocated(n);
      hView := Allocated(n);
      tracked, deviceFlag, hostFlag := true, 0, 0;
    }

    /** deep_copy(this, src): throws on different extents. */
    method CopyFrom(src: View<T>) returns (ok: bool)
      requires Valid() && src.Valid() && src != this
      requires {hView, dView} !! {src.hView, src.dView}
      modifies this, hView, dView
      ensures Valid() && hView == old(hView) && dView == old(dView)
      ensures ok <==> |State().host| == |src.State().host|
      ensures !ok ==> State() == old(State())
      ensures ok ==> State() == old(State()).CopyFrom(src.State())
    {
      ok := hView.Length == src.hView.Length;
      if !ok { return; }
      if src.tracked && src.deviceFlag < src.hostFlag {
        CopyElements(hView, src.hView);
        Modify(false);
      } else {
        CopyElements(dView, src.dView);
        Modify(true);
      }
    }
  }
}
