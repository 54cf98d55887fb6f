/** A high-level system: a named group of devices held in the fields of a
    components object. Its snapshot gathers the snapshots of its devices
    field by field, and applying a snapshot routes each field's settings
    back to the devices of that field. */
module HighLevelSystems {
  import opened Wrappers
  import opened PyValues
  import opened OrderedDicts
  import opened PVUtils
  import opened HardwareModel
  import Snapshots

  // ------------------------------------------------------------ components

  /** The frozen metadata of a system. */
  datatype SystemProperties = SystemProperties(name: string, hardwareType: string, aliases: seq<string>)

  /** A value of a dictionary field: a device, or any other value. */
  datatype Member = Device(hw: Hardware) | NotDevice(v: Value)

  /** A set field of the components object: one device, a dictionary of
      members, or any other value. */
  datatype Component = OneDevice(hw: Hardware) | DeviceDict(members: ODict<Member>) | OtherValue(v: Value)

  /** A system snapshot: field name -> device name -> device entry. */
  type SystemSnapshot = ODict<ODict<DeviceEntry>>

  /** A device as `create_snapshot` visits it: the field it is found in,
      and whether that field holds the device itself or a dictionary. */
  datatype Slot = Slot(handle: string, single: bool, hw: Hardware)

  /** The devices of a dictionary field, in dictionary order; the members
      that are not devices are passed over. */
  function MemberSlots(handle: string, ms: ODict<Member>): (s: seq<Slot>)
    ensures |s| <= |ms|
    ensures forall k :: 0 <= k < |s| ==> s[k].handle == handle && !s[k].single
  {
    if ms == [] then []
    else
      var m := ms[|ms| - 1].1;
      MemberSlots(handle, ms[..|ms| - 1]) + (if m.Device? then [Slot(handle, false, m.hw)] else [])
  }

  /** The devices one field contributes. */
  function SlotsOf(handle: string, c: Component): (s: seq<Slot>)
    ensures forall k :: 0 <= k < |s| ==> s[k].handle == handle
  {
    match c
    case OneDevice(hw) => [Slot(handle, true, hw)]
    case DeviceDict(ms) => MemberSlots(handle, ms)
    case OtherValue(_) => []
  }

  /** Every device of the components, in the order `create_snapshot`
      visits them: field by field, and within a dictionary field member by
      member. */
  function Slots(fields: ODict<Component>): seq<Slot> {
    if fields == [] then []
    else Slots(fields[..|fields| - 1]) + SlotsOf(fields[|fields| - 1].0, fields[|fields| - 1].1)
  }

  /** The devices of a sequence of slots. */
  ghost function SlotDevices(s: seq<Slot>): set<Hardware> {
    set k | 0 <= k < |s| :: s[k].hw
  }

  /** The devices among the members of a dictionary. */
  ghost function MemberDevices(ms: ODict<Member>): set<Hardware> {
    set j | 0 <= j < |ms| && ms[j].1.Device? :: ms[j].1.hw
  }

  /** A dictionary field contributes exactly the devices among its
      members. */
  lemma {:induction false} MemberSlotsSpec(handle: string, ms: ODict<Member>)
    ensures SlotDevices(MemberSlots(handle, ms)) == MemberDevices(ms)
  {
    if ms != [] {
      var n := |ms| - 1;
      var init := ms[..n];
      MemberSlotsSpec(handle, init);
      var s := MemberSlots(handle, ms);
      var s0 := MemberSlots(handle, init);
      var m := ms[n].1;
      assert s == s0 + (if m.Device? then [Slot(handle, false, m.hw)] else []);
      forall d | d in SlotDevices(s)
        ensures d in MemberDevices(ms)
      {
        var k :| 0 <= k < |s| && s[k].hw == d;
        if k < |s0| {
          assert s0[k].hw == d && d in SlotDevices(s0);
          var j :| 0 <= j < |init| && init[j].1.Device? && init[j].1.hw == d;
          assert ms[j] == init[j];
        } else {
          assert |s| == |s0| + (if m.Device? then 1 else 0);
          assert m.Device? && s[k] == Slot(handle, false, m.hw);
          assert ms[n].1.hw == d;
        }
      }
      forall d | d in MemberDevices(ms)
        ensures d in SlotDevices(s)
      {
        var j :| 0 <= j < |ms| && ms[j].1.Device? && ms[j].1.hw == d;
        if j < n {
          assert init[j] == ms[j] && d in MemberDevices(init);
          var k :| 0 <= k < |s0| && s0[k].hw == d;
          assert s[k] == s0[k];
        } else {
          assert s[|s| - 1].hw == d;
        }
      }
    }
  }

  /** The devices of a field's value, as a set. */
  ghost predicate ComponentWithin(c: Component, devs: set<Hardware>) {
    match c
    case OneDevice(hw) => hw in devs
    case DeviceDict(ms) => forall j :: 0 <= j < |ms| && ms[j].1.Device? ==> ms[j].1.hw in devs
    case OtherValue(_) => true
  }

  /** Every device of every field is among `devs`. */
  ghost predicate FieldsWithin(fields: ODict<Component>, devs: set<Hardware>) {
    forall i :: 0 <= i < |fields| ==> ComponentWithin(fields[i].1, devs)
  }

  /** The devices visited are the devices of the fields. */
  lemma {:induction false} SlotsCoverFields(fields: ODict<Component>)
    ensures FieldsWithin(fields, SlotDevices(Slots(fields)))
  {
    if fields != [] {
      var n := |fields| - 1;
      var init := fields[..n];
      SlotsCoverFields(init);
      var s := Slots(fields);
      var s0 := Slots(init);
      var last := SlotsOf(fields[n].0, fields[n].1);
      assert s == s0 + last;
      assert SlotDevices(s0) <= SlotDevices(s) by {
        forall d | d in SlotDevices(s0)
          ensures d in SlotDevices(s)
        {
          var k :| 0 <= k < |s0| && s0[k].hw == d;
          assert s[k] == s0[k];
        }
      }
      assert SlotDevices(last) <= SlotDevices(s) by {
        forall d | d in SlotDevices(last)
          ensures d in SlotDevices(s)
        {
          var k :| 0 <= k < |last| && last[k].hw == d;
          assert s[|s0| + k] == last[k];
        }
      }
      forall i | 0 <= i < |fields|
        ensures ComponentWithin(fields[i].1, SlotDevices(s))
      {
        if i < n {
          assert init[i] == fields[i];
        } else {
          match fields[n].1
          case OneDevice(hw) =>
            assert last[0].hw == hw;
          case DeviceDict(ms) =>
            MemberSlotsSpec(fields[n].0, ms);
            forall j | 0 <= j < |ms| && ms[j].1.Device?
              ensures ms[j].1.hw in SlotDevices(s)
            {
              assert ms[j].1.hw in MemberDevices(ms);
            }
          case OtherValue(_) =>
        }
      }
    }
  }

  /** The field a name looks up is one of the fields. */
  lemma {:induction false} LookupWithin(fields: ODict<Component>, t: string, devs: set<Hardware>)
    requires FieldsWithin(fields, devs) && Lookup(fields, t).Some?
    ensures ComponentWithin(Lookup(fields, t).value, devs)
  {
    if fields[0].0 != t {
      assert FieldsWithin(fields[1..], devs) by {
        forall i | 0 <= i < |fields[1..]|
          ensures ComponentWithin(fields[1..][i].1, devs)
        {
          assert fields[1..][i] == fields[i + 1];
        }
      }
      LookupWithin(fields[1..], t, devs);
    }
  }

  // ------------------------------------------------------------ which field a device is found in

  /** The slots found in field `h`. */
  function UnderSlots(s: seq<Slot>, h: string): seq<Slot> {
    if s == [] then []
    else UnderSlots(s[..|s| - 1], h) + (if s[|s| - 1].handle == h then [s[|s| - 1]] else [])
  }

  /** Filtering a concatenation filters each part. */
  lemma {:induction false} UnderSlotsAppend(a: seq<Slot>, b: seq<Slot>, h: string)
    ensures UnderSlots(a + b, h) == UnderSlots(a, h) + UnderSlots(b, h)
    decreases |b|
  {
    if b != [] {
      var n := |b| - 1;
      assert (a + b)[..|a + b| - 1] == a + b[..n];
      assert (a + b)[|a + b| - 1] == b[n];
      var x := if b[n].handle == h then [b[n]] else [];
      assert UnderSlots(a + b, h) == UnderSlots(a + b[..n], h) + x;
      assert UnderSlots(b, h) == UnderSlots(b[..n], h) + x;
      UnderSlotsAppend(a, b[..n], h);
      assert UnderSlots(a, h) + UnderSlots(b[..n], h) + x == UnderSlots(a, h) + (UnderSlots(b[..n], h) + x);
    } else {
      assert a + b == a && UnderSlots(a, h) + [] == UnderSlots(a, h);
    }
  }

  /** Filtering keeps everything found in field `h` and nothing else. */
  lemma {:induction false} UnderSlotsAllOrNone(s: seq<Slot>, h: string)
    ensures (forall k :: 0 <= k < |s| ==> s[k].handle == h) ==> UnderSlots(s, h) == s
    ensures (forall k :: 0 <= k < |s| ==> s[k].handle != h) ==> UnderSlots(s, h) == []
  {
    if s != [] {
      var n := |s| - 1;
      UnderSlotsAllOrNone(s[..n], h);
      assert s[..n] + [s[n]] == s;
    }
  }

  /** Every device is found in one of the fields. */
  lemma {:induction false} SlotsHandles(fields: ODict<Component>)
    ensures forall k :: 0 <= k < |Slots(fields)| ==> Slots(fields)[k].handle in Keys(fields)
  {
    if fields != [] {
      var n := |fields| - 1;
      var init := fields[..n];
      SlotsHandles(init);
      var s0 := Slots(init);
      var last := SlotsOf(fields[n].0, fields[n].1);
      forall k | 0 <= k < |Slots(fields)|
        ensures Slots(fields)[k].handle in Keys(fields)
      {
        if k < |s0| {
          var j :| 0 <= j < |init| && Keys(init)[j] == s0[k].handle;
          assert Keys(fields)[j] == fields[j].0 == init[j].0;
        } else {
          assert Slots(fields)[k] == last[k - |s0|];
          assert Keys(fields)[n] == fields[n].0;
        }
      }
    }
  }

  /** The devices found in field `h` are exactly those that field's value
      contributes, in the same order. */
  lemma {:induction false} SlotsUnder(fields: ODict<Component>, i: nat)
    requires DistinctKeys(fields) && i < |fields|
    ensures UnderSlots(Slots(fields), fields[i].0) == SlotsOf(fields[i].0, fields[i].1)
  {
    var n := |fields| - 1;
    var init := fields[..n];
    var h := fields[i].0;
    var last := SlotsOf(fields[n].0, fields[n].1);
    UnderSlotsAppend(Slots(init), last, h);
    UnderSlotsAllOrNone(last, h);
    if i == n {
      SlotsHandles(init);
      assert h !in Keys(init) by {
        forall j | 0 <= j < |init|
          ensures Keys(init)[j] != h
        {
          assert init[j] == fields[j];
        }
      }
      UnderSlotsAllOrNone(Slots(init), h);
    } else {
      assert init[i] == fields[i];
      SlotsUnder(init, i);
    }
  }

  // ------------------------------------------------------------ device states

  /** What a snapshot operation reads and changes of one device. */
  datatype DeviceState = DeviceState(points: map<string, Point>, additional: ODict<Value>)

  /** The states of the devices, the specification's picture of the heap. */
  type Store = map<Hardware, DeviceState>

  /** The current states of `devs`. */
  ghost function StoreOf(devs: set<Hardware>): Store
    reads devs
  {
    map d | d in devs :: DeviceState(d.points, d.additional)
  }

  /** Each of `devs` is valid and in the state `store` records. */
  ghost predicate Mirrors(store: Store, devs: set<Hardware>)
    reads devs
  {
    forall d :: d in devs ==> d in store && d.Valid() && store[d] == DeviceState(d.points, d.additional)
  }

  /** The current states of valid devices mirror them. */
  lemma StoreOfMirrored(devs: set<Hardware>)
    requires forall d :: d in devs ==> d.Valid()
    ensures StoreOf(devs).Keys == devs && Mirrors(StoreOf(devs), devs)
  {
  }

  /** A store that mirrors exactly `devs` is their current state. */
  lemma StoreOfMirrors(store: Store, devs: set<Hardware>)
    requires store.Keys == devs && Mirrors(store, devs)
    ensures StoreOf(devs) == store
  {
  }

  /** Prepends warnings already emitted to the outcome of what follows. */
  function Then(ws: seq<Warning>, r: (Store, Option<Error>, seq<Warning>)): (Store, Option<Error>, seq<Warning>) {
    (r.0, r.1, ws + r.2)
  }

  // ------------------------------------------------------------ create_snapshot

  /** A device visited: its slot and what its `create_snapshot` gave, as
      `(name, entry or exception, warnings)`. */
  type Taken = (Slot, Snapshots.DeviceCapture)

  /** Every slot's device has a state in `store`. */
  ghost predicate Covers(store: Store, slots: seq<Slot>) {
    forall s :: s in slots ==> s.hw in store
  }

  /** One device's `create_snapshot` from its state in `store`: the store
      with its points as the snapshot leaves them, and what it gave. A
      valid device has a point for each of its handles. The second branch
      stands for nothing the code does: `Components.CreateSnapshot` calls
      this only on stores that mirror valid devices, where it is never
      taken; it only keeps the function total. */
  ghost function CaptureAt(store: Store, s: Slot): (res: (Store, Taken))
    requires s.hw in store
    ensures res.1.0 == s && res.1.1.0 == s.hw.config.props.name
  {
    var st := store[s.hw];
    if HasPoints(s.hw.config, st.points) then
      var (pts, r, w) := Capture(s.hw.config, st.points, st.additional);
      (store[s.hw := st.(points := pts)], (s, (s.hw.config.props.name, r, w)))
    else (store, (s, (s.hw.config.props.name, Err(TypeError), [])))
  }

  /** The devices' snapshots taken one after another from `store`: each
      device reads its points from the state the earlier ones left; the
      first one that raises ends the run, and the later devices are not
      read. */
  ghost function CaptureRun(store: Store, slots: seq<Slot>): (res: (Store, seq<Taken>))
    requires Covers(store, slots)
    ensures |res.1| <= |slots|
    decreases |slots|
  {
    if slots == [] then (store, [])
    else
      var (next, t) := CaptureAt(store, slots[0]);
      if t.1.1.Err? then (next, [t])
      else
        var rest := CaptureRun(next, slots[1..]);
        (rest.0, [t] + rest.1)
  }

  /** The run visits the slots in order, each device under its own name. */
  lemma {:induction false} CaptureRunOrder(store: Store, slots: seq<Slot>)
    requires Covers(store, slots)
    ensures var taken := CaptureRun(store, slots).1;
            forall k :: 0 <= k < |taken| ==> taken[k].0 == slots[k] && taken[k].1.0 == slots[k].hw.config.props.name
    decreases |slots|
  {
    if slots != [] {
      var (next, t) := CaptureAt(store, slots[0]);
      if t.1.1.Ok? {
        var rest := slots[1..];
        assert Covers(next, rest);
        CaptureRunOrder(next, rest);
        var tail := CaptureRun(next, rest).1;
        var taken := CaptureRun(store, slots).1;
        assert taken == [t] + tail;
        forall k | 1 <= k < |taken|
          ensures taken[k] == tail[k - 1] && slots[k] == rest[k - 1]
        {
        }
      }
    }
  }

  /** The run visits at least one slot when there is one, and stops early
      only at a device that raised. */
  lemma {:induction false} CaptureRunStops(store: Store, slots: seq<Slot>)
    requires Covers(store, slots)
    ensures var taken := CaptureRun(store, slots).1;
            && (slots != [] ==> taken != [])
            && (forall k :: 0 <= k < |taken| - 1 ==> taken[k].1.1.Ok?)
            && (|taken| < |slots| ==> taken[|taken| - 1].1.1.Err?)
    decreases |slots|
  {
    if slots != [] {
      var (next, t) := CaptureAt(store, slots[0]);
      if t.1.1.Ok? {
        var rest := slots[1..];
        assert Covers(next, rest);
        CaptureRunStops(next, rest);
        var tail := CaptureRun(next, rest).1;
        var taken := CaptureRun(store, slots).1;
        assert taken == [t] + tail;
        forall k | 1 <= k < |taken|
          ensures taken[k] == tail[k - 1]
        {
        }
      }
    }
  }

  /** One more step of the run, from slot `k` on. */
  lemma CaptureRunStep(store: Store, slots: seq<Slot>, k: nat)
    requires Covers(store, slots) && k < |slots|
    ensures Covers(store, slots[k..])
    ensures var (next, t) := CaptureAt(store, slots[k]);
            && Covers(next, slots[k + 1..])
            && CaptureRun(store, slots[k..]) ==
                 if t.1.1.Err? then (next, [t])
                 else (CaptureRun(next, slots[k + 1..]).0, [t] + CaptureRun(next, slots[k + 1..]).1)
  {
    assert slots[k..][0] == slots[k];
    assert slots[k..][1..] == slots[k + 1..];
  }

  /** When no device is visited twice, each device's snapshot is the one
      it takes from its own initial state. */
  lemma {:induction false} CaptureRunDistinct(store: Store, slots: seq<Slot>)
    requires Covers(store, slots)
    requires forall a, b :: 0 <= a < b < |slots| ==> slots[a].hw != slots[b].hw
    ensures var taken := CaptureRun(store, slots).1;
            forall k :: 0 <= k < |taken| ==> taken[k] == CaptureAt(store, slots[k]).1
    decreases |slots|
  {
    if slots != [] {
      var (next, t) := CaptureAt(store, slots[0]);
      if t.1.1.Ok? {
        var rest := slots[1..];
        forall a, b | 0 <= a < b < |rest|
          ensures rest[a].hw != rest[b].hw
        {
          assert rest[a] == slots[a + 1] && rest[b] == slots[b + 1];
        }
        CaptureRunDistinct(next, rest);
        var tail := CaptureRun(next, rest).1;
        var taken := CaptureRun(store, slots).1;
        assert taken == [t] + tail;
        forall k | 1 <= k < |taken|
          ensures taken[k] == CaptureAt(store, slots[k]).1
        {
          assert slots[k].hw != slots[0].hw && slots[k] == rest[k - 1];
          assert next[slots[k].hw] == store[slots[k].hw];
          assert taken[k] == tail[k - 1];
        }
      }
    }
  }

  /** One device's snapshot merged in: a field holding the device itself
      is set to `{name: entry}`; a dictionary field is created as
      `{name: entry}` by its first device and updated by the later ones. */
  function Put(snap: SystemSnapshot, t: Taken): SystemSnapshot
    requires t.1.1.Ok?
  {
    Update(snap, t.0.handle, Placed(snap, t))
  }

  /** What `Put` stores under the device's field. */
  function Placed(snap: SystemSnapshot, t: Taken): ODict<DeviceEntry>
    requires t.1.1.Ok?
  {
    var (s, (name, r, _)) := t;
    if s.single then [(name, r.value)]
    else
      match Lookup(snap, s.handle)
      case None => [(name, r.value)]
      case Some(d) => Update(d, name, r.value)
  }

  /** `HighLevelSystemComponents.create_snapshot` over the devices visited:
      their entries merged in order, or the exception of the device that
      raised. */
  function Assemble(ts: seq<Taken>): Result<SystemSnapshot> {
    if ts == [] then Ok([])
    else
      var n := |ts| - 1;
      var prev := Assemble(ts[..n]);
      if prev.Err? then prev
      else if ts[n].1.1.Err? then Err(ts[n].1.1.error)
      else Ok(Put(prev.value, ts[n]))
  }

  /** The warnings of the devices visited, in order. */
  function Warned(ts: seq<Taken>): seq<Warning> {
    if ts == [] then [] else Warned(ts[..|ts| - 1]) + ts[|ts| - 1].1.2
  }

  /** Device `k` is the first of `ts` that raised, and it raised `e`. */
  predicate FailsFirstAt(ts: seq<Taken>, k: nat, e: Error) {
    k < |ts| && ts[k].1.1 == Err(e) && forall j :: 0 <= j < k ==> ts[j].1.1.Ok?
  }

  /** The snapshot is built exactly when no device raised. */
  lemma {:induction false} AssembleFails(ts: seq<Taken>)
    ensures Assemble(ts).Ok? <==> forall t :: t in ts ==> t.1.1.Ok?
  {
    if ts != [] {
      var n := |ts| - 1;
      var init := ts[..n];
      AssembleFails(init);
      assert ts == init + [ts[n]];
      assert forall t :: t in ts <==> t in init || t == ts[n];
      if Assemble(init).Ok? && ts[n].1.1.Ok? {
        assert Assemble(ts).Ok?;
      } else {
        assert Assemble(ts).Err?;
      }
    }
  }

  /** When the snapshot is not built, the exception is that of the first
      device that raised. */
  lemma {:induction false} AssembleFirstError(ts: seq<Taken>)
    requires Assemble(ts).Err?
    ensures exists k :: FailsFirstAt(ts, k, Assemble(ts).error)
  {
    var n := |ts| - 1;
    var init := ts[..n];
    assert forall j :: 0 <= j < n ==> init[j] == ts[j];
    if Assemble(init).Err? {
      AssembleFirstError(init);
      var k: nat :| FailsFirstAt(init, k, Assemble(init).error);
      assert FailsFirstAt(ts, k, Assemble(ts).error);
    } else {
      AssembleFails(init);
      assert FailsFirstAt(ts, n, Assemble(ts).error);
    }
  }

  /** The devices visited that were found in field `h`. */
  function Under(ts: seq<Taken>, h: string): (u: seq<Taken>)
    ensures forall k :: 0 <= k < |u| ==> u[k].0.handle == h
  {
    if ts == [] then []
    else Under(ts[..|ts| - 1], h) + (if ts[|ts| - 1].0.handle == h then [ts[|ts| - 1]] else [])
  }

  /** The captures of the devices visited. */
  function Captured(ts: seq<Taken>): (cs: seq<Snapshots.DeviceCapture>)
    ensures |cs| == |ts| && forall k :: 0 <= k < |ts| ==> cs[k] == ts[k].1
  {
    seq(|ts|, k requires 0 <= k < |ts| => ts[k].1)
  }

  /** The slots of the devices visited. */
  function SlotsTaken(ts: seq<Taken>): (s: seq<Slot>)
    ensures |s| == |ts| && forall k :: 0 <= k < |ts| ==> s[k] == ts[k].0
  {
    seq(|ts|, k requires 0 <= k < |ts| => ts[k].0)
  }

  /** Filtering the devices visited by field filters their slots. */
  lemma {:induction false} UnderTaken(ts: seq<Taken>, h: string)
    ensures SlotsTaken(Under(ts, h)) == UnderSlots(SlotsTaken(ts), h)
  {
    if ts != [] {
      var n := |ts| - 1;
      UnderTaken(ts[..n], h);
      assert SlotsTaken(ts)[..n] == SlotsTaken(ts[..n]);
    }
  }

  /** The snapshot has one key per field that holds at least one device
      visited. */
  lemma {:induction false} AssembleKeys(ts: seq<Taken>)
    requires Assemble(ts).Ok?
    ensures DistinctKeys(Assemble(ts).value)
    ensures forall h :: h in Keys(Assemble(ts).value) <==> Under(ts, h) != []
  {
    if ts != [] {
      var n := |ts| - 1;
      var init := ts[..n];
      AssembleKeys(init);
      var prev := Assemble(init).value;
      var t := ts[n];
      var x := Placed(prev, t);
      UpdateKeys(prev, t.0.handle, x);
      UpdateDistinct(prev, t.0.handle, x);
    }
  }

  /** A snapshot built from a nonempty run is the one built from all but
      the last device, with the last one merged in. */
  lemma AssembleLast(ts: seq<Taken>)
    requires ts != [] && Assemble(ts).Ok?
    ensures var n := |ts| - 1;
            && Assemble(ts[..n]).Ok? && ts[n].1.1.Ok?
            && Assemble(ts).value == Put(Assemble(ts[..n]).value, ts[n])
  {
  }

  /** Merging a device in changes what its own field maps to, and only
      that. */
  lemma PutLookup(snap: SystemSnapshot, t: Taken, h: string)
    requires t.1.1.Ok?
    ensures Lookup(Put(snap, t), h) == if t.0.handle == h then Some(Placed(snap, t)) else Lookup(snap, h)
  {
    if t.0.handle != h {
      UpdateOther(snap, t.0.handle, Placed(snap, t), h);
    }
  }

  /** Every device found in field `h` of a run that built a snapshot gave
      an entry. */
  lemma {:induction false} AssembleUnderOk(ts: seq<Taken>, h: string)
    requires Assemble(ts).Ok?
    ensures forall k :: 0 <= k < |Under(ts, h)| ==> Under(ts, h)[k].1.1.Ok?
  {
    if ts != [] {
      var n := |ts| - 1;
      AssembleLast(ts);
      AssembleUnderOk(ts[..n], h);
    }
  }

  /** A field whose devices are all held directly (in the components, a
      field holding one device) maps to `{name: entry}` of its last
      device. */
  /** The devices of field `h` in a run are those of all but its last
      device, followed by the last one when it is in `h`. */
  lemma UnderSnoc(ts: seq<Taken>, h: string)
    requires ts != []
    ensures var n := |ts| - 1;
            var u0 := Under(ts[..n], h);
            var u := Under(ts, h);
            && u == u0 + (if ts[n].0.handle == h then [ts[n]] else [])
            && |u0| <= |u|
            && (forall k :: 0 <= k < |u0| ==> u[k] == u0[k])
            && (ts[n].0.handle == h ==> |u| == |u0| + 1 && u[|u0|] == ts[n])
  {
  }

  /** `AssembleSingle` for one more device: what field `h` maps to after
      merging `t` in, given what it mapped to before. */
  lemma SingleStep(prev: SystemSnapshot, u0: seq<Taken>, t: Taken, h: string)
    requires t.1.1.Ok? && (t.0.handle == h ==> t.0.single)
    requires u0 == [] ==> Lookup(prev, h).None?
    requires u0 != [] ==> u0[|u0| - 1].1.1.Ok? &&
                          Lookup(prev, h) == Some([(u0[|u0| - 1].1.0, u0[|u0| - 1].1.1.value)])
    ensures var u := u0 + (if t.0.handle == h then [t] else []);
            && (u == [] ==> Lookup(Put(prev, t), h).None?)
            && (u != [] ==> u[|u| - 1].1.1.Ok? &&
                            Lookup(Put(prev, t), h) == Some([(u[|u| - 1].1.0, u[|u| - 1].1.1.value)]))
  {
    PutLookup(prev, t, h);
    if t.0.handle == h {
      assert (u0 + [t])[|u0|] == t;
    } else {
      assert u0 + [] == u0;
    }
  }

  /** A field whose devices are all held directly (in the components, a
      field holding one device) maps to `{name: entry}` of its last
      device. */
  lemma {:induction false} AssembleSingle(ts: seq<Taken>, h: string)
    requires Assemble(ts).Ok?
    requires forall k :: 0 <= k < |Under(ts, h)| ==> Under(ts, h)[k].0.single
    ensures var u := Under(ts, h);
            && (u == [] ==> Lookup(Assemble(ts).value, h).None?)
            && (u != [] ==> u[|u| - 1].1.1.Ok? &&
                            Lookup(Assemble(ts).value, h) == Some([(u[|u| - 1].1.0, u[|u| - 1].1.1.value)]))
  {
    if ts != [] {
      var n := |ts| - 1;
      var init := ts[..n];
      var t := ts[n];
      var u0 := Under(init, h);
      var u := Under(ts, h);
      UnderSnoc(ts, h);
      assert t.0.handle == h ==> t.0.single by {
        if t.0.handle == h {
          assert u[|u0|] == t;
        }
      }
      forall k | 0 <= k < |u0|
        ensures u0[k].0.single
      {
        assert u[k] == u0[k];
      }
      AssembleSingle(init, h);
      AssembleLast(ts);
      SingleStep(Assemble(init).value, u0, t, h);
    }
  }

  /** A field whose devices all come from a dictionary maps to the union
      of their entries: a later device of the same name replaces an
      earlier one (see `Snapshots.MergeEntriesLast`). */
  lemma {:induction false} AssembleDict(ts: seq<Taken>, h: string)
    requires Assemble(ts).Ok?
    requires forall k :: 0 <= k < |Under(ts, h)| ==> !Under(ts, h)[k].0.single
    ensures var u := Under(ts, h);
            Lookup(Assemble(ts).value, h) == if u == [] then None else Some(Snapshots.MergeEntries(Captured(u)))
  {
    if ts != [] {
      var n := |ts| - 1;
      var init := ts[..n];
      var t := ts[n];
      var u0 := Under(init, h);
      var u := Under(ts, h);
      UnderSnoc(ts, h);
      forall k | 0 <= k < |u0|
        ensures !u0[k].0.single
      {
        assert u[k] == u0[k];
      }
      AssembleLast(ts);
      AssembleDict(init, h);
      var prev := Assemble(init).value;
      PutLookup(prev, t, h);
      if t.0.handle == h {
        assert !t.0.single by {
          assert u[|u0|] == t;
        }
        var cs := Captured(u);
        assert cs[..|u0|] == Captured(u0) && cs[|u0|] == t.1;
        assert Snapshots.MergeEntries(cs) == Update(Snapshots.MergeEntries(Captured(u0)), t.1.0, t.1.1.value);
        if u0 == [] {
          UpdateAppends([], t.1.0, t.1.1.value);
        }
      } else {
        assert u == u0;
      }
    }
  }

  /** What `create_snapshot` stores under one field, for the devices
      visited in order over the fields: a field holding a device maps to
      that device's `{name: entry}`; a dictionary field maps to the union
      of its devices' entries (its other members contribute nothing), and
      is absent when it holds no device; any other field is absent. */
  lemma FieldSnapshot(fields: ODict<Component>, ts: seq<Taken>, i: nat)
    requires DistinctKeys(fields) && i < |fields|
    requires SlotsTaken(ts) == Slots(fields) && Assemble(ts).Ok?
    ensures var (h, c) := fields[i];
            var u := Under(ts, h);
            && SlotsTaken(u) == SlotsOf(h, c)
            && (forall k :: 0 <= k < |u| ==> u[k].1.1.Ok?)
            && (c.OneDevice? ==> |u| == 1 && u[0].0.hw == c.hw &&
                                 Lookup(Assemble(ts).value, h) == Some([(u[0].1.0, u[0].1.1.value)]))
            && (c.DeviceDict? ==> Lookup(Assemble(ts).value, h) ==
                                    if u == [] then None else Some(Snapshots.MergeEntries(Captured(u))))
            && (c.OtherValue? ==> Lookup(Assemble(ts).value, h).None?)
  {
    var (h, c) := fields[i];
    UnderTaken(ts, h);
    SlotsUnder(fields, i);
    var u := Under(ts, h);
    assert SlotsTaken(u) == SlotsOf(h, c);
    if c.OneDevice? {
      assert SlotsTaken(u)[0] == Slot(h, true, c.hw);
      AssembleSingle(ts, h);
      AssembleUnderOk(ts, h);
    } else {
      forall k | 0 <= k < |u|
        ensures !u[k].0.single
      {
        assert SlotsTaken(u)[k] == u[k].0;
      }
      AssembleDict(ts, h);
      AssembleUnderOk(ts, h);
    }
  }

  // ------------------------------------------------------------ apply_snapshot

  /** `_apply_single_component_snapshot` on one device: its settings are
      looked up by its name; a missing name, or a `KeyError` raised while
      applying, becomes an `InvalidSnapshotSetting` warning; any other
      exception of `apply_snapshot` passes through. */
  function ApplyOne(cfg: DeviceConfig, points: map<string, Point>, settings: ODict<DeviceEntry>)
    : (res: (map<string, Point>, Option<Error>, seq<Warning>))
    ensures res.1.None? || res.1 == Some(ValueError)
    ensures Lookup(settings, cfg.props.name).None? ==>
              res == (points, None, [InvalidSnapshotSetting(cfg.props.name)])
    ensures Lookup(settings, cfg.props.name).Some? ==>
              var (pts, e) := ApplyEntry(cfg, points, Lookup(settings, cfg.props.name).value);
              && res.0 == pts
              && (res.2 != [] <==> e == Some(KeyError))
              && (e != Some(KeyError) ==> res.1 == e)
  {
    match Lookup(settings, cfg.props.name)
    case None => (points, None, [InvalidSnapshotSetting(cfg.props.name)])
    case Some(entry) =>
      ApplyEntryFails(cfg, points, entry);
      ApplyStep(cfg, points, entry)
  }

  /** A device's entry applied, with a `KeyError` turned into the
      warning about the device. */
  function ApplyStep(cfg: DeviceConfig, points: map<string, Point>, entry: DeviceEntry)
    : (map<string, Point>, Option<Error>, seq<Warning>)
  {
    var (pts, e) := ApplyEntry(cfg, points, entry);
    if e == Some(KeyError) then (pts, None, [InvalidSnapshotSetting(cfg.props.name)]) else (pts, e, [])
  }

  /** Every device member of `ms` has a state in `store`. */
  ghost predicate MembersIn(store: Store, ms: ODict<Member>) {
    forall m :: m in ms && m.1.Device? ==> m.1.hw in store
  }

  /** One device applied in the store. */
  ghost function ApplyDevice(store: Store, hw: Hardware, settings: ODict<DeviceEntry>): (res: (Store, Option<Error>, seq<Warning>))
    requires hw in store
    ensures res.0.Keys == store.Keys
    ensures res.1.None? || res.1 == Some(ValueError)
  {
    var (pts, e, w) := ApplyOne(hw.config, store[hw].points, settings);
    (store[hw := store[hw].(points := pts)], e, w)
  }

  /** The loop over a dictionary field's members: each device is applied
      in turn; a member that is not a device has no `name`, and the
      `AttributeError` ends the loop, as does any exception a device lets
      through. */
  ghost function ApplyMembers(store: Store, settings: ODict<DeviceEntry>, ms: ODict<Member>)
    : (res: (Store, Option<Error>, seq<Warning>))
    requires MembersIn(store, ms)
    ensures res.0.Keys == store.Keys
    ensures res.1.None? || res.1 == Some(ValueError) || res.1 == Some(AttributeError)
    decreases |ms|
  {
    if ms == [] then (store, None, [])
    else
      match ms[0].1
      case NotDevice(_) => (store, Some(AttributeError), [])
      case Device(hw) =>
        var (st, e, w) := ApplyDevice(store, hw, settings);
        if e.Some? then (st, e, w)
        else
          MembersInSuffix(st, ms, 1);
          Then(w, ApplyMembers(st, settings, ms[1..]))
  }

  /** One more step of the loop over the members, from member `i` on. */
  lemma ApplyMembersStep(store: Store, settings: ODict<DeviceEntry>, ms: ODict<Member>, i: nat)
    requires MembersIn(store, ms) && i < |ms| && ms[i].1.Device?
    ensures MembersIn(store, ms[i..])
    ensures var (st, e, w) := ApplyDevice(store, ms[i].1.hw, settings);
            && MembersIn(st, ms) && MembersIn(st, ms[i + 1..])
            && ApplyMembers(store, settings, ms[i..]) ==
                 if e.Some? then (st, e, w) else Then(w, ApplyMembers(st, settings, ms[i + 1..]))
  {
    assert ms[i..][0] == ms[i] && ms[i..][1..] == ms[i + 1..];
    MembersInSuffix(store, ms, i);
    MembersInSuffix(ApplyDevice(store, ms[i].1.hw, settings).0, ms, i + 1);
  }

  /** The members from `i` on have states wherever all the members do. */
  lemma MembersInSuffix(store: Store, ms: ODict<Member>, i: nat)
    requires MembersIn(store, ms) && i <= |ms|
    ensures MembersIn(store, ms[i..])
  {
    forall m | m in ms[i..] && m.1.Device?
      ensures m.1.hw in store
    {
      var j :| 0 <= j < |ms[i..]| && ms[i..][j] == m;
      assert ms[i + j] == m;
    }
  }

  /** Warnings emitted in two stages are emitted in order. */
  lemma ThenThen(ws: seq<Warning>, w: seq<Warning>, r: (Store, Option<Error>, seq<Warning>))
    ensures Then(ws, Then(w, r)) == Then(ws + w, r)
  {
    assert ws + (w + r.2) == (ws + w) + r.2;
  }

  /** One field's settings applied to the field's value. */
  ghost function ApplyComponent(store: Store, c: Component, settings: ODict<DeviceEntry>)
    : (res: (Store, Option<Error>, seq<Warning>))
    requires ComponentWithin(c, store.Keys)
    ensures res.0.Keys == store.Keys
    ensures res.1.None? || res.1 == Some(ValueError) || res.1 == Some(AttributeError)
  {
    match c
    case OneDevice(hw) => ApplyDevice(store, hw, settings)
    case DeviceDict(ms) => ApplyMembers(store, settings, ms)
    case OtherValue(_) => (store, None, [])
  }

  /** One component type of `apply_snapshot`: a type missing from the
      snapshot draws a plain warning; a set field is applied, and an
      `AttributeError` while applying it draws an `InvalidSnapshotSetting`
      warning; any other exception passes through. A name that is no set
      field is looked up as an attribute: one of the `others` (a field left
      unset, a method, the configuration) is neither a device nor a
      dictionary and is passed over silently; any other name has no
      attribute at all and draws an `InvalidSnapshotSetting` warning. */
  ghost function ApplyType(store: Store, fields: ODict<Component>, others: set<string>, snapshot: SystemSnapshot, t: string)
    : (res: (Store, Option<Error>, seq<Warning>))
    requires FieldsWithin(fields, store.Keys)
    ensures res.0.Keys == store.Keys
    ensures res.1.None? || res.1 == Some(ValueError)
  {
    match Lookup(snapshot, t)
    case None => (store, None, [PlainWarning(t)])
    case Some(settings) =>
      match Lookup(fields, t)
      case None => if t in others then (store, None, []) else (store, None, [InvalidSnapshotSetting(t)])
      case Some(c) =>
        LookupWithin(fields, t, store.Keys);
        var (st, e, w) := ApplyComponent(store, c, settings);
        if e == Some(AttributeError) then (st, None, w + [InvalidSnapshotSetting(t)]) else (st, e, w)
  }

  /** The loop of `apply_snapshot` over the component types, in order,
      until an exception passes through. */
  ghost function ApplyTypes(store: Store, fields: ODict<Component>, others: set<string>, snapshot: SystemSnapshot, ts: seq<string>)
    : (res: (Store, Option<Error>, seq<Warning>))
    requires FieldsWithin(fields, store.Keys)
    ensures res.0.Keys == store.Keys
    ensures res.1.None? || res.1 == Some(ValueError)
    decreases |ts|
  {
    if ts == [] then (store, None, [])
    else
      var (st, e, w) := ApplyType(store, fields, others, snapshot, ts[0]);
      if e.Some? then (st, e, w) else Then(w, ApplyTypes(st, fields, others, snapshot, ts[1..]))
  }

  /** One more step of the loop over the types, from type `i` on. */
  lemma ApplyTypesStep(store: Store, fields: ODict<Component>, others: set<string>, snapshot: SystemSnapshot, ts: seq<string>, i: nat)
    requires FieldsWithin(fields, store.Keys) && i < |ts|
    ensures var (st, e, w) := ApplyType(store, fields, others, snapshot, ts[i]);
            ApplyTypes(store, fields, others, snapshot, ts[i..]) ==
              if e.Some? then (st, e, w) else Then(w, ApplyTypes(st, fields, others, snapshot, ts[i + 1..]))
  {
    assert ts[i..][0] == ts[i] && ts[i..][1..] == ts[i + 1..];
  }

  /** The component types `apply_snapshot` goes through: those asked for,
      or, when none are (`None` or an empty list), every type of the
      snapshot. */
  function Targets(snapshot: SystemSnapshot, applyTo: Option<seq<string>>): seq<string> {
    if applyTo.None? || applyTo.value == [] then Keys(snapshot) else applyTo.value
  }

  /** Going through `a` and then `b` is going through `a`, and, unless an
      exception ended it, going on through `b` from where `a` left the
      devices. */
  lemma {:induction false} ApplyTypesAppend(store: Store, fields: ODict<Component>, others: set<string>, snapshot: SystemSnapshot,
                                            a: seq<string>, b: seq<string>)
    requires FieldsWithin(fields, store.Keys)
    ensures var (st, e, w) := ApplyTypes(store, fields, others, snapshot, a);
            ApplyTypes(store, fields, others, snapshot, a + b) ==
              if e.Some? then (st, e, w) else Then(w, ApplyTypes(st, fields, others, snapshot, b))
    decreases |a|
  {
    if a == [] {
      assert a + b == b;
      var r := ApplyTypes(store, fields, others, snapshot, b);
      assert [] + r.2 == r.2;
    } else {
      assert (a + b)[0] == a[0] && (a + b)[1..] == a[1..] + b;
      var (st, e, w) := ApplyType(store, fields, others, snapshot, a[0]);
      if e.None? {
        ApplyTypesAppend(st, fields, others, snapshot, a[1..], b);
        var r := ApplyTypes(st, fields, others, snapshot, a[1..]);
        if r.1.None? {
          var r2 := ApplyTypes(r.0, fields, others, snapshot, b);
          assert w + (r.2 + r2.2) == (w + r.2) + r2.2;
        }
      }
    }
  }

  /** The warnings `apply_snapshot` draws for a type that is no set field
      or is missing from the snapshot: none for an attribute that is
      neither a device nor a dictionary. */
  function SkipWarnings(snapshot: SystemSnapshot, others: set<string>, t: string): seq<Warning> {
    if Lookup(snapshot, t).None? then [PlainWarning(t)]
    else if t in others then []
    else [InvalidSnapshotSetting(t)]
  }

  /** A skipped type at the head of the list draws its warning and leaves
      the devices as they were for the rest. */
  lemma SkippedTypeStep(store: Store, fields: ODict<Component>, others: set<string>, snapshot: SystemSnapshot, t: string, b: seq<string>)
    requires FieldsWithin(fields, store.Keys)
    requires Lookup(snapshot, t).None? || Lookup(fields, t).None?
    ensures ApplyTypes(store, fields, others, snapshot, [t] + b)
              == Then(SkipWarnings(snapshot, others, t), ApplyTypes(store, fields, others, snapshot, b))
  {
    assert ApplyType(store, fields, others, snapshot, t) == (store, None, SkipWarnings(snapshot, others, t));
    assert ([t] + b)[0] == t && ([t] + b)[1..] == b;
  }

  /** A component type missing from the snapshot, or naming no set field
      of the components, draws its warnings (none for an attribute that is
      neither a device nor a dictionary) and the remaining types are still
      applied, from the same device states. */
  lemma SkippedTypeContinues(store: Store, fields: ODict<Component>, others: set<string>, snapshot: SystemSnapshot,
                             a: seq<string>, t: string, b: seq<string>)
    requires FieldsWithin(fields, store.Keys)
    requires Lookup(snapshot, t).None? || Lookup(fields, t).None?
    ensures ApplyTypes(store, fields, others, snapshot, a).1.None? ==>
              ApplyTypes(store, fields, others, snapshot, a + [t] + b)
                == Then(ApplyTypes(store, fields, others, snapshot, a).2 + SkipWarnings(snapshot, others, t),
                        ApplyTypes(ApplyTypes(store, fields, others, snapshot, a).0, fields, others, snapshot, b))
  {
    var ra := ApplyTypes(store, fields, others, snapshot, a);
    if ra.1.None? {
      ApplyTypesAppend(store, fields, others, snapshot, a, [t] + b);
      assert a + [t] + b == a + ([t] + b);
      assert ApplyTypes(store, fields, others, snapshot, a + [t] + b) == Then(ra.2, ApplyTypes(ra.0, fields, others, snapshot, [t] + b));
      SkippedTypeStep(ra.0, fields, others, snapshot, t, b);
      var r := ApplyTypes(ra.0, fields, others, snapshot, b);
      assert ra.2 + (SkipWarnings(snapshot, others, t) + r.2) == (ra.2 + SkipWarnings(snapshot, others, t)) + r.2;
    }
  }

  /** Going through the members `a` and then `b` is going through `a`,
      and, unless an exception ended it, going on through `b`. */
  lemma {:induction false} ApplyMembersAppend(store: Store, settings: ODict<DeviceEntry>, a: ODict<Member>, b: ODict<Member>)
    requires MembersIn(store, a + b)
    ensures MembersIn(store, a) && MembersIn(store, b)
    ensures var (st, e, w) := ApplyMembers(store, settings, a);
            MembersIn(st, b) &&
            ApplyMembers(store, settings, a + b) ==
              if e.Some? then (st, e, w) else Then(w, ApplyMembers(st, settings, b))
    decreases |a|
  {
    assert forall m :: m in a ==> m in a + b;
    assert forall m :: m in b ==> m in a + b;
    if a == [] {
      assert a + b == b;
      var r := ApplyMembers(store, settings, b);
      assert [] + r.2 == r.2;
    } else {
      assert (a + b)[0] == a[0] && (a + b)[1..] == a[1..] + b;
      if a[0].1.Device? {
        var (st, e, w) := ApplyDevice(store, a[0].1.hw, settings);
        assert MembersIn(st, a + b) && MembersIn(st, b);
        if e.None? {
          MembersInSuffix(st, a + b, 1);
          ApplyMembersAppend(st, settings, a[1..], b);
          var r := ApplyMembers(st, settings, a[1..]);
          assert ApplyMembers(store, settings, a) == Then(w, r);
          assert ApplyMembers(store, settings, a + b) == Then(w, ApplyMembers(st, settings, a[1..] + b));
          if r.1.None? {
            ThenThen(w, r.2, ApplyMembers(r.0, settings, b));
          }
        }
      }
    }
  }

  /** A device whose name is missing from its field's settings draws an
      `InvalidSnapshotSetting` warning, is left as it was, and the other
      members are still applied. */
  lemma SkippedMemberContinues(store: Store, settings: ODict<DeviceEntry>, a: ODict<Member>, key: string,
                               hw: Hardware, b: ODict<Member>)
    requires MembersIn(store, a + [(key, Device(hw))] + b)
    requires Lookup(settings, hw.config.props.name).None?
    ensures MembersIn(store, a)
    ensures var (st, e, w) := ApplyMembers(store, settings, a);
            MembersIn(st, b) &&
            (e.None? ==>
               ApplyMembers(store, settings, a + [(key, Device(hw))] + b) ==
                 Then(w + [InvalidSnapshotSetting(hw.config.props.name)], ApplyMembers(st, settings, b)))
  {
    var m := [(key, Device(hw))];
    assert a + m + b == a + (m + b);
    ApplyMembersAppend(store, settings, a, m + b);
    var (st, e, w) := ApplyMembers(store, settings, a);
    assert (m + b)[0] == m[0] && (m + b)[1..] == b;
    MembersInSuffix(st, m + b, 1);
    if e.None? {
      var warning := InvalidSnapshotSetting(hw.config.props.name);
      assert st[hw := st[hw].(points := st[hw].points)] == st;
      assert ApplyDevice(st, hw, settings) == (st, None, [warning]);
      var r := ApplyMembers(st, settings, b);
      assert ApplyMembers(st, settings, m + b) == Then([warning], r);
      assert w + ([warning] + r.2) == (w + [warning]) + r.2;
    }
  }

  /** With the default targets every type is in the snapshot, so no plain
      warning is drawn. */
  lemma {:induction false} KnownTypesNoPlainWarning(store: Store, fields: ODict<Component>, others: set<string>, snapshot: SystemSnapshot,
                                                    ts: seq<string>)
    requires FieldsWithin(fields, store.Keys)
    requires forall k :: 0 <= k < |ts| ==> ts[k] in Keys(snapshot)
    ensures forall w :: w in ApplyTypes(store, fields, others, snapshot, ts).2 ==> !w.PlainWarning?
    decreases |ts|
  {
    if ts != [] {
      var (st, e, w) := ApplyType(store, fields, others, snapshot, ts[0]);
      assert forall x :: x in w ==> !x.PlainWarning? by {
        var settings := Lookup(snapshot, ts[0]).value;
        if Lookup(fields, ts[0]).Some? {
          LookupWithin(fields, ts[0], store.Keys);
          ComponentNoPlainWarning(store, Lookup(fields, ts[0]).value, settings);
        }
      }
      if e.None? {
        KnownTypesNoPlainWarning(st, fields, others, snapshot, ts[1..]);
      }
    }
  }

  /** Applying one field's settings draws no plain warning. */
  lemma ComponentNoPlainWarning(store: Store, c: Component, settings: ODict<DeviceEntry>)
    requires ComponentWithin(c, store.Keys)
    ensures forall w :: w in ApplyComponent(store, c, settings).2 ==> w.InvalidSnapshotSetting?
  {
    if c.DeviceDict? {
      MembersOnlyInvalidSetting(store, settings, c.members);
    }
  }

  /** A dictionary field's members draw only `InvalidSnapshotSetting`
      warnings. */
  lemma {:induction false} MembersOnlyInvalidSetting(store: Store, settings: ODict<DeviceEntry>, ms: ODict<Member>)
    requires MembersIn(store, ms)
    ensures forall w :: w in ApplyMembers(store, settings, ms).2 ==> w.InvalidSnapshotSetting?
    decreases |ms|
  {
    if ms != [] && ms[0].1.Device? {
      var (st, e, w) := ApplyDevice(store, ms[0].1.hw, settings);
      if e.None? {
        MembersInSuffix(st, ms, 1);
        MembersOnlyInvalidSetting(st, settings, ms[1..]);
      }
    }
  }

  // ------------------------------------------------------------ device loops

  /** `_apply_single_component_snapshot`. */
  method ApplySingle(settings: ODict<DeviceEntry>, hw: Hardware) returns (e: Option<Error>, ws: seq<Warning>)
    requires hw.Valid()
    modifies hw
    ensures hw.Valid() && hw.additional == old(hw.additional)
    ensures (hw.points, e, ws) == ApplyOne(hw.config, old(hw.points), settings)
  {
    var name := hw.config.props.name;
    var found := Lookup(settings, name);
    if found.None? {
      e := None;
      ws := [InvalidSnapshotSetting(name)];
    } else {
      e := hw.ApplySnapshot(found.value);
      ws := [];
      if e == Some(KeyError) {
        e := None;
        ws := [InvalidSnapshotSetting(name)];
      }
    }
  }

  /** `_apply_single_component_snapshot` on a device among `devs` whose
      states `store` records; `after` is the store it leaves. */
  method ApplyDeviceIn(settings: ODict<DeviceEntry>, hw: Hardware, ghost devs: set<Hardware>, ghost store: Store)
    returns (e: Option<Error>, ws: seq<Warning>, ghost after: Store)
    requires store.Keys == devs && hw in devs && Mirrors(store, devs)
    modifies hw
    ensures (after, e, ws) == ApplyDevice(store, hw, settings)
    ensures Mirrors(after, devs)
  {
    e, ws := ApplySingle(settings, hw);
    after := store[hw := store[hw].(points := hw.points)];
  }

  /** A device's `create_snapshot`, for a device among `devs` whose
      states `store` records; `after` is the store it leaves. */
  method CaptureDeviceIn(s: Slot, ghost devs: set<Hardware>, ghost store: Store)
    returns (r: Result<DeviceEntry>, ws: seq<Warning>, ghost after: Store)
    requires store.Keys == devs && s.hw in devs && Mirrors(store, devs)
    modifies s.hw
    ensures (after, (s, (s.hw.config.props.name, r, ws))) == CaptureAt(store, s)
    ensures after.Keys == devs && Mirrors(after, devs)
  {
    r, ws := s.hw.CreateSnapshot();
    after := store[s.hw := store[s.hw].(points := s.hw.points)];
  }

  /** A store holding the states of the devices visited covers them. */
  lemma SlotsCovered(store: Store, slots: seq<Slot>)
    requires store.Keys == SlotDevices(slots)
    ensures Covers(store, slots)
  {
    forall k | 0 <= k < |slots|
      ensures slots[k].hw in store
    {
      assert slots[k].hw in SlotDevices(slots);
    }
  }

  /** One more device merged into the snapshot and its warnings. */
  lemma AssembleStep(ts: seq<Taken>, t: Taken)
    requires Assemble(ts).Ok?
    ensures Assemble(ts + [t]) == if t.1.1.Err? then Err(t.1.1.error) else Ok(Put(Assemble(ts).value, t))
    ensures Warned(ts + [t]) == Warned(ts) + t.1.2
  {
    assert (ts + [t])[..|ts|] == ts;
  }

  /** Sequence concatenation is associative. */
  lemma AppendAssoc<T>(a: seq<T>, b: seq<T>, c: seq<T>)
    ensures a + (b + c) == (a + b) + c
  {
  }

  /** The loop of `create_snapshot` over the devices visited, among `devs`
      whose states `store` records; `after` is the store it leaves. */
  method CaptureLoop(slots: seq<Slot>, ghost devs: set<Hardware>, ghost store: Store)
    returns (r: Result<SystemSnapshot>, ws: seq<Warning>, ghost taken: seq<Taken>, ghost after: Store)
    requires store.Keys == devs && Mirrors(store, devs) && Covers(store, slots)
    modifies devs
    ensures (after, taken) == CaptureRun(store, slots)
    ensures r == Assemble(taken) && ws == Warned(taken)
    ensures after.Keys == devs && Mirrors(after, devs)
  {
    ghost var run := CaptureRun(store, slots);
    ghost var cur := store;
    var snap: SystemSnapshot := [];
    r := Ok([]);
    ws := [];
    taken := [];
    var k := 0;
    assert slots[0..] == slots && [] + run.1 == run.1;
    while k < |slots|
      invariant 0 <= k <= |slots| && |taken| == k
      invariant cur.Keys == devs && Mirrors(cur, devs) && Covers(cur, slots)
      invariant run == (CaptureRun(cur, slots[k..]).0, taken + CaptureRun(cur, slots[k..]).1)
      invariant Assemble(taken) == Ok(snap) && ws == Warned(taken)
    {
      CaptureRunStep(cur, slots, k);
      var s := slots[k];
      var res, w;
      res, w, cur := CaptureDeviceIn(s, devs, cur);
      var t := (s, (s.hw.config.props.name, res, w));
      AssembleStep(taken, t);
      AppendAssoc(taken, [t], CaptureRun(cur, slots[k + 1..]).1);
      taken := taken + [t];
      ws := ws + w;
      if res.Err? {
        r := Err(res.error);
        after := cur;
        return;
      }
      snap := Put(snap, t);
      k := k + 1;
    }
    assert slots[k..] == [] && taken + [] == taken;
    r := Ok(snap);
    after := cur;
  }

  /** The loop of `apply_snapshot` over a dictionary field's members, over
      devices among `devs` whose states `store` records; `after` is the
      store it leaves. */
  method ApplyMembersLoop(settings: ODict<DeviceEntry>, ms: ODict<Member>, ghost devs: set<Hardware>, ghost store: Store)
    returns (e: Option<Error>, ws: seq<Warning>, ghost after: Store)
    requires store.Keys == devs && MembersIn(store, ms) && Mirrors(store, devs)
    modifies devs
    ensures (after, e, ws) == ApplyMembers(store, settings, ms)
    ensures Mirrors(after, devs)
  {
    ghost var cur := store;
    e := None;
    ws := [];
    var i := 0;
    assert ms[0..] == ms;
    assert [] + ApplyMembers(store, settings, ms).2 == ApplyMembers(store, settings, ms).2;
    while i < |ms|
      invariant 0 <= i <= |ms|
      invariant cur.Keys == devs && MembersIn(cur, ms) && MembersIn(cur, ms[i..]) && Mirrors(cur, devs)
      invariant ApplyMembers(store, settings, ms) == Then(ws, ApplyMembers(cur, settings, ms[i..]))
    {
      var m := ms[i].1;
      if m.NotDevice? {
        ApplyMembersHalt(cur, settings, ms, i);
        assert ws + [] == ws;
        e := Some(AttributeError);
        after := cur;
        return;
      }
      ApplyMembersAdvance(store, cur, settings, ms, i, ws);
      var err, w;
      err, w, cur := ApplyDeviceIn(settings, m.hw, devs, cur);
      ws := ws + w;
      if err.Some? {
        e := err;
        after := cur;
        return;
      }
      i := i + 1;
    }
    assert ms[i..] == [] && ws + [] == ws;
    after := cur;
  }

  /** A member that is not a device ends the loop with `AttributeError`. */
  lemma ApplyMembersHalt(store: Store, settings: ODict<DeviceEntry>, ms: ODict<Member>, i: nat)
    requires i < |ms| && ms[i].1.NotDevice? && MembersIn(store, ms[i..])
    ensures ApplyMembers(store, settings, ms[i..]) == (store, Some(AttributeError), [])
  {
    assert ms[i..][0] == ms[i];
  }

  /** One device of the loop, from the state `cur` reached after the
      warnings `ws`: an exception ends the whole loop there, otherwise the
      loop goes on from the next member with the device's warnings added. */
  lemma ApplyMembersAdvance(store: Store, cur: Store, settings: ODict<DeviceEntry>, ms: ODict<Member>, i: nat, ws: seq<Warning>)
    requires i < |ms| && ms[i].1.Device?
    requires MembersIn(store, ms) && MembersIn(cur, ms) && MembersIn(cur, ms[i..])
    requires ApplyMembers(store, settings, ms) == Then(ws, ApplyMembers(cur, settings, ms[i..]))
    ensures var r := ApplyDevice(cur, ms[i].1.hw, settings);
            && MembersIn(r.0, ms) && MembersIn(r.0, ms[i + 1..])
            && (r.1.Some? ==> ApplyMembers(store, settings, ms) == (r.0, r.1, ws + r.2))
            && (r.1.None? ==> ApplyMembers(store, settings, ms) == Then(ws + r.2, ApplyMembers(r.0, settings, ms[i + 1..])))
  {
    ApplyMembersStep(cur, settings, ms, i);
    var r := ApplyDevice(cur, ms[i].1.hw, settings);
    if r.1.None? {
      ThenThen(ws, r.2, ApplyMembers(r.0, settings, ms[i + 1..]));
    }
  }

  // ------------------------------------------------------------ the components

  /** The components of a high-level system: its set fields, each holding
      a device, a dictionary of devices or some other value, and the names
      of its other attributes (fields left unset, methods, configuration). */
  class Components {
    const fields: ODict<Component>
    const others: set<string>

    constructor (fs: ODict<Component>, os: set<string>)
      requires DistinctKeys(fs)
      ensures fields == fs && others == os
    {
      fields := fs;
      others := os;
    }

    /** The devices of the components. */
    ghost function Devices(): set<Hardware> {
      SlotDevices(Slots(fields))
    }

    /** The fields have distinct names, their devices are the devices
        visited, and every device is valid. */
    ghost predicate Valid()
      reads Devices()
    {
      && DistinctKeys(fields)
      && FieldsWithin(fields, Devices())
      && (forall d :: d in Devices() ==> d.Valid())
    }

    /** `create_snapshot`: each device's snapshot, in order, merged under
      its field; the run ends at the first device that raises. */
    method CreateSnapshot() returns (r: Result<SystemSnapshot>, ws: seq<Warning>, ghost taken: seq<Taken>)
      requires Valid()
      modifies Devices()
      ensures Valid()
      ensures (StoreOf(Devices()), taken) == old(CaptureRun(StoreOf(Devices()), Slots(fields)))
      ensures r == Assemble(taken) && ws == Warned(taken)
    {
      StoreOfMirrored(Devices());
      SlotsCovered(StoreOf(Devices()), Slots(fields));
      ghost var after;
      r, ws, taken, after := CaptureLoop(Slots(fields), Devices(), StoreOf(Devices()));
      StoreOfMirrors(after, Devices());
    }

    /** One component type of `apply_snapshot`, from the device states
        `store` records; `after` is the store it leaves. */
    method ApplyTypeStep(snapshot: SystemSnapshot, t: string, ghost store: Store)
      returns (e: Option<Error>, ws: seq<Warning>, ghost after: Store)
      requires store.Keys == Devices() && Mirrors(store, Devices())
      requires FieldsWithin(fields, store.Keys)
      modifies Devices()
      ensures (after, e, ws) == ApplyType(store, fields, others, snapshot, t)
      ensures Mirrors(after, Devices())
    {
      after := store;
      e := None;
      var settings := Lookup(snapshot, t);
      if settings.None? {
        ws := [PlainWarning(t)];
        return;
      }
      var field := Lookup(fields, t);
      if field.None? {
        ws := if t in others then [] else [InvalidSnapshotSetting(t)];
        return;
      }
      LookupWithin(fields, t, store.Keys);
      match field.value {
        case OneDevice(hw) =>
          e, ws, after := ApplyDeviceIn(settings.value, hw, Devices(), store);
        case DeviceDict(ms) =>
          e, ws, after := ApplyMembersLoop(settings.value, ms, Devices(), store);
        case OtherValue(_) =>
          ws := [];
      }
      if e == Some(AttributeError) {
        e := None;
        ws := ws + [InvalidSnapshotSetting(t)];
      }
    }

    /** `apply_snapshot`: the component types asked for (all of the
        snapshot's when none are) in order, each warned about or applied,
        until an exception passes through. */
    method ApplySnapshot(snapshot: SystemSnapshot, applyTo: Option<seq<string>>)
      returns (e: Option<Error>, ws: seq<Warning>)
      requires Valid()
      modifies Devices()
      ensures Valid()
      ensures (StoreOf(Devices()), e, ws) ==
              old(ApplyTypes(StoreOf(Devices()), fields, others, snapshot, Targets(snapshot, applyTo)))
    {
      var types := Targets(snapshot, applyTo);
      StoreOfMirrored(Devices());
      SlotsCoverFields(fields);
      ghost var store := StoreOf(Devices());
      ghost var run := ApplyTypes(store, fields, others, snapshot, types);
      e := None;
      ws := [];
      var i := 0;
      assert types[0..] == types;
      assert [] + run.2 == run.2;
      while i < |types|
        invariant 0 <= i <= |types|
        invariant store.Keys == Devices() && Mirrors(store, Devices()) && FieldsWithin(fields, store.Keys)
        invariant run == Then(ws, ApplyTypes(store, fields, others, snapshot, types[i..]))
      {
        ApplyTypesStep(store, fields, others, snapshot, types, i);
        var err, w;
        err, w, store := ApplyTypeStep(snapshot, types[i], store);
        ThenThen(ws, w, ApplyTypes(store, fields, others, snapshot, types[i + 1..]));
        ws := ws + w;
        if err.Some? {
          e := err;
          StoreOfMirrors(store, Devices());
          return;
        }
        i := i + 1;
      }
      assert types[i..] == [] && ws + [] == ws;
      StoreOfMirrors(store, Devices());
    }
  }

  // ------------------------------------------------------------ the system

  /** `HighLevelSystem.create_snapshot`: the components' snapshot under
      the system's name, or the exception that ended it. */
  function Wrapped(name: string, r: Result<SystemSnapshot>): (w: Result<ODict<SystemSnapshot>>)
    ensures w.Err? <==> r.Err?
    ensures r.Err? ==> w.error == r.error
    ensures w.Ok? ==> Keys(w.value) == [name] && Lookup(w.value, name) == Some(r.value)
  {
    if r.Err? then Err(r.error) else Ok([(name, r.value)])
  }

  /** A high-level system: its metadata and its components. */
  class System {
    const properties: SystemProperties
    const components: Components

    constructor (props: SystemProperties, comps: Components)
      ensures properties == props && components == comps
    {
      properties := props;
      components := comps;
    }

    /** `create_snapshot`: `{name: components snapshot}`. */
    method CreateSnapshot() returns (r: Result<ODict<SystemSnapshot>>, ws: seq<Warning>, ghost taken: seq<Taken>)
      requires components.Valid()
      modifies components.Devices()
      ensures components.Valid()
      ensures (StoreOf(components.Devices()), taken) ==
              old(CaptureRun(StoreOf(components.Devices()), Slots(components.fields)))
      ensures r == Wrapped(properties.name, Assemble(taken)) && ws == Warned(taken)
    {
      var inner;
      inner, ws, taken := components.CreateSnapshot();
      r := Wrapped(properties.name, inner);
    }

    /** `apply_snapshot`: handed to the components. */
    method ApplySnapshot(snapshot: SystemSnapshot, applyTo: Option<seq<string>>)
      returns (e: Option<Error>, ws: seq<Warning>)
      requires components.Valid()
      modifies components.Devices()
      ensures components.Valid()
      ensures (StoreOf(components.Devices()), e, ws) ==
              old(ApplyTypes(StoreOf(components.Devices()), components.fields, components.others, snapshot,
                             Targets(snapshot, applyTo)))
    {
      e, ws := components.ApplySnapshot(snapshot, applyTo);
    }
  }
}
