/** One control-system point (a PV) of a device: the value written to and
    read back from the control system, the statistics buffer a statistical
    point keeps, and the checks each kind of point applies before it lets a
    write through. The state of a point is the `Point` datatype; the
    functions below are its transitions, and the `PVSignal` class performs
    the same transitions on fields. */
module PVUtils {
  import opened Wrappers
  import opened PyValues
  import opened OrderedDicts

  // ------------------------------------------------------------ protocol

  /** The control-system protocol a point talks through. */
  datatype Protocol = CA | PVA

  /** Protocol names are accepted in any letter case and normalised to
      upper case; anything but the two protocols is refused. */
  function NormalizeProtocol(v: string): (r: Result<Protocol>)
    ensures r.Ok? <==> Upper(v) == "CA" || Upper(v) == "PVA"
    ensures r == Ok(CA) <==> Upper(v) == "CA"
    ensures r.Err? ==> r.error == ValueError
  {
    var u := Upper(v);
    if u == "CA" then Ok(CA) else if u == "PVA" then Ok(PVA) else Err(ValueError)
  }

  function ProtocolName(p: Protocol): string {
    match p
    case CA => "CA"
    case PVA => "PVA"
  }

  /** A protocol's name, in any case, normalises back to that protocol. */
  lemma NormalizeProtocolRoundTrip(p: Protocol, v: string)
    requires Upper(v) == ProtocolName(p)
    ensures NormalizeProtocol(v) == Ok(p)
  {
  }

  // ------------------------------------------------------------ PV types

  /** The kinds of point (`ScalarPV`, `BinaryPV`, `StatePV`, `WaveformPV`,
      `StatisticalPV`, `StringPV`). */
  datatype PVType = Scalar | Binary | State | Waveform | Statistical | Text

  /** The name a configuration file uses for each kind. */
  function TypeName(t: PVType): string {
    match t
    case Scalar => "scalar"
    case Binary => "binary"
    case State => "state"
    case Waveform => "waveform"
    case Statistical => "statistical"
    case Text => "string"
  }

  /** Looks a configured type name up in the table of kinds; an unknown name
      is an `UnexpectedPVEntry`. */
  function ValidatePVType(v: string): (r: Result<PVType>)
    ensures r.Ok? ==> TypeName(r.value) == v
    ensures r.Err? ==> r.error == UnexpectedPVEntry && forall t: PVType :: TypeName(t) != v
  {
    if v == "scalar" then Ok(Scalar)
    else if v == "binary" then Ok(Binary)
    else if v == "state" then Ok(State)
    else if v == "waveform" then Ok(Waveform)
    else if v == "statistical" then Ok(Statistical)
    else if v == "string" then Ok(Text)
    else Err(UnexpectedPVEntry)
  }

  /** Every kind is found under its own name. */
  lemma ValidatePVTypeRoundTrip(t: PVType)
    ensures ValidatePVType(TypeName(t)) == Ok(t)
  {
  }

  // ------------------------------------------------------------ state maps

  /** The enumeration of a state point: member names with their integer
      values, in definition order. Two names may share a value, in which
      case the later name is an alias of the earlier member. */
  type StateMap = ODict<int>

  /** `states[name]`: the value of the member called `name`. */
  function StateByName(states: StateMap, name: string): Option<int> {
    Lookup(states, name)
  }

  /** `states(value)`: the name of the first member defined with `value`. */
  function StateByValue(states: StateMap, v: int): (r: Option<string>)
    ensures r.Some? ==> r.value in Keys(states)
    ensures r.Some? <==> exists i :: 0 <= i < |states| && states[i].1 == v
    ensures r.Some? ==>
              exists i :: 0 <= i < |states| && states[i] == (r.value, v) &&
                          forall j :: 0 <= j < i ==> states[j].1 != v
  {
    if states == [] then None
    else if states[0].1 == v then Some(states[0].0)
    else
      var r := StateByValue(states[1..], v);
      assert Keys(states) == [states[0].0] + Keys(states[1..]);
      r
  }

  /** Looking a value up and then its name gives the value back. */
  lemma {:induction false} StateByValueThenName(states: StateMap, v: int)
    requires DistinctKeys(states) && StateByValue(states, v).Some?
    ensures StateByName(states, StateByValue(states, v).value) == Some(v)
  {
    var n := StateByValue(states, v).value;
    var i :| 0 <= i < |states| && states[i] == (n, v) && forall j :: 0 <= j < i ==> states[j].1 != v;
    LookupAt(states, i);
  }

  /** Every value that has a name has a member; its canonical name may be
      another (earlier) name with the same value. */
  lemma {:induction false} StateByNameThenValue(states: StateMap, name: string)
    requires StateByName(states, name).Some?
    ensures StateByValue(states, StateByName(states, name).value).Some?
  {
    var v := StateByName(states, name).value;
    if states[0].0 != name && states[0].1 != v {
      StateByNameThenValue(states[1..], name);
    }
  }

  // ------------------------------------------------------------ point state

  /** One `(timestamp, value)` reading held in a statistics buffer; a
      reading delivered without a timestamp carries 0.0. */
  datatype Sample = Sample(stamp: real, value: real)

  /** What the control system holds for the point and what the point has
      done to it: the value and time a read returns, every value written,
      and the monitor callbacks registered. */
  datatype Channel = Channel(remote: Value, stamp: real, puts: seq<Value>,
                             callbacks: set<nat>, nextCallback: nat)

  /** The statistics a statistical point keeps: a window of the newest
      `maxlen` readings, the extremes by magnitude, the window the
      aggregates (mean, standard deviation, median, mode) were last
      computed over, and its monitor subscription. */
  datatype Stats = Stats(buffer: seq<Sample>, maxlen: nat, bufferSize: nat,
                         min: real, max: real, aggregated: Option<seq<Sample>>,
                         callbackIndex: Option<nat>, isBuffering: bool)

  datatype Point = Point(name: string, pvType: PVType, states: StateMap, readOnly: bool,
                         value: Value, timestamp: Option<real>, chan: Channel,
                         warnings: seq<Warning>, stats: Stats)

  /** `sys.float_info.max`, the initial minimum. */
  const FloatMax: real := 179769313486231570814527423731704356798070567525844996598917476803157260780028538760589558632766878171540458953514382464234321326889464182768467546703537516986049910576551282076245490090389328944075868508455133942304583236903222948165808559332123348274797826204144723168738177180919299881250404026184124858368.0

  /** `sys.float_info.min` (the smallest positive normal double), the
      initial maximum. */
  const FloatMin: real := 1.0 / 44942328371557897693232629769725618340449424473557664318357520289433168951375240783177119330601884005280028469967848339414697442203604155623211857659868531094441973356216371319075554900311523529863270738021251442209537670585615720368478277635206809290837627671146574559986811484619929076208839082406056034304.0

  // ------------------------------------------------------------ put

  /** What a write does: it reaches the control system with the value
      sent, is refused with a warning, or raises. */
  datatype PutOutcome = Forwarded(sent: Value) | Refused | Raised(error: Error)

  /** The base write: only a writable point reaches the control system. */
  function WriteAccess(readOnly: bool, v: Value): (o: PutOutcome)
    ensures o.Forwarded? <==> !readOnly
    ensures o.Forwarded? ==> o.sent == v
    ensures !o.Raised?
  {
    if readOnly then Refused else Forwarded(v)
  }

  /** The checks each kind applies to a value before the base write. */
  function PutOutcomeOf(t: PVType, states: StateMap, readOnly: bool, v: Value): (o: PutOutcome)
    // a read-only point never reaches the control system
    ensures readOnly ==> !o.Forwarded?
    // only a waveform raises, and only for a value that is not a list
    ensures o.Raised? <==> t == Waveform && !v.List?
    ensures o.Raised? ==> o.error == ValueError
    // scalars accept any int, float or bool and send it unchanged
    ensures (t == Scalar || t == Statistical) ==>
              (o.Forwarded? <==> !readOnly && IsNumber(v)) && (o.Forwarded? ==> o.sent == v)
    ensures t == Text ==> (o.Forwarded? <==> !readOnly && v.Str?) && (o.Forwarded? ==> o.sent == v)
    ensures t == Waveform ==> (o.Forwarded? <==> !readOnly && v.List?) && (o.Forwarded? ==> o.sent == v)
    // a binary point accepts a bool or anything equal to 0 or 1, and sends 0 or 1
    ensures t == Binary ==>
              (o.Forwarded? <==> !readOnly && (v.Bool? || PyEq(v, Int(0)) || PyEq(v, Int(1))))
    ensures t == Binary && o.Forwarded? ==>
              o.sent == Int(0) || o.sent == Int(1)
    ensures t == Binary && o.Forwarded? && v.Bool? ==> o.sent == Int(if v.b then 1 else 0)
    // a state point accepts a member name or a member value (never a bool)
    // and sends the member's value
    ensures t == State ==>
              (o.Forwarded? <==>
                 (!readOnly && ((v.Str? && StateByName(states, v.s).Some?) ||
                                (v.Int? && StateByValue(states, v.i).Some?))))
    ensures t == State && o.Forwarded? ==>
              o.sent.Int? && StateByValue(states, o.sent.i).Some?
    ensures t == State && o.Forwarded? && v.Str? ==> o.sent == Int(StateByName(states, v.s).value)
  {
    match t
    case Scalar => if IsNumber(v) then WriteAccess(readOnly, v) else Refused
    case Statistical => if IsNumber(v) then WriteAccess(readOnly, v) else Refused
    case Text => if v.Str? then WriteAccess(readOnly, v) else Refused
    case Binary =>
      if v.Bool? || PyEq(v, Int(0)) || PyEq(v, Int(1)) then WriteAccess(readOnly, Int(IntOf(v)))
      else Refused
    case State =>
      if v.Bool? then Refused
      else if v.Str? then
        match StateByName(states, v.s)
        case Some(x) =>
          StateByNameThenValue(states, v.s);
          WriteAccess(readOnly, Int(x))
        case None => Refused
      else if v.Int? then
        if StateByValue(states, v.i).Some? then WriteAccess(readOnly, Int(v.i)) else Refused
      else Refused
    case Waveform => if v.List? then WriteAccess(readOnly, v) else Raised(ValueError)
  }

  /** A write on a point: a forwarded value is appended to the values the
      control system received, a refusal appends one warning, a raise
      changes nothing and reports the exception. */
  function PutStep(p: Point, v: Value): (res: (Point, Option<Error>))
    ensures var o := PutOutcomeOf(p.pvType, p.states, p.readOnly, v);
            && (o.Forwarded? ==> res == (p.(chan := p.chan.(puts := p.chan.puts + [o.sent])), None))
            && (o.Refused? ==> res == (p.(warnings := p.warnings + [FailedEPICSOperation(p.name)]), None))
            && (o.Raised? ==> res == (p, Some(o.error)))
  {
    match PutOutcomeOf(p.pvType, p.states, p.readOnly, v)
    case Forwarded(x) => (p.(chan := p.chan.(puts := p.chan.puts + [x])), None)
    case Refused => (p.(warnings := p.warnings + [FailedEPICSOperation(p.name)]), None)
    case Raised(e) => (p, Some(e))
  }

  /** A read-only point is never written: the control system receives
      nothing and a warning is recorded instead (unless the write raised). */
  lemma PutReadOnly(p: Point, v: Value)
    requires p.readOnly
    ensures PutStep(p, v).0.chan == p.chan
    ensures PutStep(p, v).1.None? ==> |PutStep(p, v).0.warnings| == |p.warnings| + 1
  {
  }

  /** A write on a writable point reaches the control system at most once;
      when it does, nothing else about the point changes. */
  lemma PutWritable(p: Point, v: Value)
    requires !p.readOnly
    ensures var q := PutStep(p, v).0;
            |q.chan.puts| <= |p.chan.puts| + 1 &&
            q.chan.puts[..|p.chan.puts|] == p.chan.puts &&
            (|q.chan.puts| == |p.chan.puts| + 1 ==> q.warnings == p.warnings)
  {
  }

  // ------------------------------------------------------------ get

  /** The type test a read applies to the value the control system returns. */
  predicate ExpectedType(t: PVType, v: Value) {
    match t
    case Text => v.Str?
    case Scalar => IsNumber(v)
    case Statistical => IsNumber(v)
    case State => IsNumber(v)
    case Binary => v.Bool? || v.Int?
    case Waveform => v.List?
  }

  /** The base read: a value of the expected type is cached, timestamped and
      returned; anything else (a failed connection returns `None`) records a
      warning, returns `None` and leaves the cache as it was. */
  function ReadBack(p: Point): (res: (Point, Value))
    ensures ExpectedType(p.pvType, p.chan.remote) ==>
              res == (p.(value := p.chan.remote, timestamp := Some(p.chan.stamp)), p.chan.remote)
    ensures !ExpectedType(p.pvType, p.chan.remote) ==>
              res == (p.(warnings := p.warnings + [FailedEPICSOperation(p.name)]), Null)
  {
    var r := p.chan.remote;
    if ExpectedType(p.pvType, r) then (p.(value := r, timestamp := Some(p.chan.stamp)), r)
    else (p.(warnings := p.warnings + [FailedEPICSOperation(p.name)]), Null)
  }

  /** A read on a point. A binary point turns the result into a bool (a
      failed read reads as false); a state point turns the cached number
      into the name of its state, so after a failed read it reports the
      state of the previously cached value. */
  function GetStep(p: Point): (res: (Point, Value))
    // only the cache, its timestamp and the warnings change
    ensures res.0 == p.(value := res.0.value, timestamp := res.0.timestamp, warnings := res.0.warnings)
    ensures |res.0.warnings| >= |p.warnings|
    // a value of the expected type is cached; otherwise the cache is kept
    ensures ExpectedType(p.pvType, p.chan.remote) ==> res.0.value == p.chan.remote
    ensures !ExpectedType(p.pvType, p.chan.remote) ==>
              res.0.value == p.value && |res.0.warnings| > |p.warnings| &&
              res.0.warnings[..|p.warnings| + 1] == p.warnings + [FailedEPICSOperation(p.name)]
    // plain kinds return what was read, or None
    ensures p.pvType !in {Binary, State} ==>
              res.1 == (if ExpectedType(p.pvType, p.chan.remote) then p.chan.remote else Null)
    ensures p.pvType == Binary ==> res.1 == Bool(ExpectedType(Binary, p.chan.remote) && Truthy(p.chan.remote))
    // a state point returns the name of a member, or None
    ensures p.pvType == State ==>
              res.1 == Null || (res.1.Str? && StateByName(p.states, res.1.s).Some?)
    // namely the first member defined with the cached number, else None with a warning
    ensures p.pvType == State ==>
              res.1 == (if IsNumber(res.0.value) && StateByValue(p.states, IntOf(res.0.value)).Some?
                        then Str(StateByValue(p.states, IntOf(res.0.value)).value) else Null)
    ensures p.pvType == State && res.1.Null? ==>
              |res.0.warnings| > |p.warnings| &&
              res.0.warnings[|res.0.warnings| - 1] == FailedEPICSOperation(p.name)
  {
    match p.pvType
    case Binary =>
      var (q, r) := ReadBack(p);
      (q, Bool(Truthy(r)))
    case State =>
      var (q, _) := ReadBack(p);
      if IsNumber(q.value) && StateByValue(p.states, IntOf(q.value)).Some? then
        var name := StateByValue(p.states, IntOf(q.value)).value;
        assert Lookup(p.states, name).Some?;
        (q.(timestamp := Some(p.chan.stamp)), Str(name))
      else
        (q.(warnings := q.warnings + [FailedEPICSOperation(p.name)]), Null)
    case _ => ReadBack(p)
  }

  /** Reading twice in a row returns the same value and caches the same
      value: a read depends only on what the control system holds and on
      the cache it refreshes. */
  lemma GetTwice(p: Point)
    ensures GetStep(GetStep(p).0).1 == GetStep(p).1
    ensures GetStep(GetStep(p).0).0.value == GetStep(p).0.value
  {
  }

  // ------------------------------------------------------------ statistics

  /** The newest `n` elements of `s` (what a deque bounded to `n` keeps). */
  function KeepNewest<T>(s: seq<T>, n: nat): (r: seq<T>)
    ensures |r| == if |s| <= n then |s| else n
    ensures r == s[|s| - |r|..]
  {
    if |s| <= n then s else s[|s| - n..]
  }

  function Values(buffer: seq<Sample>): (vs: seq<real>)
    ensures |vs| == |buffer|
    ensures forall i :: 0 <= i < |buffer| ==> vs[i] == buffer[i].value
  {
    if buffer == [] then [] else [buffer[0].value] + Values(buffer[1..])
  }

  function Stamps(buffer: seq<Sample>): (ts: seq<real>)
    ensures |ts| == |buffer|
    ensures forall i :: 0 <= i < |buffer| ==> ts[i] == buffer[i].stamp
  {
    if buffer == [] then [] else [buffer[0].stamp] + Stamps(buffer[1..])
  }

  /** `update_stats`: a monitor delivers a reading. It is cached, stamped
      (with the current time when it came without a timestamp), appended to
      the window (the oldest reading dropping out of a full window), taken
      as the new maximum or minimum when its magnitude beats theirs, and
      the aggregates are recomputed once the window holds more than two
      readings. */
  function Record(p: Point, v: real, stamp: real, now: real): (q: Point)
    ensures q.value == Float(v) && q.stats.maxlen == p.stats.maxlen
  {
    p.(value := Float(v), timestamp := Some(if stamp != 0.0 then stamp else now),
       stats := RecordStats(p.stats, Sample(stamp, v)))
  }

  /** The statistics part of `update_stats`. */
  function RecordStats(s: Stats, x: Sample): (t: Stats)
    ensures t.maxlen == s.maxlen
  {
    var buffer := KeepNewest(s.buffer + [x], s.maxlen);
    s.(buffer := buffer,
       max := if Abs(x.value) > Abs(s.max) then x.value else s.max,
       min := if Abs(x.value) < Abs(s.min) then x.value else s.min,
       aggregated := if |buffer| > 2 then Some(buffer) else s.aggregated)
  }

  /** A deque bounded to `n` that held at most `n` elements: pushing grows
      it while there is room and otherwise drops its oldest element. */
  lemma KeepNewestPush<T>(s: seq<T>, x: T, n: nat)
    requires |s| <= n
    ensures KeepNewest(s + [x], n) ==
            if |s| < n then s + [x] else if n > 0 then s[1..] + [x] else s
  {
    if 0 < |s| == n {
      assert (s + [x])[1..] == s[1..] + [x];
    }
  }

  /** The window of a recording point behaves as a bounded FIFO: it never
      exceeds its capacity, grows by the reading while there is room, and
      otherwise loses exactly its oldest reading. */
  lemma RecordWindow(p: Point, v: real, stamp: real, now: real)
    requires |p.stats.buffer| <= p.stats.maxlen
    ensures var q := Record(p, v, stamp, now);
            && |q.stats.buffer| <= q.stats.maxlen
            && (|p.stats.buffer| < p.stats.maxlen ==> q.stats.buffer == p.stats.buffer + [Sample(stamp, v)])
            && (0 < |p.stats.buffer| == p.stats.maxlen ==> q.stats.buffer == p.stats.buffer[1..] + [Sample(stamp, v)])
  {
    var b := p.stats.buffer + [Sample(stamp, v)];
    if 0 < |p.stats.buffer| == p.stats.maxlen {
      assert KeepNewest(b, p.stats.maxlen) == b[1..];
    }
  }

  /** `is_buffer_full`: the window holds as many readings as it can. */
  predicate BufferFull(p: Point) {
    |p.stats.buffer| == p.stats.maxlen
  }

  /** `clear_buffer`: empties the window; the extremes survive. */
  function ClearStats(p: Point): (q: Point)
    ensures q.stats.buffer == []
    ensures q == p.(stats := p.stats.(buffer := []))
  {
    p.(stats := p.stats.(buffer := []))
  }

  /** The `buffer_size` setter: rebuilds the window with the new capacity,
      keeping its newest readings; a negative size is refused. */
  function Resize(p: Point, size: int): (r: Result<Point>)
    ensures r.Err? <==> size < 0
    ensures r.Err? ==> r.error == ValueError
    ensures r.Ok? ==> r.value.stats.maxlen == size && r.value.stats.bufferSize == size
    ensures r.Ok? ==> r.value.stats.buffer == KeepNewest(p.stats.buffer, size)
    ensures r.Ok? ==> r.value == p.(stats := r.value.stats)
    ensures r.Ok? ==> r.value.stats == p.stats.(buffer := r.value.stats.buffer, maxlen := size, bufferSize := size)
  {
    if size < 0 then Err(ValueError)
    else Ok(p.(stats := p.stats.(buffer := KeepNewest(p.stats.buffer, size), maxlen := size, bufferSize := size)))
  }

  /** `start_buffering`: subscribes `update_stats` to the monitor unless a
      subscription is already held. The window is NOT emptied: the code
      clears a copy of it. */
  function BeginBuffering(p: Point): (q: Point)
    ensures p.stats.callbackIndex.None? ==>
              q.stats.isBuffering && q.stats.callbackIndex == Some(p.chan.nextCallback) &&
              q.chan.callbacks == p.chan.callbacks + {p.chan.nextCallback}
    ensures q.stats.buffer == p.stats.buffer
    ensures p.stats.callbackIndex.Some? ==> q == p
  {
    if p.stats.callbackIndex.None? then
      var index := p.chan.nextCallback;
      p.(chan := p.chan.(callbacks := p.chan.callbacks + {index}, nextCallback := index + 1),
         stats := p.stats.(callbackIndex := Some(index), isBuffering := true))
    else p
  }

  /** `stop_buffering`: removes the subscription (if any) and marks the
      point as not buffering; the window is kept. */
  function EndBuffering(p: Point): (q: Point)
    ensures !q.stats.isBuffering && q.stats.callbackIndex.None?
    ensures p.stats.callbackIndex.Some? ==> p.stats.callbackIndex.value !in q.chan.callbacks
    ensures q.chan.callbacks <= p.chan.callbacks
    ensures q.stats.buffer == p.stats.buffer
  {
    var callbacks := if p.stats.callbackIndex.Some? then p.chan.callbacks - {p.stats.callbackIndex.value}
                     else p.chan.callbacks;
    p.(chan := p.chan.(callbacks := callbacks),
       stats := p.stats.(callbackIndex := None, isBuffering := false))
  }

  /** Starting is idempotent. */
  lemma StartBufferingIdempotent(p: Point)
    ensures BeginBuffering(BeginBuffering(p)) == BeginBuffering(p)
  {
  }

  /** Starting and then stopping a point that was not subscribed leaves the
      monitor with the callbacks it had before. */
  lemma StartThenStop(p: Point)
    requires p.stats.callbackIndex.None? && p.chan.nextCallback !in p.chan.callbacks
    ensures EndBuffering(BeginBuffering(p)).chan.callbacks == p.chan.callbacks
    ensures !EndBuffering(BeginBuffering(p)).stats.isBuffering
  {
  }

  // ------------------------------------------------------------ creation

  /** The per-point entry of a device's configuration, as written: `None`
      marks a key the entry leaves out, which takes its default. For the
      buffer size, `Some(None)` is an explicit null and `None` the absent
      key (size 10); an absent or null `states` is `None`. */
  datatype PVInfo = PVInfo(pv: string, pvType: Option<string>, protocol: Option<string>,
                           autoBuffer: Option<bool>, bufferSize: Option<Option<int>>,
                           states: Option<StateMap>, readOnly: Option<bool>)

  /** The kind an entry asks for: `StatisticalPV` when it names none (the
      default is not validated), otherwise its name looked up. */
  function KindOf(info: PVInfo): Result<PVType> {
    if info.pvType.None? then Ok(Statistical) else ValidatePVType(info.pvType.value)
  }

  /** The protocol of an entry, "CA" by default. */
  function ProtocolOf(info: PVInfo): string {
    if info.protocol.None? then "CA" else info.protocol.value
  }

  /** The buffer size of an entry: 10 by default, nothing when it is null. */
  function BufferSizeOf(info: PVInfo): Option<int> {
    if info.bufferSize.None? then Some(10) else info.bufferSize.value
  }

  /** Whether an entry's point is read-only, which it is by default. */
  function ReadOnlyOf(info: PVInfo): bool {
    info.readOnly != Some(false)
  }

  /** The state of a freshly created point of kind `t` on channel `chan`. */
  function InitialPoint(name: string, t: PVType, states: StateMap, readOnly: bool,
                        capacity: nat, chan: Channel): Point {
    Point(name, t, states, readOnly, Null, None, chan, [],
          Stats([], capacity, capacity, FloatMax, FloatMin, None, None, false))
  }

  /** `PVInfo` validation followed by `create()`: the type name, when one
      is given, must be known (checked first, and reported as
      `UnexpectedPVEntry`), the protocol must be exactly "CA" or "PVA", a
      buffer size that is not null must be positive, a statistical point
      needs both a buffer size and an auto-buffer flag, and a state point
      needs its states (building the enumeration from none fails); every
      other failure is a `ValueError`. A statistical point with the flag set
      starts buffering at once. */
  function CreatePV(info: PVInfo, chan: Channel): (r: Result<Point>)
    ensures KindOf(info).Err? ==> r == Err(UnexpectedPVEntry)
    ensures r.Ok? <==>
              && KindOf(info).Ok?
              && (ProtocolOf(info) == "CA" || ProtocolOf(info) == "PVA")
              && (BufferSizeOf(info).Some? ==> BufferSizeOf(info).value > 0)
              && (KindOf(info) == Ok(Statistical) ==> BufferSizeOf(info).Some? && info.autoBuffer.Some?)
              && (KindOf(info) == Ok(State) ==> info.states.Some?)
    ensures r.Err? && KindOf(info).Ok? ==> r.error == ValueError
    ensures r.Ok? ==>
              && KindOf(info) == Ok(r.value.pvType)
              && r.value.name == info.pv && r.value.readOnly == ReadOnlyOf(info)
              && (r.value.pvType == State ==> info.states == Some(r.value.states))
              && (r.value.pvType != State ==> r.value.states == [])
              && r.value.value == Null && r.value.timestamp.None?
              && r.value.stats.buffer == []
              && r.value.chan.puts == chan.puts
    ensures r.Ok? && r.value.pvType == Statistical ==>
              r.value.stats.maxlen == BufferSizeOf(info).value > 0 &&
              r.value.stats.isBuffering == (info.autoBuffer == Some(true))
    ensures r.Ok? && r.value.pvType != Statistical ==> !r.value.stats.isBuffering
  {
    match KindOf(info)
    case Err(e) => Err(e)
    case Ok(t) =>
      var size := BufferSizeOf(info);
      if ProtocolOf(info) != "CA" && ProtocolOf(info) != "PVA" then Err(ValueError)
      else if size.Some? && size.value <= 0 then Err(ValueError)
      else if t == Statistical && (size.None? || info.autoBuffer.None?) then Err(ValueError)
      else if t == State && info.states.None? then Err(ValueError)
      else
        var capacity := if t == Statistical then size.value else 0;
        var p := InitialPoint(info.pv, t, if t == State then info.states.value else [], ReadOnlyOf(info), capacity, chan);
        if t == Statistical && info.autoBuffer == Some(true) then Ok(BeginBuffering(p)) else Ok(p)
  }

  /** An entry that gives only the point's name asks for a read-only
      statistical point on Channel Access with a buffer of 10, and fails
      for want of an auto-buffer flag; once the flag is given it is
      created. */
  lemma CreateWithDefaults(pv: string, b: bool, chan: Channel)
    ensures CreatePV(PVInfo(pv, None, None, None, None, None, None), chan) == Err(ValueError)
    ensures var r := CreatePV(PVInfo(pv, None, None, Some(b), None, None, None), chan);
            && r.Ok? && r.value.pvType == Statistical && r.value.readOnly
            && r.value.stats.maxlen == 10 && r.value.stats.isBuffering == b
  {
  }

  // ------------------------------------------------------------ many readings

  /** The readings a monitor delivers one after another, oldest first. */
  function RecordAll(p: Point, readings: seq<Sample>, now: real): Point
    decreases |readings|
  {
    if readings == [] then p
    else RecordAll(Record(p, readings[0].value, readings[0].stamp, now), readings[1..], now)
  }

  lemma KeepNewestTwice<T>(a: seq<T>, b: seq<T>, n: nat)
    ensures KeepNewest(KeepNewest(a, n) + b, n) == KeepNewest(a + b, n)
  {
    if |a| > n {
      var x := a + b;
      var y := a[|a| - n..] + b;
      assert KeepNewest(a, n) == a[|a| - n..];
      assert y == x[|a| - n..];
      assert KeepNewest(x, n) == x[|x| - n..];
      assert KeepNewest(y, n) == y[|y| - n..];
      assert y[|y| - n..] == x[|x| - n..];
    }
  }

  /** However many readings arrive, the window holds exactly the newest of
      them (together with what it held before), in arrival order, never more
      than its capacity. */
  lemma {:induction false} RecordAllWindow(p: Point, readings: seq<Sample>, now: real)
    requires |p.stats.buffer| <= p.stats.maxlen
    ensures RecordAll(p, readings, now).stats.buffer ==
            KeepNewest(p.stats.buffer + readings, p.stats.maxlen)
    ensures RecordAll(p, readings, now).stats.maxlen == p.stats.maxlen
    decreases |readings|
  {
    if readings != [] {
      var n := p.stats.maxlen;
      var r := readings[0];
      var b1 := p.stats.buffer + [r];
      var q := Record(p, r.value, r.stamp, now);
      assert q.stats.buffer == KeepNewest(b1, n) && q.stats.maxlen == n by {
        assert Sample(r.stamp, r.value) == r;
      }
      RecordAllWindow(q, readings[1..], now);
      calc {
        RecordAll(p, readings, now).stats.buffer;
        RecordAll(q, readings[1..], now).stats.buffer;
        KeepNewest(KeepNewest(b1, n) + readings[1..], n);
        { KeepNewestTwice(b1, readings[1..], n); }
        KeepNewest(b1 + readings[1..], n);
        { assert b1 + readings[1..] == p.stats.buffer + readings; }
        KeepNewest(p.stats.buffer + readings, n);
      }
    }
  }

  /** The window is full exactly when the readings held before plus those
      delivered since reach the capacity. */
  lemma RecordAllFull(p: Point, readings: seq<Sample>, now: real)
    requires |p.stats.buffer| <= p.stats.maxlen
    ensures BufferFull(RecordAll(p, readings, now)) <==>
            |p.stats.buffer| + |readings| >= p.stats.maxlen
  {
    RecordAllWindow(p, readings, now);
  }

  /** The extremes are by magnitude and only ever widen: after any readings
      the maximum's magnitude is at least that of every reading and of the
      previous maximum, the minimum's at most, and each is either the
      previous extreme or one of the readings. */
  lemma {:induction false} RecordAllExtremes(p: Point, readings: seq<Sample>, now: real)
    ensures var q := RecordAll(p, readings, now);
            && Abs(q.stats.max) >= Abs(p.stats.max) && Abs(q.stats.min) <= Abs(p.stats.min)
            && (forall i :: 0 <= i < |readings| ==>
                  Abs(readings[i].value) <= Abs(q.stats.max) && Abs(q.stats.min) <= Abs(readings[i].value))
            && (q.stats.max == p.stats.max || exists i :: 0 <= i < |readings| && q.stats.max == readings[i].value)
            && (q.stats.min == p.stats.min || exists i :: 0 <= i < |readings| && q.stats.min == readings[i].value)
    decreases |readings|
  {
    if readings != [] {
      var r := readings[0];
      var p1 := Record(p, r.value, r.stamp, now);
      RecordAllExtremes(p1, readings[1..], now);
      var q := RecordAll(p, readings, now);
      assert q == RecordAll(p1, readings[1..], now);
      forall i | 0 <= i < |readings|
        ensures Abs(readings[i].value) <= Abs(q.stats.max) && Abs(q.stats.min) <= Abs(readings[i].value)
      {
        if i > 0 {
          assert readings[i] == readings[1..][i - 1];
        }
      }
      if q.stats.max != p1.stats.max {
        var i :| 0 <= i < |readings[1..]| && q.stats.max == readings[1..][i].value;
        assert q.stats.max == readings[i + 1].value;
      }
      if q.stats.min != p1.stats.min {
        var i :| 0 <= i < |readings[1..]| && q.stats.min == readings[1..][i].value;
        assert q.stats.min == readings[i + 1].value;
      }
    }
  }

  /** A fresh statistical point reports zero as neither its maximum nor its
      minimum: the initial maximum is the smallest positive double, which
      a zero reading never beats, and the initial minimum is the largest. */
  lemma ZeroNeverBecomesMaximum(name: string, readOnly: bool, capacity: nat, chan: Channel, now: real)
    ensures var q := Record(InitialPoint(name, Statistical, [], readOnly, capacity, chan), 0.0, 0.0, now);
            q.stats.max == FloatMin && q.stats.min == 0.0
  {
  }

  // ------------------------------------------------------------ the object

  /** What `update_stats` computes field by field is `RecordStats`. */
  lemma RecordStatsFields(s: Stats, x: Sample, window: seq<Sample>, newMax: real, newMin: real,
                          newAggregated: Option<seq<Sample>>)
    requires |s.buffer| <= s.maxlen
    requires window == if |s.buffer| < s.maxlen then s.buffer + [x]
                       else if s.maxlen > 0 then s.buffer[1..] + [x] else s.buffer
    requires newMax == (if Abs(x.value) > Abs(s.max) then x.value else s.max)
    requires newMin == (if Abs(x.value) < Abs(s.min) then x.value else s.min)
    requires newAggregated == if |window| > 2 then Some(window) else s.aggregated
    ensures |window| <= s.maxlen
    ensures RecordStats(s, x) == s.(buffer := window, max := newMax, min := newMin, aggregated := newAggregated)
  {
    KeepNewestPush(s.buffer, x, s.maxlen);
  }

  /** A control-system point as an object whose fields the operations
      update in place; `View()` is its state as a `Point`. */
  class PVSignal {
    const name: string
    const pvType: PVType
    const states: StateMap
    const readOnly: bool
    var value: Value
    var timestamp: Option<real>
    var chan: Channel
    var warnings: seq<Warning>
    /** The statistics of a statistical point (unused by the other kinds). */
    var stats: Stats

    function View(): Point
      reads this
    {
      Point(name, pvType, states, readOnly, value, timestamp, chan, warnings, stats)
    }

    /** The window never holds more readings than its capacity. */
    ghost predicate Valid()
      reads this
    {
      |stats.buffer| <= stats.maxlen
    }

    constructor (p: Point)
      requires |p.stats.buffer| <= p.stats.maxlen
      ensures Valid() && View() == p
    {
      name, pvType, states, readOnly := p.name, p.pvType, p.states, p.readOnly;
      value, timestamp, chan, warnings, stats := p.value, p.timestamp, p.chan, p.warnings, p.stats;
    }

    /** `put`, with the check of this point's kind. */
    method Put(v: Value) returns (e: Option<Error>)
      requires Valid()
      modifies this
      ensures Valid()
      ensures (View(), e) == PutStep(old(View()), v)
    {
      match PutOutcomeOf(pvType, states, readOnly, v)
      case Forwarded(x) =>
        chan := chan.(puts := chan.puts + [x]);
        e := None;
      case Refused =>
        warnings := warnings + [FailedEPICSOperation(name)];
        e := None;
      case Raised(err) =>
        e := Some(err);
    }

    /** `get`, with the conversion of this point's kind. */
    method Get() returns (r: Value)
      requires Valid()
      modifies this
      ensures Valid()
      ensures (View(), r) == GetStep(old(View()))
    {
      var retrieved := chan.remote;
      if ExpectedType(pvType, retrieved) {
        value := retrieved;
        timestamp := Some(chan.stamp);
        r := retrieved;
      } else {
        warnings := warnings + [FailedEPICSOperation(name)];
        r := Null;
      }
      if pvType == Binary {
        r := Bool(Truthy(r));
      } else if pvType == State {
        if IsNumber(value) && StateByValue(states, IntOf(value)).Some? {
          timestamp := Some(chan.stamp);
          r := Str(StateByValue(states, IntOf(value)).value);
        } else {
          warnings := warnings + [FailedEPICSOperation(name)];
          r := Null;
        }
      }
    }

    /** `update_stats`, the monitor callback. */
    method UpdateStats(v: real, stamp: real, now: real)
      requires Valid()
      modifies this
      ensures Valid()
      ensures View() == Record(old(View()), v, stamp, now)
    {
      var reading := Sample(stamp, v);
      var window := stats.buffer;
      if |window| < stats.maxlen {
        window := window + [reading];
      } else if stats.maxlen > 0 {
        window := window[1..] + [reading];
      }
      var newMax := if Abs(v) > Abs(stats.max) then v else stats.max;
      var newMin := if Abs(v) < Abs(stats.min) then v else stats.min;
      var newAggregated := if |window| > 2 then Some(window) else stats.aggregated;
      RecordStatsFields(stats, reading, window, newMax, newMin, newAggregated);
      stats := stats.(buffer := window, max := newMax, min := newMin, aggregated := newAggregated);
      value := Float(v);
      timestamp := if stamp != 0.0 then Some(stamp) else Some(now);
    }

    /** `is_buffer_full`. */
    predicate IsBufferFull()
      reads this
      ensures IsBufferFull() <==> BufferFull(View())
    {
      |stats.buffer| == stats.maxlen
    }

    /** `clear_buffer`. */
    method ClearBuffer()
      requires Valid()
      modifies this
      ensures Valid()
      ensures View() == ClearStats(old(View()))
    {
      stats := stats.(buffer := []);
    }

    /** The `buffer_size` setter. */
    method SetBufferSize(size: int) returns (e: Option<Error>)
      requires Valid()
      modifies this
      ensures Valid()
      ensures e.None? ==> Resize(old(View()), size) == Ok(View())
      ensures e.Some? ==> Resize(old(View()), size) == Err(e.value) && View() == old(View())
    {
      if size < 0 {
        return Some(ValueError);
      }
      var window := stats.buffer;
      if |window| > size {
        window := window[|window| - size..];
      }
      stats := stats.(buffer := window, maxlen := size, bufferSize := size);
      e := None;
    }

    /** `start_buffering`. */
    method StartBuffering()
      requires Valid()
      modifies this
      ensures Valid()
      ensures View() == BeginBuffering(old(View()))
    {
      if stats.callbackIndex.None? {
        var index := chan.nextCallback;
        chan := chan.(callbacks := chan.callbacks + {index}, nextCallback := index + 1);
        stats := stats.(callbackIndex := Some(index), isBuffering := true);
      }
    }

    /** `stop_buffering`. */
    method StopBuffering()
      requires Valid()
      modifies this
      ensures Valid()
      ensures View() == EndBuffering(old(View()))
    {
      if stats.callbackIndex.Some? {
        chan := chan.(callbacks := chan.callbacks - {stats.callbackIndex.value});
      }
      stats := stats.(callbackIndex := None, isBuffering := false);
    }
  }
}
