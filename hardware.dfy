/** A device of the machine (a magnet, a screen, a camera, ...): its fixed
    properties, the map of its control-system points, the buffer
    operations on its statistical points, the snapshot entry it captures
    and the snapshot entry it applies. */
module HardwareModel {
  import opened Wrappers
  import opened PyValues
  import opened OrderedDicts
  import opened Area
  import opened Config
  import opened PVUtils

  // ------------------------------------------------------------ properties

  /** The frozen properties of a device. */
  datatype Properties = Properties(name: string, aliases: seq<string>, hardwareType: string,
                                   position: real, area: MachineArea, subtype: Option<string>)

  /** `create_alias_list`: the configured alias string is split at every
      comma and each part stripped of surrounding white space. */
  function CreateAliasList(v: string): (aliases: seq<string>)
    ensures |aliases| == |Split(v, ',')|
  {
    seq(|Split(v, ',')|, i requires 0 <= i < |Split(v, ',')| => Strip(Split(v, ',')[i]))
  }

  /** One alias per comma plus one; no alias holds a comma or starts or
      ends with white space. */
  lemma AliasListShape(v: string)
    ensures |CreateAliasList(v)| == Count(v, ',') + 1
    ensures forall i :: 0 <= i < |CreateAliasList(v)| ==>
              var a := CreateAliasList(v)[i];
              ',' !in a && (a == [] || (!IsSpace(a[0]) && !IsSpace(a[|a| - 1])))
  {
    SplitCount(v, ',');
    forall i | 0 <= i < |CreateAliasList(v)|
      ensures var a := CreateAliasList(v)[i];
              ',' !in a && (a == [] || (!IsSpace(a[0]) && !IsSpace(a[|a| - 1])))
    {
      var part := Split(v, ',')[i];
      assert CreateAliasList(v)[i] == Strip(part);
      StripTrims(part);
      StripAddsNothing(part, ',');
    }
  }

  /** A list of aliases written out comma-separated is parsed back to the
      same list, provided no alias holds a comma or surrounding white space. */
  lemma AliasListRoundTrip(aliases: seq<string>)
    requires aliases != []
    requires forall i :: 0 <= i < |aliases| ==>
               ',' !in aliases[i] &&
               (aliases[i] == [] || (!IsSpace(aliases[i][0]) && !IsSpace(aliases[i][|aliases[i]| - 1])))
    ensures CreateAliasList(Join(aliases, ',')) == aliases
  {
    SplitJoin(aliases, ',');
    forall i | 0 <= i < |aliases|
      ensures Strip(aliases[i]) == aliases[i]
    {
      StripStripped(aliases[i]);
    }
  }

  /** `create_machine_area`: the configured name is upper-cased and must
      name one of the machine's areas. */
  function CreateMachineArea(v: string): (r: Result<MachineArea>)
    ensures r.Ok? ==> r.value in MachineAreas && r.value.name == Upper(v)
    ensures r.Err? ==> r.error == ValueError && forall a :: a in MachineAreas ==> a.name != Upper(v)
  {
    var area := MachineArea(Upper(v));
    if area in MachineAreas then Ok(area) else Err(ValueError)
  }

  /** Area names are matched without regard to letter case. */
  lemma CreateMachineAreaCaseInsensitive(v: string)
    ensures CreateMachineArea(Upper(v)) == CreateMachineArea(v)
  {
    UpperIdempotent(v);
  }

  /** Every area of the machine is accepted under its own name. */
  lemma CreateMachineAreaAcceptsEveryArea(i: nat)
    requires i < |MachineAreas|
    ensures CreateMachineArea(MachineAreas[i].name) == Ok(MachineAreas[i])
  {
    var s := MachineAreas[i].name;
    assert |s| == 3 && forall j :: 0 <= j < 3 ==> UpperChar(s[j]) == s[j];
    assert Upper(s) == s;
  }

  // ------------------------------------------------------------ points

  /** `validate_pvs`: each point entry of the configuration becomes a
      point; a device on the virtual machine prefixes every point name
      with "VM-" and makes every point writable. */
  function ValidatePV(info: PVInfo, isVirtual: bool, chan: Channel): (r: Result<Point>)
    ensures r.Ok? <==> CreatePV(info, chan).Ok?
    ensures r.Ok? && isVirtual ==> r.value.name == "VM-" + info.pv && !r.value.readOnly
    ensures r.Ok? && !isVirtual ==> r.value == CreatePV(info, chan).value
  {
    var entry := if isVirtual then info.(pv := "VM-" + info.pv, readOnly := Some(false)) else info;
    CreatePV(entry, chan)
  }

  /** `PVMap.__init__`: each field of the point map, in order, is validated
      into a point on the channel the control system offers for it (the
      first field that fails validation fails the map), and the
      statistical points are listed apart. Yields the handles, the
      statistical handles and the points. */
  function BuildPointMap(fields: ODict<PVInfo>, isVirtual: bool, chans: string -> Channel)
    : (r: Result<(seq<string>, seq<string>, map<string, Point>)>)
    ensures r.Ok? ==> r.value.0 == Keys(fields)
    decreases |fields|
  {
    if fields == [] then Ok(([], [], map[]))
    else
      var (h, info) := fields[0];
      match ValidatePV(info, isVirtual, chans(h))
      case Err(e) => Err(e)
      case Ok(p) =>
        match BuildPointMap(fields[1..], isVirtual, chans)
        case Err(e) => Err(e)
        case Ok((hs, ss, pts)) =>
          Ok(([h] + hs, (if p.pvType == Statistical then [h] else []) + ss, pts[h := p]))
  }

  /** Building the point map fails exactly when one of its fields fails
      validation. */
  lemma {:induction false} BuildPointMapErrors(fields: ODict<PVInfo>, isVirtual: bool, chans: string -> Channel)
    ensures BuildPointMap(fields, isVirtual, chans).Err? <==>
            exists i :: 0 <= i < |fields| && ValidatePV(fields[i].1, isVirtual, chans(fields[i].0)).Err?
    decreases |fields|
  {
    if fields != [] {
      BuildPointMapErrors(fields[1..], isVirtual, chans);
      assert forall i :: 1 <= i < |fields| ==> fields[i] == fields[1..][i - 1];
    }
  }

  /** A built point map has a point under exactly the fields' names, lists
      as statistical exactly the points of statistical kind, and starts
      every window empty. */
  lemma {:induction false} BuildPointMapKeys(fields: ODict<PVInfo>, isVirtual: bool, chans: string -> Channel)
    requires DistinctKeys(fields)
    ensures var r := BuildPointMap(fields, isVirtual, chans);
            && (r.Ok? ==> forall h :: h in r.value.2 <==> h in Keys(fields))
            && (r.Ok? ==> forall h :: h in r.value.1 <==> h in r.value.2 && r.value.2[h].pvType == Statistical)
            && (r.Ok? ==> forall h :: h in r.value.2 ==> r.value.2[h].stats.buffer == [])
    decreases |fields|
  {
    if fields != [] {
      var (h, info) := fields[0];
      assert Keys(fields) == [h] + Keys(fields[1..]);
      DistinctTail(fields);
      BuildPointMapKeys(fields[1..], isVirtual, chans);
      var r := BuildPointMap(fields, isVirtual, chans);
      if r.Ok? {
        var p := ValidatePV(info, isVirtual, chans(h)).value;
        var rest := BuildPointMap(fields[1..], isVirtual, chans).value;
        assert h !in rest.2 && h !in rest.1;
        assert r.value.2 == rest.2[h := p];
        assert r.value.1 == (if p.pvType == Statistical then [h] else []) + rest.1;
      }
    }
  }

  /** A built point map holds, under each field's name, the point its
      validation gives. */
  lemma {:induction false} BuildPointMapPoints(fields: ODict<PVInfo>, isVirtual: bool, chans: string -> Channel)
    requires DistinctKeys(fields)
    ensures var r := BuildPointMap(fields, isVirtual, chans);
            r.Ok? ==> forall i :: 0 <= i < |fields| ==>
                        fields[i].0 in r.value.2 &&
                        Ok(r.value.2[fields[i].0]) == ValidatePV(fields[i].1, isVirtual, chans(fields[i].0))
    decreases |fields|
  {
    if fields != [] {
      var (h, info) := fields[0];
      var r := BuildPointMap(fields, isVirtual, chans);
      if r.Ok? {
        var p := ValidatePV(info, isVirtual, chans(h));
        var rest := BuildPointMap(fields[1..], isVirtual, chans);
        assert r.value.2 == rest.value.2[h := p.value];
        DistinctTail(fields);
        BuildPointMapPoints(fields[1..], isVirtual, chans);
        assert forall i :: 1 <= i < |fields| ==> fields[i].0 in Keys(fields[1..]);
      }
    }
  }

  // ------------------------------------------------------------ ordering

  /** `__lt__`: devices are ordered by the beam-line order of their area
      and then by their position along the line. */
  predicate Less(a: Properties, b: Properties)
    requires a.area in MachineAreas && b.area in MachineAreas
  {
    AreaIndex(a.area) < AreaIndex(b.area) ||
    (AreaIndex(a.area) == AreaIndex(b.area) && a.position < b.position)
  }

  /** `__gt__`. */
  predicate Greater(a: Properties, b: Properties)
    requires a.area in MachineAreas && b.area in MachineAreas
  {
    AreaIndex(a.area) > AreaIndex(b.area) ||
    (AreaIndex(a.area) == AreaIndex(b.area) && a.position > b.position)
  }

  /** `__eq__`: the same name at the same position. */
  predicate Same(a: Properties, b: Properties) {
    a.name == b.name && a.position == b.position
  }

  /** `>` is `<` with the arguments swapped. */
  lemma GreaterMirrorsLess(a: Properties, b: Properties)
    requires a.area in MachineAreas && b.area in MachineAreas
    ensures Greater(a, b) <==> Less(b, a)
  {
  }

  /** `<` is a strict order ... */
  lemma LessStrictOrder(a: Properties, b: Properties, c: Properties)
    requires a.area in MachineAreas && b.area in MachineAreas && c.area in MachineAreas
    ensures !Less(a, a)
    ensures Less(a, b) && Less(b, c) ==> Less(a, c)
  {
  }

  /** ... under which two devices are incomparable exactly when they share
      both area and position. */
  lemma LessTrichotomy(a: Properties, b: Properties)
    requires a.area in MachineAreas && b.area in MachineAreas
    ensures !Less(a, b) && !Less(b, a) <==> a.area == b.area && a.position == b.position
  {
  }

  /** Equality does not agree with the order: it ignores the area, so two
      devices can be equal and yet one sorts before the other. */
  lemma SameIgnoresArea()
    ensures var a := Properties("D", [], "MAGNET", 1.0, MachineArea("LAS"), None);
            var b := a.(area := MachineArea("INJ"));
            Same(a, b) && Less(a, b)
  {
    var a := Properties("D", [], "MAGNET", 1.0, MachineArea("LAS"), None);
    assert MachineAreas[0] == a.area && MachineAreas[1] == MachineArea("INJ");
  }
  // ------------------------------------------------------------ device state

  /** A device's fixed configuration: its properties, the handles of its
      points in map order, the statistical ones among them in map order,
      and the handles its snapshots apply and read. */
  datatype DeviceConfig = DeviceConfig(props: Properties, handles: seq<string>, statistics: seq<string>,
                                       settables: seq<string>, gettables: seq<string>)

  /** The points of a device hold exactly its handles, each non-empty and
      listed once; the statistical points are exactly those of statistical
      kind; every window is within its capacity; the device's area is one
      of the machine's. */
  ghost predicate WellFormed(cfg: DeviceConfig, points: map<string, Point>) {
    && cfg.props.area in MachineAreas
    && "" !in cfg.handles
    && (forall i, j :: 0 <= i < j < |cfg.handles| ==> cfg.handles[i] != cfg.handles[j])
    && (forall h :: h in points <==> h in cfg.handles)
    && (forall h :: h in cfg.statistics ==> h in cfg.handles)
    && (forall h :: h in points ==> (points[h].pvType == Statistical <==> h in cfg.statistics))
    && (forall h :: h in points ==> |points[h].stats.buffer| <= points[h].stats.maxlen)
  }

  /** The argument naming statistical points: `None`, one name or a list. */
  datatype Names = NoNames | One(name: string) | Many(names: seq<string>)

  /** Python's `not names`. */
  predicate Falsy(names: Names) {
    names.NoNames? || names == One("") || names == Many([])
  }

  /** The names a device-level operation works on: nothing (or an empty
      name or list) means every statistical point, and one name is a list
      of one. */
  function Resolve(names: Names, statistics: seq<string>): (r: seq<string>)
    ensures Falsy(names) ==> r == statistics
    ensures names.One? && names.name != "" ==> r == [names.name]
    ensures names.Many? && names.names != [] ==> r == names.names
  {
    match names
    case NoNames => statistics
    case One(n) => if n == "" then statistics else [n]
    case Many(ns) => if ns == [] then statistics else ns
  }

  // ------------------------------------------------------------ buffer operations

  /** The buffer operations of the point map. */
  datatype BufferOp = Clear | SetSize(size: int) | Start | Stop

  /** What an operation does to one statistical point. */
  function OpStep(p: Point, op: BufferOp): (r: Result<Point>)
    ensures r.Err? <==> op.SetSize? && op.size < 0
    ensures r.Ok? ==> r.value.pvType == p.pvType
    ensures r.Ok? && |p.stats.buffer| <= p.stats.maxlen ==> |r.value.stats.buffer| <= r.value.stats.maxlen
  {
    match op
    case Clear => Ok(ClearStats(p))
    case SetSize(n) => Resize(p, n)
    case Start => Ok(BeginBuffering(p))
    case Stop => Ok(EndBuffering(p))
  }

  /** Every operation is idempotent, so a name listed twice is the same as
      a name listed once. */
  lemma OpStepIdempotent(p: Point, op: BufferOp)
    requires OpStep(p, op).Ok?
    ensures OpStep(OpStep(p, op).value, op) == OpStep(p, op)
  {
    match op
    case Start => StartBufferingIdempotent(p);
    case SetSize(n) =>
      var q := Resize(p, n).value;
      assert KeepNewest(q.stats.buffer, n) == q.stats.buffer;
    case _ =>
  }

  /** The operation applied to the names in order; an unknown name stops
      it with `ValueError`, and the names before it have been done. */
  function ApplyToNames(points: map<string, Point>, statistics: seq<string>, names: seq<string>, op: BufferOp)
    : (map<string, Point>, Option<Error>)
    requires forall s :: s in statistics ==> s in points
    decreases |names|
  {
    if names == [] then (points, None)
    else if names[0] !in statistics then (points, Some(ValueError))
    else
      match OpStep(points[names[0]], op)
      case Err(e) => (points, Some(e))
      case Ok(q) => ApplyToNames(points[names[0] := q], statistics, names[1..], op)
  }

  /** One step of the buffer operations. */
  lemma ApplyToNamesStep(points: map<string, Point>, statistics: seq<string>, names: seq<string>, op: BufferOp)
    requires forall s :: s in statistics ==> s in points
    requires names != []
    ensures names[0] !in statistics ==> ApplyToNames(points, statistics, names, op) == (points, Some(ValueError))
    ensures names[0] in statistics && OpStep(points[names[0]], op).Err? ==>
              ApplyToNames(points, statistics, names, op) == (points, Some(OpStep(points[names[0]], op).error))
    ensures names[0] in statistics && OpStep(points[names[0]], op).Ok? ==>
              ApplyToNames(points, statistics, names, op) ==
              ApplyToNames(points[names[0] := OpStep(points[names[0]], op).value], statistics, names[1..], op)
  {
  }

  /** The position of the first name that is not a statistical point. */
  function FirstUnknown(names: seq<string>, statistics: seq<string>): (k: nat)
    ensures k <= |names|
    ensures forall i :: 0 <= i < k ==> names[i] in statistics
    ensures k < |names| ==> names[k] !in statistics
  {
    if names == [] || names[0] !in statistics then 0 else 1 + FirstUnknown(names[1..], statistics)
  }

  lemma FirstUnknownStep(names: seq<string>, statistics: seq<string>)
    requires names != [] && names[0] in statistics
    ensures var k := FirstUnknown(names, statistics);
            && k - 1 == FirstUnknown(names[1..], statistics)
            && forall h :: h in names[..k] <==> h == names[0] || h in names[1..][..k - 1]
  {
    var k := FirstUnknown(names, statistics);
    assert names[..k] == [names[0]] + names[1..][..k - 1];
  }

  /** The buffer operations (`clear_buffer`, `set_buffer_size`,
      `start_buffering`, `stop_buffering`): the points named before the
      first unknown name have had the operation done, every other point is
      as it was, and the operation fails exactly when there is an unknown
      name. */
  lemma {:induction false} ApplyToNamesSpec(points: map<string, Point>, statistics: seq<string>,
                                            names: seq<string>, op: BufferOp)
    requires forall s :: s in statistics ==> s in points
    requires !(op.SetSize? && op.size < 0)
    ensures var r := ApplyToNames(points, statistics, names, op);
            var k := FirstUnknown(names, statistics);
            && r.1 == (if k < |names| then Some(ValueError) else None)
            && r.0.Keys == points.Keys
            && forall h :: h in points ==>
                 r.0[h] == if h in names[..k] then OpStep(points[h], op).value else points[h]
    decreases |names|
  {
    if names != [] && names[0] in statistics {
      var n := names[0];
      var q := OpStep(points[n], op).value;
      var pts := points[n := q];
      ApplyToNamesSpec(pts, statistics, names[1..], op);
      var k := FirstUnknown(names, statistics);
      var r := ApplyToNames(pts, statistics, names[1..], op);
      assert ApplyToNames(points, statistics, names, op) == r;
      FirstUnknownStep(names, statistics);
      OpStepIdempotent(points[n], op);
      forall h | h in points
        ensures r.0[h] == if h in names[..k] then OpStep(points[h], op).value else points[h]
      {
        if h != n {
          assert pts[h] == points[h];
        }
      }
    }
  }

  /** A negative size is refused at the first statistical point: nothing
      changes, and only an empty list of names escapes the error. */
  lemma ApplyToNamesNegativeSize(points: map<string, Point>, statistics: seq<string>, names: seq<string>, size: int)
    requires forall s :: s in statistics ==> s in points
    requires size < 0
    ensures ApplyToNames(points, statistics, names, SetSize(size)) ==
            (points, if names == [] then None else Some(ValueError))
  {
  }
  /** The point map's `clear_buffer`, `set_buffer_size`,
      `start_buffering` and `stop_buffering`: the operation on each name in
      turn, stopping with `ValueError` at the first name that is not a
      statistical point. */
  method PointMapBufferOp(points: map<string, Point>, statistics: seq<string>, names: seq<string>, op: BufferOp)
    returns (pts: map<string, Point>, e: Option<Error>)
    requires forall s :: s in statistics ==> s in points
    ensures (pts, e) == ApplyToNames(points, statistics, names, op)
  {
    pts := points;
    e := None;
    var i := 0;
    while i < |names|
      invariant 0 <= i <= |names|
      invariant forall s :: s in statistics ==> s in pts
      invariant ApplyToNames(points, statistics, names, op) == ApplyToNames(pts, statistics, names[i..], op)
    {
      var n := names[i];
      SuffixCons(names, i);
      if n !in statistics {
        e := Some(ValueError);
        break;
      }
      var s := OpStep(pts[n], op);
      if s.Err? {
        e := Some(s.error);
        break;
      }
      pts := pts[n := s.value];
      i := i + 1;
    }
  }

  /** The answer to a question about statistical points: one answer for
      one name, or one per name. */
  datatype Answer = Single(b: bool) | PerName(d: ODict<bool>)

  /** Whether the window of the point under a handle is full (false for a
      handle with no point). */
  function FullOf(points: map<string, Point>): string -> bool {
    n => n in points && BufferFull(points[n])
  }

  /** The point map's `is_buffer_full`: one name gives its point's answer;
      no names (or an empty list) ask about every statistical point; a
      list gives an answer per distinct name, in order of first
      appearance. A name that is not a statistical point raises
      `ValueError`. */
  method PointMapIsBufferFull(points: map<string, Point>, statistics: seq<string>, names: Names)
    returns (r: Result<Answer>)
    requires forall s :: s in statistics ==> s in points
    ensures names.One? ==>
              r == if names.name in statistics then Ok(Single(BufferFull(points[names.name]))) else Err(ValueError)
    ensures !names.One? ==>
              var ns := Resolve(names, statistics);
              && (r.Err? <==> exists n :: n in ns && n !in statistics)
              && (r.Err? ==> r.error == ValueError)
              && (r.Ok? ==> r.value == PerName(Tabulate(ns, FullOf(points))))
  {
    if names.One? {
      if names.name !in statistics {
        return Err(ValueError);
      }
      return Ok(Single(BufferFull(points[names.name])));
    }
    var ns := Resolve(names, statistics);
    var full := FullPerName(points, statistics, ns);
    if full.Err? {
      return Err(full.error);
    }
    return Ok(PerName(full.value));
  }

  /** The loop of `is_buffer_full` over several names: whether each
      distinct name's buffer is full, in order of first appearance, or
      `ValueError` at the first name that is not a statistical point. */
  method FullPerName(points: map<string, Point>, statistics: seq<string>, ns: seq<string>)
    returns (r: Result<ODict<bool>>)
    requires forall s :: s in statistics ==> s in points
    ensures r.Err? <==> exists n :: n in ns && n !in statistics
    ensures r.Err? ==> r.error == ValueError
    ensures r.Ok? ==> r.value == Tabulate(ns, FullOf(points))
  {
    var full: ODict<bool> := [];
    var i := 0;
    while i < |ns|
      invariant 0 <= i <= |ns|
      invariant DistinctKeys(full)
      invariant forall j :: 0 <= j < |full| ==> full[j].1 == FullOf(points)(full[j].0)
      invariant TabulateInto(full, ns[i..], FullOf(points)) == TabulateInto([], ns, FullOf(points))
      invariant forall j :: 0 <= j < i ==> ns[j] in statistics
    {
      var n := ns[i];
      SuffixCons(ns, i);
      if n !in statistics {
        assert n in ns;
        return Err(ValueError);
      }
      TabulateStep(full, ns[i..], FullOf(points));
      full := Update(full, n, BufferFull(points[n]));
      i := i + 1;
    }
    forall m | m in ns
      ensures m in statistics
    {
      var j :| 0 <= j < |ns| && ns[j] == m;
    }
    assert ns[i..] == [];
    r := Ok(full);
  }

  // ------------------------------------------------------------ snapshot entries

  /** One point's record in a snapshot entry: "value", and for a buffering
      statistical point also "buffer" and "timestamps". */
  type PointRecord = map<string, Value>

  /** A device's snapshot entry: a record per handle, in order. */
  type DeviceEntry = ODict<PointRecord>

  /** The buffer columns `create_snapshot` adds to a record when
      `is_buffering(handle)` holds. Asking about the empty name raises
      `ValueError`; the window of a statistical point is split into a value
      column and a timestamp column, which fails with `IndexError` on an
      empty window. */
  function WithBuffer(statistics: seq<string>, window: seq<Sample>, h: string, rec: PointRecord): (r: Result<PointRecord>)
    ensures r.Ok? ==> r.value.Keys >= rec.Keys && ("value" in rec ==> r.value["value"] == rec["value"])
  {
    if h == "" then Err(ValueError)
    else if h !in statistics then Ok(rec)
    else if window == [] then Err(IndexError)
    else Ok(rec["buffer" := FloatList(Values(window))]["timestamps" := FloatList(Stamps(window))])
  }

  /** A handle a snapshot reads: a gettable or a settable one. */
  predicate IsCaptured(cfg: DeviceConfig, h: string) {
    h in cfg.gettables || h in cfg.settables
  }

  /** The handles a snapshot reads, in map order. */
  function Captured(cfg: DeviceConfig, hs: seq<string>): seq<string> {
    if hs == [] then []
    else (if IsCaptured(cfg, hs[0]) then [hs[0]] else []) + Captured(cfg, hs[1..])
  }

  /** `Captured` keeps exactly the captured handles. */
  lemma {:induction false} CapturedMembers(cfg: DeviceConfig, hs: seq<string>)
    ensures forall h :: h in Captured(cfg, hs) <==> h in hs && IsCaptured(cfg, h)
  {
    if hs != [] {
      CapturedMembers(cfg, hs[1..]);
      assert hs == [hs[0]] + hs[1..];
    }
  }

  /** Reading a point for a snapshot fails: a state point whose value has
      no state has no `.name`, and a statistical point with an empty window
      has no columns. */
  predicate CaptureFails(cfg: DeviceConfig, h: string, p: Point) {
    (p.pvType == State && GetStep(p).1.Null?) || (h in cfg.statistics && p.stats.buffer == [])
  }

  /** What a snapshot records for the point `p` under handle `h`: the value
      a read returns, and for a statistical point its window as a value
      column and a timestamp column of the same length, in window order. */
  predicate RecordOf(cfg: DeviceConfig, h: string, p: Point, rec: PointRecord) {
    && "value" in rec && rec["value"] == GetStep(p).1
    && (h in cfg.statistics ==>
          && rec.Keys == {"value", "buffer", "timestamps"}
          && rec["buffer"] == FloatList(Values(p.stats.buffer))
          && rec["timestamps"] == FloatList(Stamps(p.stats.buffer)))
    && (h !in cfg.statistics ==> rec.Keys == {"value"})
  }

  /** Recording one handle: the point after its read, and its record or
      the exception raised. The read changes neither the channel nor the
      window; it fails exactly as `CaptureFails` says, and otherwise gives
      `RecordOf` the point. */
  function ReadRecord(cfg: DeviceConfig, h: string, p: Point): (r: (Point, Result<PointRecord>))
    ensures r.0.chan == p.chan && r.0.stats == p.stats && r.0.pvType == p.pvType
    ensures h != "" ==> (r.1.Err? <==> CaptureFails(cfg, h, p))
    ensures r.1.Ok? ==> RecordOf(cfg, h, p, r.1.value)
  {
    var (q, v) := GetStep(p);
    if q.pvType == State && v.Null? then (q, Err(AttributeError))
    else
      var w := WithBuffer(cfg.statistics, q.stats.buffer, h, map["value" := v]);
      assert w.Ok? && h in cfg.statistics ==> w.value.Keys == {"value", "buffer", "timestamps"};
      (q, w)
  }

  /** The first loop of `create_snapshot`: each gettable or settable
      handle, in map order, is read and recorded. */
  function CapturePoints(cfg: DeviceConfig, points: map<string, Point>, todo: seq<string>, entry: DeviceEntry)
    : (map<string, Point>, Result<DeviceEntry>)
    requires forall h :: h in todo ==> h in points
    decreases |todo|
  {
    if todo == [] then (points, Ok(entry))
    else
      var h := todo[0];
      if !IsCaptured(cfg, h) then CapturePoints(cfg, points, todo[1..], entry)
      else
        var (q, w) := ReadRecord(cfg, h, points[h]);
        match w
        case Err(e) => (points[h := q], Err(e))
        case Ok(rec) => CapturePoints(cfg, points[h := q], todo[1..], Update(entry, h, rec))
  }

  /** The point loop of a snapshot reads and never writes: no value
      reaches the control system and no window changes. */
  lemma {:induction false} CapturePointsReadOnly(cfg: DeviceConfig, points: map<string, Point>, todo: seq<string>,
                                                 entry: DeviceEntry)
    requires forall h :: h in todo ==> h in points
    ensures var r := CapturePoints(cfg, points, todo, entry);
            && r.0.Keys == points.Keys
            && (forall h :: h in points ==>
                  r.0[h].chan == points[h].chan && r.0[h].stats == points[h].stats && r.0[h].pvType == points[h].pvType)
    decreases |todo|
  {
    if todo != [] {
      var h := todo[0];
      if IsCaptured(cfg, h) {
        var (q, w) := ReadRecord(cfg, h, points[h]);
        if w.Ok? {
          CapturePointsReadOnly(cfg, points[h := q], todo[1..], Update(entry, h, w.value));
        }
      } else {
        CapturePointsReadOnly(cfg, points, todo[1..], entry);
      }
    }
  }

  /** The point loop fails exactly when one of the handles it records
      cannot be recorded. */
  lemma {:induction false} CapturePointsFails(cfg: DeviceConfig, points: map<string, Point>, todo: seq<string>,
                                              entry: DeviceEntry)
    requires forall h :: h in todo ==> h in points
    requires "" !in todo
    requires forall i, j :: 0 <= i < j < |todo| ==> todo[i] != todo[j]
    ensures CapturePoints(cfg, points, todo, entry).1.Err? <==>
            exists h :: h in todo && IsCaptured(cfg, h) && CaptureFails(cfg, h, points[h])
    decreases |todo|
  {
    if todo != [] {
      var h := todo[0];
      assert forall h' :: h' in todo <==> h' == h || h' in todo[1..];
      if !IsCaptured(cfg, h) {
        CapturePointsFails(cfg, points, todo[1..], entry);
      } else {
        var (q, w) := ReadRecord(cfg, h, points[h]);
        var pts := points[h := q];
        if w.Ok? {
          CapturePointsFails(cfg, pts, todo[1..], Update(entry, h, w.value));
          assert forall h' :: h' in todo[1..] ==> pts[h'] == points[h'];
        }
      }
    }
  }

  /** The point loop records exactly the gettable and settable handles,
      in map order. */
  lemma {:induction false} CapturePointsKeys(cfg: DeviceConfig, points: map<string, Point>, todo: seq<string>,
                                             entry: DeviceEntry)
    requires forall h :: h in todo ==> h in points
    requires forall i, j :: 0 <= i < j < |todo| ==> todo[i] != todo[j]
    requires forall h :: h in todo ==> h !in Keys(entry)
    ensures var r := CapturePoints(cfg, points, todo, entry).1;
            r.Ok? ==> Keys(r.value) == Keys(entry) + Captured(cfg, todo)
    decreases |todo|
  {
    if todo != [] {
      var h := todo[0];
      if !IsCaptured(cfg, h) {
        CapturePointsKeys(cfg, points, todo[1..], entry);
      } else {
        var (q, w) := ReadRecord(cfg, h, points[h]);
        if w.Ok? {
          UpdateKeys(entry, h, w.value);
          assert forall h' :: h' in todo[1..] ==> h' != h;
          CapturePointsKeys(cfg, points[h := q], todo[1..], Update(entry, h, w.value));
        }
      }
    }
  }

  /** Each handle the point loop records holds `RecordOf` its point, and
      the other keys of the entry are left alone. */
  lemma {:induction false} CapturePointsRecords(cfg: DeviceConfig, points: map<string, Point>, todo: seq<string>,
                                                entry: DeviceEntry)
    requires forall h :: h in todo ==> h in points
    requires forall i, j :: 0 <= i < j < |todo| ==> todo[i] != todo[j]
    ensures var r := CapturePoints(cfg, points, todo, entry).1;
            && (r.Ok? ==> forall k :: k !in todo ==> Lookup(r.value, k) == Lookup(entry, k))
            && (r.Ok? ==> forall h :: h in todo && IsCaptured(cfg, h) ==>
                  Lookup(r.value, h).Some? && RecordOf(cfg, h, points[h], Lookup(r.value, h).value))
    decreases |todo|
  {
    if todo != [] {
      var h := todo[0];
      assert forall h' :: h' in todo <==> h' == h || h' in todo[1..];
      if !IsCaptured(cfg, h) {
        CapturePointsRecords(cfg, points, todo[1..], entry);
      } else {
        var (q, w) := ReadRecord(cfg, h, points[h]);
        var pts := points[h := q];
        if w.Ok? {
          var next := Update(entry, h, w.value);
          forall k | k != h
            ensures Lookup(next, k) == Lookup(entry, k)
          {
            UpdateOther(entry, h, w.value, k);
          }
          CapturePointsRecords(cfg, pts, todo[1..], next);
          assert forall h' :: h' in todo[1..] ==> pts[h'] == points[h'] && h' != h;
        }
      }
    }
  }
  /** The window of the point under `k`, if there is one. */
  function WindowOf(points: map<string, Point>, k: string): seq<Sample> {
    if k in points then points[k].stats.buffer else []
  }

  /** The second loop of `create_snapshot`: each piece of additional
      information becomes the record `{"value": v}` under its key
      (replacing a point's record under the same handle), with the buffer
      columns when the key is a statistical point; a key equal to the
      device's own name is refused with a warning. */
  function CaptureExtras(cfg: DeviceConfig, points: map<string, Point>, extras: ODict<Value>,
                         entry: DeviceEntry, ws: seq<Warning>): (Result<DeviceEntry>, seq<Warning>)
    decreases |extras|
  {
    if extras == [] then (Ok(entry), ws)
    else
      var (k, v) := extras[0];
      if k == cfg.props.name then CaptureExtras(cfg, points, extras[1..], entry, ws + [InvalidSnapshotSetting(k)])
      else
        match WithBuffer(cfg.statistics, WindowOf(points, k), k, map["value" := v])
        case Err(e) => (Err(e), ws)
        case Ok(rec) => CaptureExtras(cfg, points, extras[1..], Update(entry, k, rec), ws)
  }

  /** The additional information leaves alone every key of the entry that
      it does not name and the device's own name, and the device's own
      name draws one warning. */
  lemma {:induction false} CaptureExtrasFrame(cfg: DeviceConfig, points: map<string, Point>, extras: ODict<Value>,
                                              entry: DeviceEntry, ws: seq<Warning>)
    requires DistinctKeys(extras)
    ensures var (r, ws') := CaptureExtras(cfg, points, extras, entry, ws);
            && (r.Ok? ==> forall k :: k !in Keys(extras) || k == cfg.props.name ==> Lookup(r.value, k) == Lookup(entry, k))
            && (r.Ok? ==> ws' == ws + if cfg.props.name in Keys(extras) then [InvalidSnapshotSetting(cfg.props.name)] else [])
    decreases |extras|
  {
    if extras != [] {
      var (k, v) := extras[0];
      assert Keys(extras) == [k] + Keys(extras[1..]);
      if k == cfg.props.name {
        CaptureExtrasFrame(cfg, points, extras[1..], entry, ws + [InvalidSnapshotSetting(k)]);
      } else {
        var w := WithBuffer(cfg.statistics, WindowOf(points, k), k, map["value" := v]);
        if w.Ok? {
          var next := Update(entry, k, w.value);
          forall k' | k' != k
            ensures Lookup(next, k') == Lookup(entry, k')
          {
            UpdateOther(entry, k, w.value, k');
          }
          CaptureExtrasFrame(cfg, points, extras[1..], next, ws);
        }
      }
    }
  }

  /** Additional information ends up in the entry under every key but the
      device's own name, holding its value. */
  lemma {:induction false} CaptureExtrasSpec(cfg: DeviceConfig, points: map<string, Point>, extras: ODict<Value>,
                                             entry: DeviceEntry, ws: seq<Warning>)
    requires DistinctKeys(extras)
    ensures var r := CaptureExtras(cfg, points, extras, entry, ws).0;
            r.Ok? ==> forall i :: 0 <= i < |extras| && extras[i].0 != cfg.props.name ==>
                        Lookup(r.value, extras[i].0).Some? && "value" in Lookup(r.value, extras[i].0).value &&
                        Lookup(r.value, extras[i].0).value["value"] == extras[i].1
    decreases |extras|
  {
    if extras != [] {
      var (k, v) := extras[0];
      var r := CaptureExtras(cfg, points, extras, entry, ws).0;
      DistinctTail(extras);
      if k == cfg.props.name {
        CaptureExtrasSpec(cfg, points, extras[1..], entry, ws + [InvalidSnapshotSetting(k)]);
        assert r == CaptureExtras(cfg, points, extras[1..], entry, ws + [InvalidSnapshotSetting(k)]).0;
      } else {
        var w := WithBuffer(cfg.statistics, WindowOf(points, k), k, map["value" := v]);
        if w.Ok? {
          var next := Update(entry, k, w.value);
          CaptureExtrasSpec(cfg, points, extras[1..], next, ws);
          CaptureExtrasFrame(cfg, points, extras[1..], next, ws);
          assert r == CaptureExtras(cfg, points, extras[1..], next, ws).0;
          if r.Ok? {
            assert Lookup(r.value, k) == Some(w.value);
            assert "value" in w.value && w.value["value"] == v;
          }
        }
      }
    }
  }

  /** Which keys the additional information adds to the entry. */
  lemma {:induction false} CaptureExtrasKeys(cfg: DeviceConfig, points: map<string, Point>, extras: ODict<Value>,
                                             entry: DeviceEntry, ws: seq<Warning>)
    ensures var r := CaptureExtras(cfg, points, extras, entry, ws).0;
            r.Ok? ==> forall k :: k in Keys(r.value) <==>
                        k in Keys(entry) || (k in Keys(extras) && k != cfg.props.name)
    decreases |extras|
  {
    if extras != [] {
      var (k, v) := extras[0];
      assert Keys(extras) == [k] + Keys(extras[1..]);
      if k == cfg.props.name {
        CaptureExtrasKeys(cfg, points, extras[1..], entry, ws + [InvalidSnapshotSetting(k)]);
      } else {
        var w := WithBuffer(cfg.statistics, WindowOf(points, k), k, map["value" := v]);
        if w.Ok? {
          UpdateKeys(entry, k, w.value);
          CaptureExtrasKeys(cfg, points, extras[1..], Update(entry, k, w.value), ws);
        }
      }
    }
  }
  /** Every handle of the device has a point. */
  ghost predicate HasPoints(cfg: DeviceConfig, points: map<string, Point>) {
    forall h :: h in cfg.handles ==> h in points
  }

  /** `create_snapshot`: the point loop and then the additional
      information; the points after the reads, the entry (or the exception
      raised) and the warnings emitted. */
  function Capture(cfg: DeviceConfig, points: map<string, Point>, additional: ODict<Value>)
    : (map<string, Point>, Result<DeviceEntry>, seq<Warning>)
    requires HasPoints(cfg, points)
  {
    var (pts, r) := CapturePoints(cfg, points, cfg.handles, []);
    if r.Err? then (pts, r, [])
    else
      var (r', ws) := CaptureExtras(cfg, pts, additional, r.value, []);
      (pts, r', ws)
  }

  /** The point loop of `create_snapshot`, from handle `todo[0]` on, into
      `entry`. */
  method ReadPoints(cfg: DeviceConfig, points: map<string, Point>, todo: seq<string>, entry: DeviceEntry)
    returns (pts: map<string, Point>, r: Result<DeviceEntry>)
    requires forall h :: h in todo ==> h in points
    ensures (pts, r) == CapturePoints(cfg, points, todo, entry)
  {
    pts := points;
    var acc := entry;
    var i := 0;
    while i < |todo|
      invariant 0 <= i <= |todo|
      invariant forall h :: h in todo ==> h in pts
      invariant CapturePoints(cfg, points, todo, entry) == CapturePoints(cfg, pts, todo[i..], acc)
    {
      var h := todo[i];
      SuffixCons(todo, i);
      if IsCaptured(cfg, h) {
        var read := ReadRecord(cfg, h, pts[h]);
        pts := pts[h := read.0];
        if read.1.Err? {
          return pts, Err(read.1.error);
        }
        acc := Update(acc, h, read.1.value);
      }
      i := i + 1;
    }
    r := Ok(acc);
  }

  /** The additional-information loop of `create_snapshot`. */
  method AddExtras(cfg: DeviceConfig, points: map<string, Point>, extras: ODict<Value>,
                   entry: DeviceEntry, ws0: seq<Warning>)
    returns (r: Result<DeviceEntry>, ws: seq<Warning>)
    ensures (r, ws) == CaptureExtras(cfg, points, extras, entry, ws0)
  {
    ws := ws0;
    var acc := entry;
    var j := 0;
    while j < |extras|
      invariant 0 <= j <= |extras|
      invariant CaptureExtras(cfg, points, extras, entry, ws0) == CaptureExtras(cfg, points, extras[j..], acc, ws)
    {
      SuffixCons(extras, j);
      var (k, v) := extras[j];
      if k == cfg.props.name {
        ws := ws + [InvalidSnapshotSetting(k)];
      } else {
        var w := WithBuffer(cfg.statistics, WindowOf(points, k), k, map["value" := v]);
        if w.Err? {
          return Err(w.error), ws;
        }
        acc := Update(acc, k, w.value);
      }
      j := j + 1;
    }
    r := Ok(acc);
  }

  /** A device's snapshot reads its points and writes none of them: the
      channels and the windows are left as they were. */
  lemma CaptureReadOnly(cfg: DeviceConfig, points: map<string, Point>, additional: ODict<Value>)
    requires WellFormed(cfg, points)
    ensures var pts := Capture(cfg, points, additional).0;
            && pts.Keys == points.Keys
            && (forall h :: h in points ==> pts[h].chan == points[h].chan && pts[h].stats == points[h].stats)
  {
    CapturePointsReadOnly(cfg, points, cfg.handles, []);
  }

  /** A device's snapshot holds exactly the gettable and settable handles
      and the additional keys other than the device's name; the device's
      own name among the additional keys draws one warning. */
  lemma CaptureKeys(cfg: DeviceConfig, points: map<string, Point>, additional: ODict<Value>)
    requires WellFormed(cfg, points) && DistinctKeys(additional)
    ensures var (_, r, ws) := Capture(cfg, points, additional);
            && (r.Ok? ==> forall k :: k in Keys(r.value) <==>
                  (k in cfg.handles && IsCaptured(cfg, k)) || (k in Keys(additional) && k != cfg.props.name))
            && (r.Ok? ==> ws == if cfg.props.name in Keys(additional) then [InvalidSnapshotSetting(cfg.props.name)] else [])
  {
    var (pts, r0) := CapturePoints(cfg, points, cfg.handles, []);
    if r0.Ok? {
      CapturePointsKeys(cfg, points, cfg.handles, []);
      CapturedMembers(cfg, cfg.handles);
      assert forall k :: k in Keys(r0.value) <==> k in cfg.handles && IsCaptured(cfg, k);
      CaptureExtrasFrame(cfg, pts, additional, r0.value, []);
      CaptureExtrasKeys(cfg, pts, additional, r0.value, []);
    }
  }

  /** Each recorded point holds the value read (and its window) unless
      additional information under the same handle replaced it. */
  lemma CaptureRecords(cfg: DeviceConfig, points: map<string, Point>, additional: ODict<Value>)
    requires WellFormed(cfg, points) && DistinctKeys(additional)
    ensures var r := Capture(cfg, points, additional).1;
            && (r.Ok? ==> forall h :: h in cfg.handles && IsCaptured(cfg, h) && (h !in Keys(additional) || h == cfg.props.name) ==>
                  Lookup(r.value, h).Some? && RecordOf(cfg, h, points[h], Lookup(r.value, h).value))
  {
    var (pts, r0) := CapturePoints(cfg, points, cfg.handles, []);
    if r0.Ok? {
      var r := CaptureExtras(cfg, pts, additional, r0.value, []).0;
      assert Capture(cfg, points, additional).1 == r;
      CapturePointsRecords(cfg, points, cfg.handles, []);
      CaptureExtrasFrame(cfg, pts, additional, r0.value, []);
      if r.Ok? {
        forall h | h in cfg.handles && IsCaptured(cfg, h) && (h !in Keys(additional) || h == cfg.props.name)
          ensures Lookup(r.value, h).Some? && RecordOf(cfg, h, points[h], Lookup(r.value, h).value)
        {
          assert Lookup(r.value, h) == Lookup(r0.value, h);
        }
      }
    }
  }

  /** Each additional key other than the device's name holds its value. */
  lemma CaptureExtraValues(cfg: DeviceConfig, points: map<string, Point>, additional: ODict<Value>)
    requires WellFormed(cfg, points) && DistinctKeys(additional)
    ensures var r := Capture(cfg, points, additional).1;
            r.Ok? ==> forall i :: 0 <= i < |additional| && additional[i].0 != cfg.props.name ==>
                        Lookup(r.value, additional[i].0).Some? && "value" in Lookup(r.value, additional[i].0).value &&
                        Lookup(r.value, additional[i].0).value["value"] == additional[i].1
  {
    var (pts, r0) := CapturePoints(cfg, points, cfg.handles, []);
    if r0.Ok? {
      CaptureExtrasSpec(cfg, pts, additional, r0.value, []);
    }
  }

  /** A piece of additional information cannot be recorded: an empty key,
      or a statistical handle whose window is empty. */
  predicate ExtraFails(cfg: DeviceConfig, points: map<string, Point>, k: string) {
    k == "" || (k in cfg.statistics && WindowOf(points, k) == [])
  }

  /** The additional-information loop fails exactly when one of its keys
      other than the device's name cannot be recorded. */
  lemma {:induction false} CaptureExtrasFails(cfg: DeviceConfig, points: map<string, Point>, extras: ODict<Value>,
                                              entry: DeviceEntry, ws: seq<Warning>)
    ensures CaptureExtras(cfg, points, extras, entry, ws).0.Err? <==>
            exists i :: 0 <= i < |extras| && extras[i].0 != cfg.props.name && ExtraFails(cfg, points, extras[i].0)
    decreases |extras|
  {
    if extras != [] {
      var (k, v) := extras[0];
      assert forall i :: 1 <= i < |extras| ==> extras[i] == extras[1..][i - 1];
      if k == cfg.props.name {
        CaptureExtrasFails(cfg, points, extras[1..], entry, ws + [InvalidSnapshotSetting(k)]);
      } else {
        var w := WithBuffer(cfg.statistics, WindowOf(points, k), k, map["value" := v]);
        if w.Ok? {
          CaptureExtrasFails(cfg, points, extras[1..], Update(entry, k, w.value), ws);
        }
      }
    }
  }

  /** A device's snapshot raises exactly when a handle it reads cannot be
      recorded or a piece of additional information cannot be. */
  lemma CaptureErrors(cfg: DeviceConfig, points: map<string, Point>, additional: ODict<Value>)
    requires WellFormed(cfg, points)
    ensures Capture(cfg, points, additional).1.Err? <==>
            || (exists h :: h in cfg.handles && IsCaptured(cfg, h) && CaptureFails(cfg, h, points[h]))
            || (exists i :: 0 <= i < |additional| && additional[i].0 != cfg.props.name &&
                  ExtraFails(cfg, points, additional[i].0))
  {
    var (pts, r0) := CapturePoints(cfg, points, cfg.handles, []);
    CapturePointsFails(cfg, points, cfg.handles, []);
    if r0.Ok? {
      CapturePointsReadOnly(cfg, points, cfg.handles, []);
      CaptureExtrasFails(cfg, pts, additional, r0.value, []);
      forall k ensures ExtraFails(cfg, pts, k) == ExtraFails(cfg, points, k) {
        assert WindowOf(pts, k) == WindowOf(points, k);
      }
    }
  }

  /** `apply_snapshot`: each record of the entry, in order, whose handle is
      settable is written to its point; an unknown point or a record
      without "value" raises `KeyError`, and a write that raises stops the
      loop. */
  function ApplyEntry(cfg: DeviceConfig, points: map<string, Point>, entry: DeviceEntry)
    : (map<string, Point>, Option<Error>)
    decreases |entry|
  {
    if entry == [] then (points, None)
    else
      var (h, setting) := entry[0];
      if h !in cfg.settables then ApplyEntry(cfg, points, entry[1..])
      else if h !in points || "value" !in setting then (points, Some(KeyError))
      else
        var (q, e) := PutStep(points[h], setting["value"]);
        if e.Some? then (points[h := q], e) else ApplyEntry(cfg, points[h := q], entry[1..])
  }

  /** A write the entry asks of a settable handle cannot be made. */
  predicate ApplyFails(points: map<string, Point>, h: string, setting: PointRecord) {
    h !in points || "value" !in setting ||
    (points[h].pvType == Waveform && !setting["value"].List?)
  }

  /** Applying touches only points that are settable and named by the
      entry, and never changes a point's kind or window. */
  lemma {:induction false} ApplyEntryFrame(cfg: DeviceConfig, points: map<string, Point>, entry: DeviceEntry)
    ensures var pts := ApplyEntry(cfg, points, entry).0;
            && pts.Keys == points.Keys
            && (forall h :: h in points ==> pts[h].pvType == points[h].pvType && pts[h].stats == points[h].stats)
            && (forall h :: h in points && (h !in cfg.settables || h !in Keys(entry)) ==> pts[h] == points[h])
    decreases |entry|
  {
    if entry != [] {
      var (h, setting) := entry[0];
      assert Keys(entry) == [h] + Keys(entry[1..]);
      if h !in cfg.settables {
        ApplyEntryFrame(cfg, points, entry[1..]);
      } else if h in points && "value" in setting {
        var (q, e) := PutStep(points[h], setting["value"]);
        if e.None? {
          ApplyEntryFrame(cfg, points[h := q], entry[1..]);
        }
      }
    }
  }

  /** Applying fails exactly when one of the writes it attempts cannot be
      made, and then with `KeyError` or `ValueError`. */
  lemma {:induction false} ApplyEntryFails(cfg: DeviceConfig, points: map<string, Point>, entry: DeviceEntry)
    ensures var e := ApplyEntry(cfg, points, entry).1;
            && (e.None? <==> forall i :: 0 <= i < |entry| && entry[i].0 in cfg.settables ==>
                               !ApplyFails(points, entry[i].0, entry[i].1))
            && (e.Some? ==> e.value == KeyError || e.value == ValueError)
    decreases |entry|
  {
    if entry != [] {
      var (h, setting) := entry[0];
      if h !in cfg.settables {
        ApplyEntryFails(cfg, points, entry[1..]);
        assert forall i :: 1 <= i < |entry| ==> entry[i] == entry[1..][i - 1];
      } else if h in points && "value" in setting {
        var (q, e) := PutStep(points[h], setting["value"]);
        if e.None? {
          var pts := points[h := q];
          ApplyEntryFails(cfg, pts, entry[1..]);
          assert forall k, r :: ApplyFails(pts, k, r) == ApplyFails(points, k, r);
          assert forall i :: 1 <= i < |entry| ==> entry[i] == entry[1..][i - 1];
        }
      }
    }
  }

  /** When applying succeeds, every settable handle of the entry has had
      exactly the write of its record's "value". */
  lemma {:induction false} ApplyEntryWrites(cfg: DeviceConfig, points: map<string, Point>, entry: DeviceEntry)
    requires DistinctKeys(entry)
    ensures var (pts, e) := ApplyEntry(cfg, points, entry);
            e.None? ==> forall i :: 0 <= i < |entry| && entry[i].0 in cfg.settables ==>
              entry[i].0 in points && "value" in entry[i].1 && entry[i].0 in pts &&
              pts[entry[i].0] == PutStep(points[entry[i].0], entry[i].1["value"]).0
    decreases |entry|
  {
    if entry != [] {
      var (h, setting) := entry[0];
      DistinctTail(entry);
      if h !in cfg.settables {
        ApplyEntryWrites(cfg, points, entry[1..]);
        assert forall i :: 1 <= i < |entry| ==> entry[i] == entry[1..][i - 1];
      } else if h in points && "value" in setting {
        var (q, e) := PutStep(points[h], setting["value"]);
        if e.None? {
          var pts := points[h := q];
          ApplyEntryWrites(cfg, pts, entry[1..]);
          ApplyEntryFrame(cfg, pts, entry[1..]);
          assert Keys(entry) == [h] + Keys(entry[1..]);
          assert forall i :: 1 <= i < |entry| ==> entry[i] == entry[1..][i - 1] && entry[i].0 in Keys(entry[1..]);
        }
      }
    }
  }

  // ------------------------------------------------------------ well-formedness kept

  /** A point map built from distinct, non-empty field names, for a device
      of one of the machine's areas, is well formed. */
  lemma BuildPointMapWellFormed(props: Properties, fields: ODict<PVInfo>, isVirtual: bool, chans: string -> Channel,
                                settables: seq<string>, gettables: seq<string>)
    requires props.area in MachineAreas && DistinctKeys(fields) && "" !in Keys(fields)
    ensures var r := BuildPointMap(fields, isVirtual, chans);
            r.Ok? ==> WellFormed(DeviceConfig(props, r.value.0, r.value.1, settables, gettables), r.value.2)
  {
    BuildPointMapKeys(fields, isVirtual, chans);
  }

  /** The buffer operations keep a device well formed. */
  lemma ApplyToNamesWellFormed(cfg: DeviceConfig, points: map<string, Point>, names: seq<string>, op: BufferOp)
    requires WellFormed(cfg, points)
    ensures WellFormed(cfg, ApplyToNames(points, cfg.statistics, names, op).0)
  {
    if op.SetSize? && op.size < 0 {
      ApplyToNamesNegativeSize(points, cfg.statistics, names, op.size);
    } else {
      ApplyToNamesSpec(points, cfg.statistics, names, op);
    }
  }

  /** Taking a snapshot keeps a device well formed. */
  lemma CaptureWellFormed(cfg: DeviceConfig, points: map<string, Point>, additional: ODict<Value>)
    requires WellFormed(cfg, points)
    ensures WellFormed(cfg, Capture(cfg, points, additional).0)
  {
    CapturePointsReadOnly(cfg, points, cfg.handles, []);
  }

  /** Applying a snapshot entry keeps a device well formed. */
  lemma ApplyEntryWellFormed(cfg: DeviceConfig, points: map<string, Point>, entry: DeviceEntry)
    requires WellFormed(cfg, points)
    ensures WellFormed(cfg, ApplyEntry(cfg, points, entry).0)
  {
    ApplyEntryFrame(cfg, points, entry);
  }

  // ------------------------------------------------------------ queries

  /** `get_statistics` over a list: the statistical points with a
      non-empty window, keyed by name in order of first appearance; an
      unknown name raises `KeyError`. */
  function NonEmptyWindows(points: map<string, Point>, statistics: seq<string>, acc: ODict<Point>, ns: seq<string>)
    : Result<ODict<Point>>
    requires forall s :: s in statistics ==> s in points
    decreases |ns|
  {
    if ns == [] then Ok(acc)
    else if ns[0] !in statistics then Err(KeyError)
    else
      var next := if points[ns[0]].stats.buffer != [] then Update(acc, ns[0], points[ns[0]]) else acc;
      NonEmptyWindows(points, statistics, next, ns[1..])
  }

  /** The list form of `get_statistics` fails exactly on an unknown name;
      otherwise it holds each named point with a non-empty window once,
      under its own name. */
  lemma {:induction false} NonEmptyWindowsSpec(points: map<string, Point>, statistics: seq<string>,
                                               acc: ODict<Point>, ns: seq<string>)
    requires forall s :: s in statistics ==> s in points
    requires DistinctKeys(acc)
    requires forall i :: 0 <= i < |acc| ==> acc[i].0 in points && acc[i].1 == points[acc[i].0]
    ensures var r := NonEmptyWindows(points, statistics, acc, ns);
            && (r.Err? <==> exists n :: n in ns && n !in statistics)
            && (r.Err? ==> r.error == KeyError)
            && (r.Ok? ==> DistinctKeys(r.value))
            && (r.Ok? ==> forall k :: k in Keys(r.value) <==>
                  k in Keys(acc) || (k in ns && points[k].stats.buffer != []))
            && (r.Ok? ==> forall i :: 0 <= i < |r.value| ==>
                  r.value[i].0 in points && r.value[i].1 == points[r.value[i].0])
    decreases |ns|
  {
    if ns != [] && ns[0] in statistics {
      var n := ns[0];
      var next := if points[n].stats.buffer != [] then Update(acc, n, points[n]) else acc;
      UpdateDistinct(acc, n, points[n]);
      UpdateKeys(acc, n, points[n]);
      UpdateEntries(acc, n, points[n]);
      NonEmptyWindowsSpec(points, statistics, next, ns[1..]);
      assert forall k :: k in ns <==> k == n || k in ns[1..];
    }
  }

  /** What `get_statistics` returns: one point, or points by name. */
  datatype StatsAnswer = OnePoint(p: Point) | Points(d: ODict<Point>)

  // ------------------------------------------------------------ the device

  /** A device: its fixed configuration, its points (updated in place by
      reads, writes and buffer operations) and the additional snapshot
      information set on it. */
  class Hardware {
    const config: DeviceConfig
    var points: map<string, Point>
    var additional: ODict<Value>

    ghost predicate Valid()
      reads this
    {
      WellFormed(config, points) && DistinctKeys(additional)
    }

    /** A device over a well-formed point map, with no additional snapshot
        information. */
    constructor (cfg: DeviceConfig, pts: map<string, Point>)
      requires WellFormed(cfg, pts)
      ensures Valid()
      ensures config == cfg && points == pts && additional == []
    {
      config := cfg;
      points := pts;
      additional := [];
    }

    /** `clear_buffer`, `set_buffer_size`, `start_buffering` and
        `stop_buffering` of a device: no name (or an empty one, or an
        empty list) means every statistical point; the point map does the
        rest. */
    method BufferOperation(names: Names, op: BufferOp) returns (e: Option<Error>)
      requires Valid()
      modifies this
      ensures Valid() && additional == old(additional)
      ensures (points, e) == ApplyToNames(old(points), config.statistics, Resolve(names, config.statistics), op)
    {
      ApplyToNamesWellFormed(config, points, Resolve(names, config.statistics), op);
      points, e := PointMapBufferOp(points, config.statistics, Resolve(names, config.statistics), op);
    }

    /** `is_buffer_full` of a device, handed to its point map. */
    method IsBufferFull(names: Names) returns (r: Result<Answer>)
      requires Valid()
      ensures names.One? ==>
                r == if names.name in config.statistics then Ok(Single(BufferFull(points[names.name])))
                     else Err(ValueError)
      ensures !names.One? ==>
                var ns := Resolve(names, config.statistics);
                && (r.Err? <==> exists n :: n in ns && n !in config.statistics)
                && (r.Err? ==> r.error == ValueError)
                && (r.Ok? ==> r.value == PerName(Tabulate(ns, FullOf(points))))
    {
      r := PointMapIsBufferFull(points, config.statistics, names);
    }

    /** `is_buffering`: whether each name is a statistical point; no name
        (or an empty one, or an empty list) raises `ValueError`. */
    function IsBuffering(names: Names): (r: Result<Answer>)
      ensures r.Err? <==> Falsy(names)
      ensures r.Err? ==> r.error == ValueError
      ensures r.Ok? && names.One? ==> r.value == Single(names.name in config.statistics)
      ensures r.Ok? && names.Many? ==>
                && r.value.PerName?
                && DistinctKeys(r.value.d)
                && (forall k :: k in Keys(r.value.d) <==> k in names.names)
                && (forall i :: 0 <= i < |r.value.d| ==> (r.value.d[i].1 <==> r.value.d[i].0 in config.statistics))
    {
      if Falsy(names) then Err(ValueError)
      else if names.One? then Ok(Single(names.name in config.statistics))
      else Ok(PerName(Tabulate(names.names, n => n in config.statistics)))
    }

    /** `get_statistics`: no name (or an empty one, or an empty list) asks
        about every statistical point; one name gives its point; a list
        gives its points with a non-empty window. An unknown name raises
        `KeyError`. */
    function GetStatistics(names: Names): (r: Result<StatsAnswer>)
      requires Valid()
      reads this
      ensures names.One? && names.name != "" ==>
                && (r.Err? <==> names.name !in config.statistics)
                && (r.Err? ==> r.error == KeyError)
                && (r.Ok? ==> r.value == OnePoint(points[names.name]))
      ensures !(names.One? && names.name != "") ==>
                var ns := Resolve(names, config.statistics);
                && (r.Err? <==> exists n :: n in ns && n !in config.statistics)
                && (r.Err? ==> r.error == KeyError)
                && (r.Ok? ==> r.value.Points? && DistinctKeys(r.value.d))
                && (r.Ok? ==> forall k :: k in Keys(r.value.d) <==> k in ns && k in points && points[k].stats.buffer != [])
                && (r.Ok? ==> forall i :: 0 <= i < |r.value.d| ==>
                      r.value.d[i].0 in points && r.value.d[i].1 == points[r.value.d[i].0])
    {
      if names.One? && names.name != "" then
        if names.name in config.statistics then Ok(OnePoint(points[names.name])) else Err(KeyError)
      else
        var ns := Resolve(names, config.statistics);
        NonEmptyWindowsSpec(points, config.statistics, [], ns);
        match NonEmptyWindows(points, config.statistics, [], ns)
        case Err(e) => Err(e)
        case Ok(d) => Ok(Points(d))
    }

    /** `update_additional_information`: sets the value under a key,
        keeping the key's place if it is already there. */
    method UpdateAdditionalInformation(key: string, value: Value)
      requires Valid()
      modifies this
      ensures Valid() && points == old(points)
      ensures additional == Update(old(additional), key, value)
    {
      UpdateDistinct(additional, key, value);
      additional := Update(additional, key, value);
    }

    /** `create_snapshot`: reads every gettable or settable point in map
        order, then adds the additional information; the device's entry
        (the outer key of the returned dictionary is the device's name),
        or the exception raised, and the warnings emitted. */
    method CreateSnapshot() returns (r: Result<DeviceEntry>, ws: seq<Warning>)
      requires Valid()
      modifies this
      ensures Valid() && additional == old(additional)
      ensures (points, r, ws) == Capture(config, old(points), old(additional))
    {
      CaptureWellFormed(config, points, additional);
      var pts, read := ReadPoints(config, points, config.handles, []);
      ws := [];
      r := read;
      if read.Ok? {
        r, ws := AddExtras(config, pts, additional, read.value, []);
      }
      points := pts;
    }

    /** `apply_snapshot`: writes the "value" of each settable record of
        the entry, in order; a missing point or "value" raises `KeyError`,
        and a write that raises stops it. */
    method ApplySnapshot(entry: DeviceEntry) returns (e: Option<Error>)
      requires Valid()
      modifies this
      ensures Valid() && additional == old(additional)
      ensures (points, e) == ApplyEntry(config, old(points), entry)
    {
      ApplyEntryWellFormed(config, points, entry);
      var pts := points;
      e := None;
      var i := 0;
      while i < |entry|
        invariant 0 <= i <= |entry|
        invariant points == old(points) && additional == old(additional)
        invariant ApplyEntry(config, points, entry) == ApplyEntry(config, pts, entry[i..])
      {
        SuffixCons(entry, i);
        var (h, setting) := entry[i];
        if h in config.settables {
          if h !in pts || "value" !in setting {
            e := Some(KeyError);
            break;
          }
          var put := PutStep(pts[h], setting["value"]);
          pts := pts[h := put.0];
          if put.1.Some? {
            e := put.1;
            break;
          }
        }
        i := i + 1;
      }
      points := pts;
    }
  }
}
