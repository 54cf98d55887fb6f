/** Snapshots of one hardware type: comparing two snapshot documents, the
    file names they are saved under, and the `Snapshot` object that captures
    every registered device into a document, stores, saves, loads and
    applies it. */
module Snapshots {
  import opened Wrappers
  import opened PyValues
  import opened OrderedDicts
  import opened Config
  import opened PVUtils
  import opened HardwareModel

  // ------------------------------------------------------------ documents

  /** A value at the top of a snapshot document: the entries of the devices
      of a hardware type, keyed by device name, or a plain value such as
      the "comment" and "created" fields a saved file carries. */
  datatype TopValue = Fleet(devices: ODict<DeviceEntry>) | Field(v: Value)

  /** A snapshot document, keyed by hardware type. */
  type Document = map<string, TopValue>

  /** Python truthiness of an optional document: `None` and `{}` are false. */
  predicate Present(doc: Option<Document>) {
    doc.Some? && doc.value != map[]
  }

  // ------------------------------------------------------------ _find_diff

  /** One differing point: its value in the first entry and in the second. */
  datatype Change = Change(current: Value, diff: Value)

  /** Reading `d1[h]["value"]` or `d2[h]["value"]` raises `KeyError`. */
  predicate Unreadable(d2: DeviceEntry, h: string, rec: PointRecord) {
    "value" !in rec || Lookup(d2, h).None? || "value" !in Lookup(d2, h).value
  }

  /** Both values of point `h` can be read and they differ under Python's
      `!=`. */
  predicate Differs(d2: DeviceEntry, h: string, rec: PointRecord) {
    !Unreadable(d2, h, rec) && !PyEq(rec["value"], Lookup(d2, h).value["value"])
  }

  /** `_find_diff`: the points of the first entry whose "value" differs from
      the second entry's, as (current, diff) pairs in the first entry's
      order. */
  function FindDiff(d1: DeviceEntry, d2: DeviceEntry): (r: Result<ODict<Change>>)
    ensures r.Err? ==> r.error == KeyError
  {
    if d1 == [] then Ok([])
    else
      var (h, rec) := d1[0];
      if Unreadable(d2, h, rec) then Err(KeyError)
      else
        match FindDiff(d1[1..], d2)
        case Err(e) => Err(e)
        case Ok(rest) =>
          var a := rec["value"];
          var b := Lookup(d2, h).value["value"];
          Ok(if PyEq(a, b) then rest else [(h, Change(a, b))] + rest)
  }

  /** The comparison raises exactly when some point of the first entry has
      no "value", or is missing from the second entry, or has no "value"
      there. */
  lemma {:induction false} FindDiffErrors(d1: DeviceEntry, d2: DeviceEntry)
    ensures FindDiff(d1, d2).Err? <==> exists i :: 0 <= i < |d1| && Unreadable(d2, d1[i].0, d1[i].1)
  {
    if d1 != [] {
      FindDiffErrors(d1[1..], d2);
      if !Unreadable(d2, d1[0].0, d1[0].1) {
        if exists i :: 0 <= i < |d1| && Unreadable(d2, d1[i].0, d1[i].1) {
          var i :| 0 <= i < |d1| && Unreadable(d2, d1[i].0, d1[i].1);
          assert d1[1..][i - 1] == d1[i];
        }
      }
    }
  }

  /** The differences of a dictionary entry are keyed by exactly the points
      whose values differ, once each, and hold the two values. */
  lemma {:induction false} FindDiffSpec(d1: DeviceEntry, d2: DeviceEntry)
    requires DistinctKeys(d1)
    ensures var r := FindDiff(d1, d2);
            r.Ok? ==>
              && DistinctKeys(r.value)
              && (forall k :: k in Keys(r.value) <==> Lookup(d1, k).Some? && Differs(d2, k, Lookup(d1, k).value))
              && (forall i :: 0 <= i < |r.value| ==>
                    var k := r.value[i].0;
                    Lookup(d1, k).Some? && Differs(d2, k, Lookup(d1, k).value) &&
                    r.value[i].1 == Change(Lookup(d1, k).value["value"], Lookup(d2, k).value["value"]))
  {
    if d1 != [] {
      var r := FindDiff(d1, d2);
      FindDiffSpec(d1[1..], d2);
      if r.Ok? {
        var rest := FindDiff(d1[1..], d2).value;
        var h := d1[0].0;
        forall k | k in Keys(d1[1..])
          ensures k != h
        {
          var j :| 0 <= j < |d1[1..]| && Keys(d1[1..])[j] == k;
          assert d1[j + 1].0 == k;
        }
        forall k
          ensures Lookup(d1, k) == if k == h then Some(d1[0].1) else Lookup(d1[1..], k)
        {
        }
        if !PyEq(d1[0].1["value"], Lookup(d2, h).value["value"]) {
          assert r.value == [(h, Change(d1[0].1["value"], Lookup(d2, h).value["value"]))] + rest;
          assert Keys(r.value) == [h] + Keys(rest);
          forall i | 0 < i < |r.value|
            ensures r.value[i] == rest[i - 1]
          {
          }
        }
      }
    }
  }

  /** An entry whose every point has a "value" agrees with any entry that
      holds the same records under the same names. */
  lemma {:induction false} FindDiffAgree(d1: DeviceEntry, d2: DeviceEntry)
    requires forall i :: 0 <= i < |d1| ==> "value" in d1[i].1 && Lookup(d2, d1[i].0) == Some(d1[i].1)
    ensures FindDiff(d1, d2) == Ok([])
  {
    if d1 != [] {
      PyEqReflexive(d1[0].1["value"]);
      forall i | 0 <= i < |d1[1..]|
        ensures "value" in d1[1..][i].1 && Lookup(d2, d1[1..][i].0) == Some(d1[1..][i].1)
      {
        assert d1[1..][i] == d1[i + 1];
      }
      FindDiffAgree(d1[1..], d2);
    }
  }

  // ------------------------------------------------------------ diff

  /** What `diff` reports for a device: the points that changed, or the
      device's whole entry when the second document does not have it. */
  datatype DeviceDiff = Changed(changes: ODict<Change>) | Missing(entry: DeviceEntry)

  /** `x in s` for a string `s` (a substring test). */
  predicate IsInfix(x: string, s: string) {
    exists i :: 0 <= i <= |s| && x <= s[i..]
  }

  /** `name in s2` followed by `s2[name]`, for whatever the second document
      holds under the hardware type: a dictionary gives the device's entry
      or nothing; a string or a list that contains the name cannot be
      indexed by it, and other values cannot be searched (`TypeError`). */
  function Member(s2: TopValue, name: string): (r: Result<Option<DeviceEntry>>)
    ensures r.Err? ==> r.error == TypeError
    ensures s2.Fleet? ==> r == Ok(Lookup(s2.devices, name))
    ensures r.Ok? && r.value.Some? ==> s2.Fleet?
  {
    match s2
    case Fleet(d) => Ok(Lookup(d, name))
    case Field(Str(s)) => if IsInfix(name, s) then Err(TypeError) else Ok(None)
    case Field(List(items)) => if Str(name) in items then Err(TypeError) else Ok(None)
    case Field(_) => Err(TypeError)
  }

  /** One device of the loop of `diff`: a device the second document
      lacks is reported with its whole entry, one it has is reported with
      its differences when there are any. */
  function DiffNext(acc: ODict<DeviceDiff>, s2: TopValue, name: string, settings: DeviceEntry)
    : Result<ODict<DeviceDiff>>
  {
    match Member(s2, name)
    case Err(e) => Err(e)
    case Ok(None) => Ok(Update(acc, name, Missing(settings)))
    case Ok(Some(other)) =>
      match FindDiff(settings, other)
      case Err(e) => Err(e)
      case Ok(changes) => Ok(if changes == [] then acc else Update(acc, name, Changed(changes)))
  }

  /** The loop of `diff` over the devices of the first document, adding to
      the differences found so far. */
  function DiffInto(acc: ODict<DeviceDiff>, s1: ODict<DeviceEntry>, s2: TopValue): Result<ODict<DeviceDiff>>
    decreases |s1|
  {
    if s1 == [] then Ok(acc)
    else
      match DiffNext(acc, s2, s1[0].0, s1[0].1)
      case Err(e) => Err(e)
      case Ok(next) => DiffInto(next, s1[1..], s2)
  }

  /** `diff` of two documents for one hardware type. Both must be present
      and non-empty (`ValueError`); both must hold the type, and when one
      does not, building the `InvalidSnapshotSetting` message indexes a
      `dict_keys` view and raises `TypeError` instead; the first must hold
      a dictionary of devices (`AttributeError` from `.items()`). */
  function DiffDocuments(hardwareType: string, first: Option<Document>, second: Option<Document>)
    : Result<ODict<DeviceDiff>>
  {
    if !(Present(first) && Present(second)) then Err(ValueError)
    else if hardwareType !in first.value || hardwareType !in second.value then Err(TypeError)
    else
      match first.value[hardwareType]
      case Field(_) => Err(AttributeError)
      case Fleet(s1) => DiffInto([], s1, second.value[hardwareType])
  }

  /** A device of the first document is reported: the second document
      lacks it, or both entries can be compared and differ somewhere. */
  predicate Reportable(s2: TopValue, name: string, settings: DeviceEntry) {
    || Member(s2, name) == Ok(None)
    || (&& Member(s2, name).Ok? && Member(s2, name).value.Some?
        && FindDiff(settings, Member(s2, name).value.value).Ok?
        && FindDiff(settings, Member(s2, name).value.value).value != [])
  }

  /** What is reported for a device: its whole entry when the second
      document lacks it, otherwise its non-empty differences. */
  predicate Reported(s2: TopValue, name: string, settings: DeviceEntry, d: DeviceDiff) {
    match d
    case Missing(e) => e == settings && Member(s2, name) == Ok(None)
    case Changed(c) =>
      && c != []
      && Member(s2, name).Ok? && Member(s2, name).value.Some?
      && FindDiff(settings, Member(s2, name).value.value) == Ok(c)
  }

  /** Looking one device up in the second document and comparing it
      raises exactly when `Member` or `FindDiff` does. */
  predicate DeviceFails(s2: TopValue, name: string, settings: DeviceEntry) {
    Member(s2, name).Err? ||
    (Member(s2, name).value.Some? && FindDiff(settings, Member(s2, name).value.value).Err?)
  }

  lemma DiffNextSpec(acc: ODict<DeviceDiff>, s2: TopValue, name: string, settings: DeviceEntry)
    requires DistinctKeys(acc)
    ensures DiffNext(acc, s2, name, settings).Err? <==> DeviceFails(s2, name, settings)
    ensures var r := DiffNext(acc, s2, name, settings);
            r.Ok? ==>
              && DistinctKeys(r.value)
              && (forall k :: k in Keys(r.value) <==> k in Keys(acc) || (k == name && Reportable(s2, name, settings)))
              && (forall i :: 0 <= i < |r.value| ==>
                    r.value[i] in acc || (r.value[i].0 == name && Reported(s2, name, settings, r.value[i].1)))
  {
    match Member(s2, name)
    case Err(_) =>
    case Ok(None) =>
      DiffNextUpdate(acc, name, Missing(settings));
    case Ok(Some(other)) =>
      var c := FindDiff(settings, other);
      if c.Ok? && c.value != [] {
        DiffNextUpdate(acc, name, Changed(c.value));
      }
  }

  /** Reporting a device under its name: the facts `DiffNextSpec` needs. */
  lemma DiffNextUpdate(acc: ODict<DeviceDiff>, name: string, d: DeviceDiff)
    requires DistinctKeys(acc)
    ensures DistinctKeys(Update(acc, name, d))
    ensures forall k :: k in Keys(Update(acc, name, d)) <==> k in Keys(acc) || k == name
    ensures forall i :: 0 <= i < |Update(acc, name, d)| ==> Update(acc, name, d)[i] in acc || Update(acc, name, d)[i] == (name, d)
  {
    UpdateDistinct(acc, name, d);
    UpdateKeys(acc, name, d);
    UpdateEntries(acc, name, d);
  }

  /** The loop raises exactly when some device of the first document
      cannot be looked up in the second or compared with it. */
  lemma {:induction false} DiffIntoErrors(acc: ODict<DeviceDiff>, s1: ODict<DeviceEntry>, s2: TopValue)
    requires DistinctKeys(acc)
    ensures DiffInto(acc, s1, s2).Err? <==> exists j :: 0 <= j < |s1| && DeviceFails(s2, s1[j].0, s1[j].1)
    decreases |s1|
  {
    if s1 != [] {
      DiffNextSpec(acc, s2, s1[0].0, s1[0].1);
      var next := DiffNext(acc, s2, s1[0].0, s1[0].1);
      if next.Ok? {
        DiffIntoErrors(next.value, s1[1..], s2);
        if exists j :: 0 <= j < |s1| && DeviceFails(s2, s1[j].0, s1[j].1) {
          var j :| 0 <= j < |s1| && DeviceFails(s2, s1[j].0, s1[j].1);
          assert s1[1..][j - 1] == s1[j];
        }
      }
    }
  }

  /** Every device of the first document that the second lacks or that
      differs is reported, once, and nothing else is: a device that only
      the second document has is never reported. */
  lemma {:induction false} DiffIntoKeys(acc: ODict<DeviceDiff>, s1: ODict<DeviceEntry>, s2: TopValue)
    requires DistinctKeys(acc) && DistinctKeys(s1)
    ensures var r := DiffInto(acc, s1, s2);
            r.Ok? ==>
              && DistinctKeys(r.value)
              && forall k :: k in Keys(r.value) <==>
                   k in Keys(acc) || (Lookup(s1, k).Some? && Reportable(s2, k, Lookup(s1, k).value))
    decreases |s1|
  {
    if s1 != [] {
      DiffNextSpec(acc, s2, s1[0].0, s1[0].1);
      var next := DiffNext(acc, s2, s1[0].0, s1[0].1);
      if next.Ok? {
        assert DistinctKeys(s1[1..]) by {
          forall a, b | 0 <= a < b < |s1[1..]| ensures s1[1..][a].0 != s1[1..][b].0 {
            assert s1[1..][a] == s1[a + 1] && s1[1..][b] == s1[b + 1];
          }
        }
        DiffIntoKeys(next.value, s1[1..], s2);
        forall k
          ensures Lookup(s1, k) == if k == s1[0].0 then Some(s1[0].1) else Lookup(s1[1..], k)
        {
        }
        assert s1[0].0 !in Keys(s1[1..]) by {
          forall j | 0 <= j < |s1[1..]|
            ensures Keys(s1[1..])[j] != s1[0].0
          {
            assert s1[1..][j] == s1[j + 1];
          }
        }
      }
    }
  }

  /** A reported device is a device of the first document, with its own
      entry or its own differences. */
  predicate FromFirst(s1: ODict<DeviceEntry>, s2: TopValue, item: (string, DeviceDiff)) {
    Lookup(s1, item.0).Some? && Reported(s2, item.0, Lookup(s1, item.0).value, item.1)
  }

  /** Each reported device comes with its own entry or its own
      differences. */
  lemma {:induction false} DiffIntoEntries(acc: ODict<DeviceDiff>, s1: ODict<DeviceEntry>, s2: TopValue)
    requires DistinctKeys(acc) && DistinctKeys(s1)
    ensures var r := DiffInto(acc, s1, s2);
            r.Ok? ==>
              forall i :: 0 <= i < |r.value| ==> r.value[i] in acc || FromFirst(s1, s2, r.value[i])
    decreases |s1|
  {
    if s1 != [] {
      DiffNextSpec(acc, s2, s1[0].0, s1[0].1);
      var next := DiffNext(acc, s2, s1[0].0, s1[0].1);
      if next.Ok? {
        assert DistinctKeys(s1[1..]) by {
          forall a, b | 0 <= a < b < |s1[1..]| ensures s1[1..][a].0 != s1[1..][b].0 {
            assert s1[1..][a] == s1[a + 1] && s1[1..][b] == s1[b + 1];
          }
        }
        DiffIntoEntries(next.value, s1[1..], s2);
        assert s1[0].0 !in Keys(s1[1..]) by {
          forall j | 0 <= j < |s1[1..]|
            ensures Keys(s1[1..])[j] != s1[0].0
          {
            assert s1[1..][j] == s1[j + 1];
          }
        }
        var r := DiffInto(acc, s1, s2);
        assert r == DiffInto(next.value, s1[1..], s2);
        if r.Ok? {
          forall i | 0 <= i < |r.value|
            ensures r.value[i] in acc || FromFirst(s1, s2, r.value[i])
          {
            var k := r.value[i].0;
            if r.value[i] !in next.value {
              assert FromFirst(s1[1..], s2, r.value[i]);
              assert k != s1[0].0;
              assert Lookup(s1, k) == Lookup(s1[1..], k);
            } else if r.value[i] !in acc {
              assert k == s1[0].0;
              assert Lookup(s1, k) == Some(s1[0].1);
            }
          }
        }
      }
    }
  }

  /** `diff` in full: the argument errors, then a result keyed by exactly
      the devices of the first document that the second lacks or that
      differ, each with its entry or its differences. */
  lemma DiffDocumentsSpec(hardwareType: string, first: Option<Document>, second: Option<Document>)
    ensures !(Present(first) && Present(second)) ==> DiffDocuments(hardwareType, first, second) == Err(ValueError)
    ensures Present(first) && Present(second) && (hardwareType !in first.value || hardwareType !in second.value) ==>
              DiffDocuments(hardwareType, first, second) == Err(TypeError)
    ensures Present(first) && Present(second) && hardwareType in first.value && hardwareType in second.value &&
            first.value[hardwareType].Fleet? && DistinctKeys(first.value[hardwareType].devices) ==>
              var s1 := first.value[hardwareType].devices;
              var s2 := second.value[hardwareType];
              var r := DiffDocuments(hardwareType, first, second);
              && (r.Err? <==> exists j :: 0 <= j < |s1| && DeviceFails(s2, s1[j].0, s1[j].1))
              && (r.Ok? ==> DistinctKeys(r.value))
              && (r.Ok? ==> forall k :: k in Keys(r.value) <==> Lookup(s1, k).Some? && Reportable(s2, k, Lookup(s1, k).value))
              && (r.Ok? ==> forall i :: 0 <= i < |r.value| ==> FromFirst(s1, s2, r.value[i]))
  {
    if Present(first) && Present(second) && hardwareType in first.value && hardwareType in second.value &&
       first.value[hardwareType].Fleet? && DistinctKeys(first.value[hardwareType].devices) {
      var s1 := first.value[hardwareType].devices;
      var s2 := second.value[hardwareType];
      DiffIntoErrors([], s1, s2);
      DiffIntoKeys([], s1, s2);
      DiffIntoEntries([], s1, s2);
    }
  }

  /** A document compared with itself has no differences, provided its
      devices each have a "value" for every point. */
  lemma DiffSelfEmpty(hardwareType: string, doc: Document)
    requires hardwareType in doc && doc[hardwareType].Fleet?
    requires DistinctKeys(doc[hardwareType].devices)
    requires forall i :: 0 <= i < |doc[hardwareType].devices| ==>
               DistinctKeys(doc[hardwareType].devices[i].1) &&
               forall j :: 0 <= j < |doc[hardwareType].devices[i].1| ==> "value" in doc[hardwareType].devices[i].1[j].1
    ensures DiffDocuments(hardwareType, Some(doc), Some(doc)) == Ok([])
  {
    var s := doc[hardwareType].devices;
    forall i | 0 <= i < |s|
      ensures Lookup(s, s[i].0) == Some(s[i].1)
    {
      LookupAt(s, i);
    }
    DiffSelfInto(s, s);
  }

  lemma {:induction false} DiffSelfInto(s1: ODict<DeviceEntry>, s: ODict<DeviceEntry>)
    requires forall i :: 0 <= i < |s1| ==> Lookup(s, s1[i].0) == Some(s1[i].1)
    requires forall i :: 0 <= i < |s1| ==>
               DistinctKeys(s1[i].1) && forall j :: 0 <= j < |s1[i].1| ==> "value" in s1[i].1[j].1
    ensures DiffInto([], s1, Fleet(s)) == Ok([])
  {
    if s1 != [] {
      var e := s1[0].1;
      forall j | 0 <= j < |e|
        ensures "value" in e[j].1 && Lookup(e, e[j].0) == Some(e[j].1)
      {
        LookupAt(e, j);
      }
      FindDiffAgree(e, e);
      assert DiffNext([], Fleet(s), s1[0].0, e) == Ok([]);
      forall i | 0 <= i < |s1[1..]|
        ensures Lookup(s, s1[1..][i].0) == Some(s1[1..][i].1)
        ensures DistinctKeys(s1[1..][i].1) && forall j :: 0 <= j < |s1[1..][i].1| ==> "value" in s1[1..][i].1[j].1
      {
        assert s1[1..][i] == s1[i + 1];
      }
      DiffSelfInto(s1[1..], s);
    }
  }

  // ------------------------------------------------------------ file names

  /** `s.rfind(c)`: the last index holding `c`, or -1. */
  function RFind(s: string, c: char): (i: int)
    ensures -1 <= i < |s|
    ensures i >= 0 ==> s[i] == c
    ensures forall j :: i < j < |s| ==> s[j] != c
  {
    if s == [] then -1 else if s[|s| - 1] == c then |s| - 1 else RFind(s[..|s| - 1], c)
  }

  /** The last index holding `c` is the one after which no `c` follows. */
  lemma RFindAt(s: string, c: char, i: int)
    requires -1 <= i < |s| && (i >= 0 ==> s[i] == c)
    requires forall j :: i < j < |s| ==> s[j] != c
    ensures RFind(s, c) == i
  {
  }

  /** POSIX `os.path.splitext`: the extension starts at the last dot of the
      last path component, unless everything before that dot in the
      component is dots; the extension keeps its dot. */
  function SplitExt(p: string): (r: (string, string))
  {
    var sep := RFind(p, '/');
    var dot := RFind(p, '.');
    if dot > sep && exists k :: sep + 1 <= k < dot && p[k] != '.' then (p[..dot], p[dot..])
    else (p, "")
  }

  /** The two parts put back together give the name; the extension is
      empty or a dot followed by no dot and no separator. */
  lemma SplitExtSpec(p: string)
    ensures SplitExt(p).0 + SplitExt(p).1 == p
    ensures var ext := SplitExt(p).1;
            ext == [] || (ext[0] == '.' && '.' !in ext[1..] && '/' !in ext)
  {
    var ext := SplitExt(p).1;
    if ext != [] {
      var dot := RFind(p, '.');
      assert ext == p[dot..];
      forall j | 0 <= j < |ext|
        ensures ext[j] != '/' && (j > 0 ==> ext[j] != '.')
      {
        assert ext[j] == p[dot + j];
      }
    }
  }

  /** The extension test of `save` and `_load_file` compares against names
      without their dot, so it never holds: every file goes under `.yaml`. */
  lemma ExtensionCheckNeverMatches(p: string)
    ensures SplitExt(p).1 != "yaml" && SplitExt(p).1 != "yml"
  {
    SplitExtSpec(p);
  }

  /** POSIX `os.path.join` of two components. */
  function JoinPath(a: string, b: string): (r: string)
    ensures b != [] && b[0] == '/' ==> r == b
    ensures !(b != [] && b[0] == '/') ==> |r| >= |b| && r[|r| - |b|..] == b
  {
    if b != [] && b[0] == '/' then b
    else if a == [] || a[|a| - 1] == '/' then a + b
    else a + "/" + b
  }

  /** The directory of a hardware type's snapshot files. */
  function SnapshotDirectory(hardwareType: string): string {
    JoinPath(SnapshotLocation, hardwareType)
  }

  /** Where `save` writes and `_load_file` reads a file name: the name's
      root with `.yaml` in the type's directory. */
  function SnapshotPath(hardwareType: string, filename: string): (path: string)
    ensures |path| >= 5 && path[|path| - 5..] == ".yaml"
  {
    var root := SplitExt(filename).0;
    var path := JoinPath(SnapshotDirectory(hardwareType), root + ".yaml");
    assert path[|path| - 5..] == (root + ".yaml")[|root|..];
    path
  }

  /** A name with no dot or separator has no extension. */
  lemma SplitExtBare(root: string)
    requires '.' !in root && '/' !in root
    ensures SplitExt(root) == (root, "")
  {
    RFindAt(root, '.', -1);
    RFindAt(root, '/', -1);
  }

  /** A plain root, a dot and a plain extension split at that dot. */
  lemma {:induction false} SplitExtDotted(root: string, ext: string)
    requires root != [] && '.' !in root && '/' !in root
    requires '.' !in ext && '/' !in ext
    ensures SplitExt(root + "." + ext) == (root, "." + ext)
  {
    var p := root + "." + ext;
    var dot := |root|;
    forall j | dot < j < |p|
      ensures p[j] != '.'
    {
      assert p[j] == ext[j - dot - 1];
    }
    RFindAt(p, '.', dot);
    forall j | 0 <= j < |p|
      ensures p[j] != '/'
    {
      if j < dot { assert p[j] == root[j]; } else if j > dot { assert p[j] == ext[j - dot - 1]; }
    }
    RFindAt(p, '/', -1);
    assert p[0] == root[0] && p[0] != '.';
    assert p[..dot] == root && p[dot..] == "." + ext;
  }

  /** A name with any extension (".yml" and ".yaml" among them) and the
      same name without one all denote the name's root with `.yaml`. */
  lemma SnapshotPathIgnoresExtension(hardwareType: string, root: string, ext: string)
    requires root != [] && '.' !in root && '/' !in root
    requires '.' !in ext && '/' !in ext
    ensures SnapshotPath(hardwareType, root + "." + ext) == JoinPath(SnapshotDirectory(hardwareType), root + ".yaml")
    ensures SnapshotPath(hardwareType, root) == SnapshotPath(hardwareType, root + "." + ext)
  {
    SplitExtDotted(root, ext);
    SplitExtBare(root);
  }

  /** The files a snapshot directory holds: the document each path was
      last saved with. */
  type Storage = map<string, Document>

  /** The document `save` writes: the held document with its "comment"
      and creation time set. */
  function Stamped(doc: Document, comment: string, created: string): (out: Document)
    ensures forall k :: k in out <==> k in doc || k == "comment" || k == "created"
    ensures out["comment"] == Field(Str(comment)) && out["created"] == Field(Str(created))
    ensures forall k :: k in doc && k != "comment" && k != "created" ==> out[k] == doc[k]
  {
    doc["comment" := Field(Str(comment))]["created" := Field(Str(created))]
  }

  /** `_load_file`: no file name raises `ValueError`, a file that is not
      there raises `FileNotFoundError`; otherwise the document it holds. */
  function LoadFile(hardwareType: string, filename: string, storage: Storage): (r: Result<Document>)
    ensures r.Err? <==> filename == "" || SnapshotPath(hardwareType, filename) !in storage
    ensures r.Err? ==> r.error == if filename == "" then ValueError else FileNotFoundError
    ensures r.Ok? ==> r.value == storage[SnapshotPath(hardwareType, filename)]
  {
    if filename == "" then Err(ValueError)
    else if SnapshotPath(hardwareType, filename) !in storage then Err(FileNotFoundError)
    else Ok(storage[SnapshotPath(hardwareType, filename)])
  }

  // ------------------------------------------------------------ update

  /** What one device's `create_snapshot` gave: the device's name (the
      outer key of its result), its entry or the exception it raised, and
      the warnings it emitted. */
  type DeviceCapture = (string, Result<DeviceEntry>, seq<Warning>)

  /** The devices dictionary `update` builds: each successful capture,
      in order, updates the entry under its device's name; a capture that
      raised in its thread adds nothing. */
  function MergeEntries(cs: seq<DeviceCapture>): ODict<DeviceEntry> {
    if cs == [] then []
    else
      var m := MergeEntries(cs[..|cs| - 1]);
      var c := cs[|cs| - 1];
      if c.1.Ok? then Update(m, c.0, c.1.value) else m
  }

  /** The warnings of every capture, in order. */
  function AllWarnings(cs: seq<DeviceCapture>): seq<Warning> {
    if cs == [] then [] else AllWarnings(cs[..|cs| - 1]) + cs[|cs| - 1].2
  }

  /** The merged dictionary has one entry per name. */
  lemma {:induction false} MergeEntriesDistinct(cs: seq<DeviceCapture>)
    ensures DistinctKeys(MergeEntries(cs))
  {
    if cs != [] {
      var c := cs[|cs| - 1];
      MergeEntriesDistinct(cs[..|cs| - 1]);
      if c.1.Ok? {
        UpdateDistinct(MergeEntries(cs[..|cs| - 1]), c.0, c.1.value);
      }
    }
  }

  /** A name is in the merged dictionary exactly when some capture under
      it succeeded. */
  lemma {:induction false} MergeEntriesKeys(cs: seq<DeviceCapture>)
    ensures forall k :: k in Keys(MergeEntries(cs)) <==> exists c :: c in cs && c.0 == k && c.1.Ok?
  {
    if cs != [] {
      var n := |cs| - 1;
      var init := cs[..n];
      MergeEntriesKeys(init);
      var c := cs[n];
      var m0 := MergeEntries(init);
      if c.1.Ok? {
        UpdateKeys(m0, c.0, c.1.value);
      }
      assert cs == init + [c];
      assert forall k :: k in Keys(MergeEntries(cs)) <==> k in Keys(m0) || (c.1.Ok? && k == c.0);
    }
  }

  /** The merged dictionary holds, under each name, the last successful
      capture under it: a later device of the same name wins. */
  lemma {:induction false} MergeEntriesLast(cs: seq<DeviceCapture>, i: nat)
    requires i < |cs| && cs[i].1.Ok?
    requires forall j :: i < j < |cs| && cs[j].0 == cs[i].0 ==> cs[j].1.Err?
    ensures Lookup(MergeEntries(cs), cs[i].0) == Some(cs[i].1.value)
  {
    var n := |cs| - 1;
    var init := cs[..n];
    var c := cs[n];
    if i < n {
      assert init[i] == cs[i];
      forall j | i < j < |init| && init[j].0 == init[i].0
        ensures init[j].1.Err?
      {
        assert init[j] == cs[j];
      }
      MergeEntriesLast(init, i);
      if c.1.Ok? {
        UpdateOther(MergeEntries(init), c.0, c.1.value, cs[i].0);
      }
    }
  }

  /** When every device has its own name, each successful capture is what
      the merged dictionary holds under that name. */
  lemma MergeEntriesDistinctNames(cs: seq<DeviceCapture>, i: nat)
    requires forall a, b :: 0 <= a < b < |cs| ==> cs[a].0 != cs[b].0
    requires i < |cs| && cs[i].1.Ok?
    ensures Lookup(MergeEntries(cs), cs[i].0) == Some(cs[i].1.value)
  {
    MergeEntriesLast(cs, i);
  }

  /** The loop of `update` over the registry in order: each device
      captures its own entry, and each successful entry is merged under
      its device's name. */
  method CaptureAll(reg: ODict<Hardware>)
    returns (ghost captures: seq<DeviceCapture>, fleet: ODict<DeviceEntry>, ws: seq<Warning>)
    requires forall i, j :: 0 <= i < j < |reg| ==> reg[i].1 != reg[j].1
    requires forall i :: 0 <= i < |reg| ==> reg[i].1.Valid()
    modifies DevicesOf(reg)
    ensures forall i :: 0 <= i < |reg| ==> reg[i].1.Valid() && reg[i].1.additional == old(reg[i].1.additional)
    ensures |captures| == |reg|
    ensures forall i :: 0 <= i < |reg| ==>
              && captures[i].0 == reg[i].1.config.props.name
              && old(reg[i].1.Valid())
              && (reg[i].1.points, captures[i].1, captures[i].2) ==
                 Capture(reg[i].1.config, old(reg[i].1.points), old(reg[i].1.additional))
    ensures fleet == MergeEntries(captures) && ws == AllWarnings(captures)
  {
    fleet := [];
    captures := [];
    ws := [];
    var i := 0;
    while i < |reg|
      invariant 0 <= i <= |reg| && |captures| == i
      invariant forall j :: 0 <= j < |reg| ==> reg[j].1.Valid() && reg[j].1.additional == old(reg[j].1.additional)
      invariant forall j :: 0 <= j < i ==>
                  && captures[j].0 == reg[j].1.config.props.name
                  && (reg[j].1.points, captures[j].1, captures[j].2) ==
                     Capture(reg[j].1.config, old(reg[j].1.points), old(reg[j].1.additional))
      invariant forall j :: i <= j < |reg| ==> reg[j].1.points == old(reg[j].1.points)
      invariant fleet == MergeEntries(captures) && ws == AllWarnings(captures)
    {
      label Top:
      var hw := reg[i].1;
      var r, w := hw.CreateSnapshot();
      forall j | 0 <= j < |reg| && j != i
        ensures reg[j].1.points == old@Top(reg[j].1.points) && reg[j].1.additional == old@Top(reg[j].1.additional)
      {
      }
      var c := (hw.config.props.name, r, w);
      assert (captures + [c])[..i] == captures;
      captures := captures + [c];
      if r.Ok? {
        fleet := Update(fleet, hw.config.props.name, r.value);
      }
      ws := ws + w;
      i := i + 1;
    }
  }

  // ------------------------------------------------------------ apply

  /** `self._snapshot[self._hardware_type]` as `apply` indexes it by device
      name: no document, or a value under the type that is not a
      dictionary, cannot be indexed (`TypeError`, which `apply` does not
      catch); a document without the type raises the `KeyError` it does
      catch for every device, as an empty dictionary would. */
  function Target(doc: Option<Document>, hardwareType: string): (r: Result<ODict<DeviceEntry>>)
    ensures r.Err? ==> r.error == TypeError
    ensures r.Err? <==> doc.None? || (hardwareType in doc.value && doc.value[hardwareType].Field?)
  {
    if doc.None? then Err(TypeError)
    else if hardwareType !in doc.value then Ok([])
    else
      match doc.value[hardwareType]
      case Fleet(d) => Ok(d)
      case Field(_) => Err(TypeError)
  }

  /** Whether `apply` writes the device registered under `name`: it is not
      excluded and the devices dictionary has an entry for it. */
  predicate Writes(name: string, fleet: ODict<DeviceEntry>, exclude: seq<string>) {
    name !in exclude && Lookup(fleet, name).Some?
  }

  /** A device's points after `apply`: written from its entry when `apply`
      writes it, as they were otherwise. */
  function Written(cfg: DeviceConfig, name: string, fleet: ODict<DeviceEntry>, exclude: seq<string>,
                   points: map<string, Point>): map<string, Point>
  {
    if Writes(name, fleet, exclude) then ApplyEntry(cfg, points, Lookup(fleet, name).value).0 else points
  }

  /** The warnings `apply` emits, in registry order: one for each device
      that is not excluded and has no entry. */
  function MissingWarnings(reg: ODict<Hardware>, fleet: ODict<DeviceEntry>, exclude: seq<string>): seq<Warning> {
    if reg == [] then []
    else
      var (name, hw) := reg[|reg| - 1];
      MissingWarnings(reg[..|reg| - 1], fleet, exclude) +
      if name !in exclude && Lookup(fleet, name).None? then [InvalidSnapshotSetting(hw.config.props.name)] else []
  }

  /** The warnings for one more device of the registry. */
  lemma MissingWarningsNext(reg: ODict<Hardware>, i: nat, fleet: ODict<DeviceEntry>, exclude: seq<string>)
    requires i < |reg|
    ensures MissingWarnings(reg[..i + 1], fleet, exclude) ==
            MissingWarnings(reg[..i], fleet, exclude) +
            if reg[i].0 !in exclude && Lookup(fleet, reg[i].0).None? then [InvalidSnapshotSetting(reg[i].1.config.props.name)] else []
  {
    assert reg[..i + 1][..i] == reg[..i];
  }

  /** At most one warning per device. */
  lemma {:induction false} MissingWarningsLength(reg: ODict<Hardware>, fleet: ODict<DeviceEntry>, exclude: seq<string>)
    ensures |MissingWarnings(reg, fleet, exclude)| <= |reg|
  {
    if reg != [] {
      MissingWarningsLength(reg[..|reg| - 1], fleet, exclude);
    }
  }

  /** No warning exactly when every device is excluded or has an entry. */
  lemma {:induction false} MissingWarningsNone(reg: ODict<Hardware>, fleet: ODict<DeviceEntry>, exclude: seq<string>)
    ensures (forall i :: 0 <= i < |reg| ==> reg[i].0 in exclude || Lookup(fleet, reg[i].0).Some?) <==>
            MissingWarnings(reg, fleet, exclude) == []
  {
    if reg != [] {
      var n := |reg| - 1;
      MissingWarningsNone(reg[..n], fleet, exclude);
      if forall i :: 0 <= i < |reg| ==> reg[i].0 in exclude || Lookup(fleet, reg[i].0).Some? {
        forall i | 0 <= i < n
          ensures reg[..n][i].0 in exclude || Lookup(fleet, reg[..n][i].0).Some?
        {
          assert reg[..n][i] == reg[i];
        }
      } else if reg[n].0 in exclude || Lookup(fleet, reg[n].0).Some? {
        var i :| 0 <= i < |reg| && !(reg[i].0 in exclude || Lookup(fleet, reg[i].0).Some?);
        assert reg[..n][i] == reg[i];
      }
    }
  }

  /** Every warning names a device that is not excluded and has no entry. */
  lemma {:induction false} MissingWarningsNamed(reg: ODict<Hardware>, fleet: ODict<DeviceEntry>, exclude: seq<string>)
    ensures forall w :: w in MissingWarnings(reg, fleet, exclude) ==>
              exists i :: 0 <= i < |reg| && reg[i].0 !in exclude && Lookup(fleet, reg[i].0).None? &&
                          w == InvalidSnapshotSetting(reg[i].1.config.props.name)
  {
    if reg != [] {
      var n := |reg| - 1;
      MissingWarningsNamed(reg[..n], fleet, exclude);
      forall w | w in MissingWarnings(reg, fleet, exclude)
        ensures exists i :: 0 <= i < |reg| && reg[i].0 !in exclude && Lookup(fleet, reg[i].0).None? &&
                            w == InvalidSnapshotSetting(reg[i].1.config.props.name)
      {
        if w in MissingWarnings(reg[..n], fleet, exclude) {
          var i :| 0 <= i < n && reg[..n][i].0 !in exclude && Lookup(fleet, reg[..n][i].0).None? &&
                   w == InvalidSnapshotSetting(reg[..n][i].1.config.props.name);
          assert reg[..n][i] == reg[i];
        }
      }
    }
  }

  /** One warning per device that is not excluded and has no entry, naming
      the device. */
  lemma MissingWarningsSpec(reg: ODict<Hardware>, fleet: ODict<DeviceEntry>, exclude: seq<string>)
    ensures |MissingWarnings(reg, fleet, exclude)| <= |reg|
    ensures (forall i :: 0 <= i < |reg| ==> reg[i].0 in exclude || Lookup(fleet, reg[i].0).Some?) <==>
            MissingWarnings(reg, fleet, exclude) == []
    ensures forall w :: w in MissingWarnings(reg, fleet, exclude) ==>
              exists i :: 0 <= i < |reg| && reg[i].0 !in exclude && Lookup(fleet, reg[i].0).None? &&
                          w == InvalidSnapshotSetting(reg[i].1.config.props.name)
  {
    MissingWarningsLength(reg, fleet, exclude);
    MissingWarningsNone(reg, fleet, exclude);
    MissingWarningsNamed(reg, fleet, exclude);
  }

  /** The distinct devices of a registry. */
  ghost function DevicesOf(reg: ODict<Hardware>): set<Hardware> {
    set i | 0 <= i < |reg| :: reg[i].1
  }

  /** One device of the loop of `apply`: written from its entry when it
      is not excluded and has one (a write that raises is lost with its
      thread), warned about when it is not excluded and has none. */
  method ApplyDevice(hw: Hardware, name: string, fleet: ODict<DeviceEntry>, exclude: seq<string>)
    returns (ws: seq<Warning>)
    requires hw.Valid()
    modifies hw
    ensures hw.Valid() && hw.additional == old(hw.additional)
    ensures hw.points == Written(hw.config, name, fleet, exclude, old(hw.points))
    ensures ws == if name !in exclude && Lookup(fleet, name).None? then [InvalidSnapshotSetting(hw.config.props.name)] else []
  {
    ws := [];
    if name !in exclude {
      var entry := Lookup(fleet, name);
      if entry.None? {
        ws := [InvalidSnapshotSetting(hw.config.props.name)];
      } else {
        var swallowed := hw.ApplySnapshot(entry.value);
      }
    }
  }

  /** The loop of `apply` once a devices dictionary is known, over the
      registry in order. */
  method ApplyAll(reg: ODict<Hardware>, fleet: ODict<DeviceEntry>, exclude: seq<string>) returns (ws: seq<Warning>)
    requires forall i, j :: 0 <= i < j < |reg| ==> reg[i].1 != reg[j].1
    requires forall i :: 0 <= i < |reg| ==> reg[i].1.Valid()
    modifies DevicesOf(reg)
    ensures forall i :: 0 <= i < |reg| ==> reg[i].1.Valid() && reg[i].1.additional == old(reg[i].1.additional)
    ensures forall i :: 0 <= i < |reg| ==>
              reg[i].1.points == Written(reg[i].1.config, reg[i].0, fleet, exclude, old(reg[i].1.points))
    ensures ws == MissingWarnings(reg, fleet, exclude)
  {
    ws := [];
    var i := 0;
    while i < |reg|
      invariant 0 <= i <= |reg|
      invariant forall j :: 0 <= j < |reg| ==> reg[j].1.Valid() && reg[j].1.additional == old(reg[j].1.additional)
      invariant forall j :: 0 <= j < i ==>
                  reg[j].1.points == Written(reg[j].1.config, reg[j].0, fleet, exclude, old(reg[j].1.points))
      invariant forall j :: i <= j < |reg| ==> reg[j].1.points == old(reg[j].1.points)
      invariant ws == MissingWarnings(reg[..i], fleet, exclude)
    {
      label Top:
      var w := ApplyDevice(reg[i].1, reg[i].0, fleet, exclude);
      forall j | 0 <= j < |reg| && j != i
        ensures reg[j].1.points == old@Top(reg[j].1.points) && reg[j].1.additional == old@Top(reg[j].1.additional)
      {
      }
      MissingWarningsNext(reg, i, fleet, exclude);
      ws := ws + w;
      i := i + 1;
    }
    assert reg[..i] == reg;
  }

  // ------------------------------------------------------------ the snapshot

  /** The snapshot of one hardware type over its registered devices: the
      document it holds, whether that document was applied and when. */
  class Snapshot {
    const hardwareType: string
    const registry: ODict<Hardware>
    var document: Option<Document>
    var applied: bool
    var lastApplied: Option<string>

    ghost function Devices(): set<Hardware> {
      DevicesOf(registry)
    }

    /** The registry is a dictionary of distinct devices. */
    ghost predicate Registered() {
      && DistinctKeys(registry)
      && (forall i, j :: 0 <= i < j < |registry| ==> registry[i].1 != registry[j].1)
    }

    /** Every registered device is valid. */
    ghost predicate DevicesValid()
      reads Devices()
    {
      forall i :: 0 <= i < |registry| ==> registry[i].1.Valid()
    }

    /** The registry is a dictionary of distinct, valid devices, and a held
        document always has the hardware type. */
    ghost predicate Valid()
      reads this, Devices()
    {
      Registered() && DevicesValid() && (document.Some? ==> hardwareType in document.value)
    }

    /** A snapshot holding no document, never applied. */
    constructor (hardware: ODict<Hardware>, hwType: string)
      requires DistinctKeys(hardware)
      requires forall i, j :: 0 <= i < j < |hardware| ==> hardware[i].1 != hardware[j].1
      requires forall i :: 0 <= i < |hardware| ==> hardware[i].1.Valid()
      ensures Valid()
      ensures registry == hardware && hardwareType == hwType
      ensures document == None && !applied && lastApplied == None
    {
      registry := hardware;
      hardwareType := hwType;
      document := None;
      applied := false;
      lastApplied := None;
    }

    /** `set`: a document without the hardware type (or no document)
        raises `TypeError` from building its error message, and changes
        nothing; otherwise it is held, not yet applied. */
    method Set(doc: Option<Document>) returns (e: Option<Error>)
      requires Valid()
      modifies this
      ensures Valid() && lastApplied == old(lastApplied)
      ensures doc.None? || hardwareType !in doc.value ==>
                e == Some(TypeError) && document == old(document) && applied == old(applied)
      ensures doc.Some? && hardwareType in doc.value ==> e == None && document == doc && !applied
    {
      if doc.None? || hardwareType !in doc.value {
        return Some(TypeError);
      }
      document := doc;
      applied := false;
      e := None;
    }

    /** `diff` of two documents for this hardware type. */
    method Diff(first: Option<Document>, second: Option<Document>) returns (r: Result<ODict<DeviceDiff>>)
      ensures r == DiffDocuments(hardwareType, first, second)
    {
      if !(Present(first) && Present(second)) {
        return Err(ValueError);
      }
      if hardwareType !in first.value || hardwareType !in second.value {
        return Err(TypeError);
      }
      var top := first.value[hardwareType];
      if top.Field? {
        return Err(AttributeError);
      }
      var s1 := top.devices;
      var s2 := second.value[hardwareType];
      var diffs: ODict<DeviceDiff> := [];
      var i := 0;
      while i < |s1|
        invariant 0 <= i <= |s1|
        invariant DiffInto(diffs, s1[i..], s2) == DiffInto([], s1, s2)
      {
        SuffixCons(s1, i);
        var (name, settings) := s1[i];
        var found := Member(s2, name);
        if found.Err? {
          return Err(found.error);
        }
        if found.value.None? {
          diffs := OrderedDicts.Update(diffs, name, Missing(settings));
        } else {
          var changes := FindDiff(settings, found.value.value);
          if changes.Err? {
            return Err(changes.error);
          }
          if changes.value != [] {
            diffs := OrderedDicts.Update(diffs, name, Changed(changes.value));
          }
        }
        i := i + 1;
      }
      r := Ok(diffs);
    }

    /** `save`: no file name raises `ValueError` and no document raises
        `AttributeError`; otherwise the document, stamped with the comment
        and the creation time, is written to the type's directory under the
        name's root with `.yaml`, and that path is returned. */
    function Save(filename: string, comment: string, created: string, storage: Storage)
      : (r: Result<(string, Storage)>)
      reads this
      ensures r.Err? <==> filename == "" || document.None?
      ensures r.Err? ==> r.error == if filename == "" then ValueError else AttributeError
      ensures r.Ok? ==> r.value.0 == SnapshotPath(hardwareType, filename)
      ensures r.Ok? ==> r.value.1 == storage[SnapshotPath(hardwareType, filename) := Stamped(document.value, comment, created)]
    {
      if filename == "" then Err(ValueError)
      else if document.None? then Err(AttributeError)
      else
        var path := SnapshotPath(hardwareType, filename);
        Ok((path, storage[path := Stamped(document.value, comment, created)]))
    }

    /** Loading a saved file, under its own name or any name with the same
        root, gives back the document with its comment and creation time;
        the document still has the hardware type, so `load` accepts it. */
    lemma SaveThenLoad(filename: string, other: string, comment: string, created: string, storage: Storage)
      requires Valid()
      requires Save(filename, comment, created, storage).Ok?
      requires other != "" && SplitExt(other).0 == SplitExt(filename).0
      ensures var doc := Stamped(document.value, comment, created);
              && LoadFile(hardwareType, other, Save(filename, comment, created, storage).value.1) == Ok(doc)
              && hardwareType in doc
    {
    }

    /** `load`: `_load_file`'s errors, then `set` of what it read. */
    method Load(filename: string, storage: Storage) returns (e: Option<Error>)
      requires Valid()
      modifies this
      ensures Valid() && lastApplied == old(lastApplied)
      ensures var loaded := LoadFile(hardwareType, filename, storage);
              if loaded.Ok? && hardwareType in loaded.value then
                e == None && document == Some(loaded.value) && !applied
              else
                && e == Some(if loaded.Err? then loaded.error else TypeError)
                && document == old(document) && applied == old(applied)
    {
      var loaded := LoadFile(hardwareType, filename, storage);
      if loaded.Err? {
        return Some(loaded.error);
      }
      e := Set(Some(loaded.value));
    }

    /** `update`: every registered device captures its own entry, in
        registry order; each successful entry goes under its device's name
        in a fresh document for this type (a device whose capture raises
        adds nothing), and the document is `set`. */
    method Update() returns (ghost captures: seq<DeviceCapture>, ws: seq<Warning>)
      requires Valid()
      modifies this, Devices()
      ensures Valid() && lastApplied == old(lastApplied)
      ensures |captures| == |registry|
      ensures forall i :: 0 <= i < |registry| ==>
                && captures[i].0 == registry[i].1.config.props.name
                && (registry[i].1.points, captures[i].1, captures[i].2) ==
                   Capture(registry[i].1.config, old(registry[i].1.points), old(registry[i].1.additional))
                && registry[i].1.additional == old(registry[i].1.additional)
      ensures ws == AllWarnings(captures)
      ensures document == Some(map[hardwareType := Fleet(MergeEntries(captures))]) && !applied
    {
      var fleet;
      captures, fleet, ws := CaptureAll(registry);
      var e := Set(Some(map[hardwareType := Fleet(fleet)]));
    }

    /** `apply`: every registered device that is not excluded is written
        from its entry in the held document, in registry order; a device
        without an entry gets a warning instead. A write that raises is
        lost with its thread. Without a document, or with one whose type
        holds no dictionary, the first device that is not excluded raises
        `TypeError` and nothing is written; otherwise the snapshot is
        marked applied at `now`. */
    method Apply(exclude: seq<string>, now: string) returns (e: Option<Error>, ws: seq<Warning>)
      requires Valid()
      modifies this, Devices()
      ensures Valid() && document == old(document)
      ensures forall i :: 0 <= i < |registry| ==> registry[i].1.additional == old(registry[i].1.additional)
      ensures var target := Target(old(document), hardwareType);
              target.Err? && (exists i :: 0 <= i < |registry| && registry[i].0 !in exclude) ==>
                && e == Some(TypeError) && ws == []
                && applied == old(applied) && lastApplied == old(lastApplied)
                && forall i :: 0 <= i < |registry| ==> registry[i].1.points == old(registry[i].1.points)
      ensures var target := Target(old(document), hardwareType);
              var fleet := if target.Ok? then target.value else [];
              !(target.Err? && exists i :: 0 <= i < |registry| && registry[i].0 !in exclude) ==>
                && e == None && applied && lastApplied == Some(now)
                && ws == MissingWarnings(registry, fleet, exclude)
                && forall i :: 0 <= i < |registry| ==>
                     registry[i].1.points == Written(registry[i].1.config, registry[i].0, fleet, exclude, old(registry[i].1.points))
    {
      var target := Target(document, hardwareType);
      // The first device that is not excluded raises before anything is
      // written, so the check can come first.
      if target.Err? && exists i :: 0 <= i < |registry| && registry[i].0 !in exclude {
        return Some(TypeError), [];
      }
      var fleet := if target.Ok? then target.value else [];
      ws := ApplyAll(registry, fleet, exclude);
      e := None;
      applied := true;
      lastApplied := Some(now);
    }

    /** The `last_applied` property: the time of the last `apply`; before
        any, reading it raises `AttributeError`. */
    function LastApplied(): (r: Result<string>)
      reads this
      ensures r.Ok? <==> lastApplied.Some?
      ensures r.Err? ==> r.error == AttributeError
      ensures r.Ok? ==> r.value == lastApplied.value
    {
      if lastApplied.None? then Err(AttributeError) else Ok(lastApplied.value)
    }
  }
}
