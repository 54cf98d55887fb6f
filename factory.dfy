/** The factory of one hardware type: the registry of its devices built
    from the configuration files of a lattice folder, look-up by name or
    alias, filtering by machine area and by subtype with the orderings of
    the results, and the dispatch of a setter or a call over several
    devices. The registry (`Factory.hardware`) is built once, when the
    factory is created, and never reassigned, so every query is modelled
    over it as a value. */
module Factory {
  import opened Wrappers
  import opened PyValues
  import opened OrderedDicts
  import opened Area
  import opened Config
  import opened HardwareModel
  import opened Sorting

  /** `Factory.hardware`: the devices under the stems of their
      configuration files, in device order. */
  type Registry = ODict<Hardware>

  function NameOf(h: Hardware): string {
    h.config.props.name
  }

  // ------------------------------------------------------------ ordering

  /** A device's place along the machine: the index of its area in
      `MACHINE_AREAS`, then its position. The properties validator admits
      only areas of the machine; the rank after the last area merely keeps
      the function total. */
  function DeviceKey(p: Properties): Key {
    Key(if p.area in MachineAreas then AreaIndex(p.area) else |MachineAreas|, p.position)
  }

  /** `sorted(d.items(), key=lambda item: item[1])`: items compared as
      their devices are. */
  function ByDevice(): ((string, Hardware)) -> Key {
    (item: (string, Hardware)) => DeviceKey(item.1.config.props)
  }

  /** Comparing the keys is comparing the devices with `<`. */
  lemma ByDeviceIsLess(a: Properties, b: Properties)
    requires a.area in MachineAreas && b.area in MachineAreas
    ensures KeyLess(DeviceKey(a), DeviceKey(b)) <==> Less(a, b)
  {
  }

  // ------------------------------------------------------------ names

  /** The index of the first device in the registry listing `name` among
      its aliases, or the registry's length when none does. */
  function FirstWithAlias(reg: Registry, name: string): (k: nat)
    ensures k <= |reg|
    ensures forall j :: 0 <= j < k ==> name !in reg[j].1.config.props.aliases
    ensures k < |reg| ==> name in reg[k].1.config.props.aliases
  {
    if reg == [] then 0
    else if name in reg[0].1.config.props.aliases then 0
    else 1 + FirstWithAlias(reg[1..], name)
  }

  /** `_name_exists`, as the pair's second half: `None` when not found. */
  function NameExists(reg: Registry, name: string): Option<Hardware> {
    if name == "" then None
    else if name in Keys(reg) then Lookup(reg, name)
    else
      var k := FirstWithAlias(reg, name);
      if k < |reg| then Some(reg[k].1) else None
  }

  /** An empty name is never found; a registry key gives its device;
      otherwise the first device, in registry order, listing the name as
      an alias, and nothing when no device does. */
  lemma NameExistsSpec(reg: Registry, name: string)
    ensures name == "" ==> NameExists(reg, name).None?
    ensures name != "" && name in Keys(reg) ==> NameExists(reg, name) == Lookup(reg, name) && NameExists(reg, name).Some?
    ensures name != "" && name !in Keys(reg) ==>
              (NameExists(reg, name).None? <==> forall i :: 0 <= i < |reg| ==> name !in reg[i].1.config.props.aliases)
    ensures name != "" && name !in Keys(reg) && NameExists(reg, name).Some? ==>
              exists i :: && 0 <= i < |reg| && NameExists(reg, name).value == reg[i].1
                          && name in reg[i].1.config.props.aliases
                          && forall j :: 0 <= j < i ==> name !in reg[j].1.config.props.aliases
  {
  }

  /** `get_hardware` with one name: an empty name is `HardwareNameNotProvided`,
      an unknown one `HardwareNameNotFound`. */
  function GetOne(reg: Registry, name: string): (r: Result<Hardware>)
    ensures r.Ok? <==> NameExists(reg, name).Some?
    ensures r.Ok? ==> NameExists(reg, name) == Some(r.value)
    ensures r.Err? ==> r.error == if name == "" then HardwareNameNotProvided else HardwareNameNotFound(name)
  {
    if name == "" then Err(HardwareNameNotProvided)
    else match NameExists(reg, name)
      case None => Err(HardwareNameNotFound(name))
      case Some(h) => Ok(h)
  }

  /** The index of the first name `_name_exists` does not find, or the
      number of names when it finds them all. */
  function FirstUnresolved(reg: Registry, names: seq<string>): (k: nat)
    ensures k <= |names|
    ensures forall j :: 0 <= j < k ==> NameExists(reg, names[j]).Some?
    ensures k < |names| ==> NameExists(reg, names[k]).None?
  {
    if names == [] then 0
    else if NameExists(reg, names[0]).None? then 0
    else 1 + FirstUnresolved(reg, names[1..])
  }

  /** The devices the names resolve to, in order (names that do not
      resolve contribute nothing). */
  function Resolutions(reg: Registry, names: seq<string>): seq<Hardware> {
    if names == [] then []
    else
      var last := NameExists(reg, names[|names| - 1]);
      Resolutions(reg, names[..|names| - 1]) + (if last.Some? then [last.value] else [])
  }

  lemma ResolutionsAll(reg: Registry, names: seq<string>)
    requires FirstUnresolved(reg, names) == |names|
    ensures |Resolutions(reg, names)| == |names|
    ensures forall i :: 0 <= i < |names| ==> NameExists(reg, names[i]) == Some(Resolutions(reg, names)[i])
  {
    ResolutionsFound(reg, names);
  }

  /** When every name is found, each resolves in its own place. */
  lemma {:induction false} ResolutionsFound(reg: Registry, names: seq<string>)
    requires forall j :: 0 <= j < |names| ==> NameExists(reg, names[j]).Some?
    ensures |Resolutions(reg, names)| == |names|
    ensures forall i :: 0 <= i < |names| ==> NameExists(reg, names[i]) == Some(Resolutions(reg, names)[i])
  {
    if names != [] {
      var n := |names| - 1;
      var init := names[..n];
      forall j | 0 <= j < |init|
        ensures NameExists(reg, init[j]).Some?
      {
        assert init[j] == names[j];
      }
      ResolutionsFound(reg, init);
      var r := Resolutions(reg, names);
      var r0 := Resolutions(reg, init);
      var last := NameExists(reg, names[n]);
      assert r == r0 + [last.value];
      forall i | 0 <= i < |names|
        ensures NameExists(reg, names[i]) == Some(r[i])
      {
        if i < n {
          assert init[i] == names[i] && r[i] == r0[i];
        }
      }
    }
  }

  lemma ResolutionsStep(reg: Registry, names: seq<string>, i: nat)
    requires i < |names| && NameExists(reg, names[i]).Some?
    ensures Resolutions(reg, names[..i + 1]) == Resolutions(reg, names[..i]) + [NameExists(reg, names[i]).value]
  {
    assert names[..i + 1][..i] == names[..i];
  }

  // ------------------------------------------------------------ keyed by name

  /** `{d.name: d for d in devices}` built by successive updates: the
      devices under their own names, a later device replacing an earlier
      one of the same name in that name's place. */
  function Gather(hs: seq<Hardware>): Registry {
    if hs == [] then []
    else
      var last := hs[|hs| - 1];
      Update(Gather(hs[..|hs| - 1]), NameOf(last), last)
  }

  lemma GatherStep(hs: seq<Hardware>, h: Hardware)
    ensures Gather(hs + [h]) == Update(Gather(hs), NameOf(h), h)
  {
    assert (hs + [h])[..|hs|] == hs;
  }

  /** Gathering gives one entry per distinct name ... */
  lemma {:induction false} GatherDistinct(hs: seq<Hardware>)
    ensures DistinctKeys(Gather(hs))
  {
    if hs != [] {
      var last := hs[|hs| - 1];
      GatherDistinct(hs[..|hs| - 1]);
      UpdateDistinct(Gather(hs[..|hs| - 1]), NameOf(last), last);
    }
  }

  /** ... the names being those of the devices ... */
  lemma {:induction false} GatherKeys(hs: seq<Hardware>)
    ensures forall k :: k in Keys(Gather(hs)) <==> exists i :: 0 <= i < |hs| && NameOf(hs[i]) == k
  {
    if hs != [] {
      var init := hs[..|hs| - 1];
      var last := hs[|hs| - 1];
      GatherKeys(init);
      UpdateKeys(Gather(init), NameOf(last), last);
      assert forall i :: 0 <= i < |init| ==> init[i] == hs[i];
      assert forall k :: k in Keys(Gather(hs)) <==> k in Keys(Gather(init)) || k == NameOf(last);
    }
  }

  /** ... and each entry holding one of the devices under its own name. */
  lemma {:induction false} GatherEntries(hs: seq<Hardware>)
    ensures forall j :: 0 <= j < |Gather(hs)| ==>
              Gather(hs)[j].1 in hs && Gather(hs)[j].0 == NameOf(Gather(hs)[j].1)
  {
    if hs != [] {
      var init := hs[..|hs| - 1];
      var last := hs[|hs| - 1];
      GatherEntries(init);
      var d0 := Gather(init);
      UpdateEntries(d0, NameOf(last), last);
      var d := Gather(hs);
      forall j | 0 <= j < |d|
        ensures d[j].1 in hs && d[j].0 == NameOf(d[j].1)
      {
        if d[j] != (NameOf(last), last) {
          var m :| 0 <= m < |d0| && d0[m] == d[j];
          assert d0[m].1 in init;
        }
      }
    }
  }

  /** The last device of a name is the one kept under it. */
  lemma {:induction false} GatherLast(hs: seq<Hardware>, i: nat)
    requires i < |hs|
    requires forall j :: i < j < |hs| ==> NameOf(hs[j]) != NameOf(hs[i])
    ensures Lookup(Gather(hs), NameOf(hs[i])) == Some(hs[i])
  {
    var init := hs[..|hs| - 1];
    var last := hs[|hs| - 1];
    if i < |hs| - 1 {
      assert forall j :: 0 <= j < |init| ==> init[j] == hs[j];
      GatherLast(init, i);
      UpdateOther(Gather(init), NameOf(last), last, NameOf(hs[i]));
    }
  }

  // ------------------------------------------------------------ get_hardware

  /** The names handed to `get_hardware`: none, one, or a list. */
  datatype Query = Nothing | ByName(name: string) | ByNames(names: seq<string>)

  /** Python's `not names`. */
  predicate NoQuery(q: Query) {
    q.Nothing? || q == ByName("") || q == ByNames([])
  }

  /** What `get_hardware` returns: one device, or a dictionary of them. */
  datatype Selection = Component(device: Hardware) | Components(devices: Registry)

  /** `get_hardware`: no name raises `HardwareNameNotProvided`; one name
      gives its device; a list gives its devices keyed by their own names,
      and raises `HardwareNameNotFound` for the first name not found. */
  method GetHardware(reg: Registry, q: Query) returns (r: Result<Selection>)
    ensures NoQuery(q) ==> r == Err(HardwareNameNotProvided)
    ensures q.ByName? && q.name != "" ==>
              r == match NameExists(reg, q.name)
                   case Some(h) => Ok(Component(h))
                   case None => Err(HardwareNameNotFound(q.name))
    ensures q.ByNames? && q.names != [] ==>
              var k := FirstUnresolved(reg, q.names);
              && (k < |q.names| ==> r == Err(HardwareNameNotFound(q.names[k])))
              && (k == |q.names| ==> r == Ok(Components(Gather(Resolutions(reg, q.names)))))
  {
    if NoQuery(q) {
      return Err(HardwareNameNotProvided);
    }
    if q.ByName? {
      var found := NameExists(reg, q.name);
      if found.None? {
        return Err(HardwareNameNotFound(q.name));
      }
      return Ok(Component(found.value));
    }
    var names := q.names;
    var d: Registry := [];
    var i := 0;
    while i < |names|
      invariant 0 <= i <= |names|
      invariant forall j :: 0 <= j < i ==> NameExists(reg, names[j]).Some?
      invariant d == Gather(Resolutions(reg, names[..i]))
    {
      var found := NameExists(reg, names[i]);
      if found.None? {
        FirstUnresolvedIs(reg, names, i);
        return Err(HardwareNameNotFound(names[i]));
      }
      ResolutionsStep(reg, names, i);
      GatherStep(Resolutions(reg, names[..i]), found.value);
      d := Update(d, NameOf(found.value), found.value);
      assert d == Gather(Resolutions(reg, names[..i + 1]));
      assert forall j :: 0 <= j < i + 1 ==> NameExists(reg, names[j]).Some?;
      i := i + 1;
    }
    assert names[..i] == names;
    FirstUnresolvedIs(reg, names, i);
    return Ok(Components(d));
  }

  /** The dictionary `get_hardware` returns for a list of names it all
      finds has one entry per device found, under the device's own name:
      a name and its alias collapse into one entry. */
  lemma ResolvedRegistry(reg: Registry, names: seq<string>)
    requires FirstUnresolved(reg, names) == |names|
    ensures var d := Gather(Resolutions(reg, names));
            && DistinctKeys(d)
            && (forall k :: k in Keys(d) <==> exists i :: 0 <= i < |names| && NameOf(NameExists(reg, names[i]).value) == k)
            && (forall j :: 0 <= j < |d| ==>
                  d[j].0 == NameOf(d[j].1) && exists i :: 0 <= i < |names| && NameExists(reg, names[i]) == Some(d[j].1))
  {
    ResolutionsAll(reg, names);
    GatherDistinct(Resolutions(reg, names));
    GatherKeys(Resolutions(reg, names));
    GatherEntries(Resolutions(reg, names));
  }

  /** Two names of the same device, say its name and one of its aliases,
      give a dictionary of one entry. */
  lemma AliasesCollapse(reg: Registry, a: string, b: string)
    requires NameExists(reg, a).Some? && NameExists(reg, a) == NameExists(reg, b)
    ensures var h := NameExists(reg, a).value;
            Gather(Resolutions(reg, [a, b])) == [(NameOf(h), h)]
  {
    var h := NameExists(reg, a).value;
    ResolutionsStep(reg, [a, b], 0);
    ResolutionsStep(reg, [a, b], 1);
    assert [a, b][..0] == [] && [a, b][..2] == [a, b];
    assert Resolutions(reg, [a, b]) == [h, h];
    GatherStep([], h);
    GatherStep([h], h);
    assert [] + [h] == [h] && [h] + [h] == [h, h];
  }

  // ------------------------------------------------------------ filters

  /** What a filter keeps: the devices of one machine area, or the devices
      of one subtype. */
  datatype Criterion = InArea(area: MachineArea) | OfSubtype(subtype: string)

  /** An empty subtype keeps nothing: `_get_by_subtype` tests `if subtype:`
      before looking at any device. */
  predicate Keeps(c: Criterion, p: Properties) {
    match c
    case InArea(a) => p.area == a
    case OfSubtype(s) => s != "" && p.subtype == Some(s)
  }

  /** The key a filter's group goes under: the area's name, or the subtype. */
  function Label(c: Criterion): string {
    match c
    case InArea(a) => a.name
    case OfSubtype(s) => s
  }

  /** The devices of the registry a filter keeps, in registry order. */
  function Members(reg: Registry, c: Criterion): seq<Hardware> {
    if reg == [] then []
    else
      var last := reg[|reg| - 1].1;
      Members(reg[..|reg| - 1], c) + (if Keeps(c, last.config.props) then [last] else [])
  }

  lemma MembersStep(reg: Registry, c: Criterion, i: nat)
    requires i < |reg|
    ensures Members(reg[..i + 1], c) ==
            Members(reg[..i], c) + (if Keeps(c, reg[i].1.config.props) then [reg[i].1] else [])
  {
    assert reg[..i + 1][..i] == reg[..i];
  }

  /** Every member is a device of the registry the filter keeps ... */
  lemma {:induction false} MembersSound(reg: Registry, c: Criterion)
    ensures forall m :: 0 <= m < |Members(reg, c)| ==>
              Keeps(c, Members(reg, c)[m].config.props) &&
              exists i :: 0 <= i < |reg| && reg[i].1 == Members(reg, c)[m]
  {
    if reg != [] {
      var init := reg[..|reg| - 1];
      MembersSound(init, c);
      var mi := Members(init, c);
      var ms := Members(reg, c);
      forall m | 0 <= m < |ms|
        ensures Keeps(c, ms[m].config.props) && exists i :: 0 <= i < |reg| && reg[i].1 == ms[m]
      {
        if m < |mi| {
          assert ms[m] == mi[m];
          var i :| 0 <= i < |init| && init[i].1 == mi[m];
          assert reg[i] == init[i];
        } else {
          assert ms[m] == reg[|reg| - 1].1;
        }
      }
    }
  }

  /** ... and every device of the registry the filter keeps is a member. */
  lemma {:induction false} MembersComplete(reg: Registry, c: Criterion, i: nat)
    requires i < |reg| && Keeps(c, reg[i].1.config.props)
    ensures exists m :: 0 <= m < |Members(reg, c)| && Members(reg, c)[m] == reg[i].1
  {
    var init := reg[..|reg| - 1];
    var ms := Members(reg, c);
    if i < |init| {
      MembersComplete(init, c, i);
      var m :| 0 <= m < |Members(init, c)| && Members(init, c)[m] == init[i].1;
      assert ms[m] == reg[i].1;
    } else {
      assert ms[|ms| - 1] == reg[i].1;
    }
  }

  /** The devices a filter keeps, under their own names: the inner
      dictionary of `_get_by_area` and `_get_by_subtype`. */
  function Group(reg: Registry, c: Criterion): Registry {
    Gather(Members(reg, c))
  }

  lemma GroupHasKept(reg: Registry, c: Criterion, i: nat)
    requires i < |reg| && Keeps(c, reg[i].1.config.props)
    ensures NameOf(reg[i].1) in Keys(Group(reg, c))
  {
    var ms := Members(reg, c);
    MembersComplete(reg, c, i);
    GatherKeys(ms);
    var m :| 0 <= m < |ms| && ms[m] == reg[i].1;
    assert NameOf(ms[m]) == NameOf(reg[i].1);
  }

  lemma GroupKeptOnly(reg: Registry, c: Criterion, k: string)
    requires k in Keys(Group(reg, c))
    ensures exists i :: 0 <= i < |reg| && Keeps(c, reg[i].1.config.props) && NameOf(reg[i].1) == k
  {
    var ms := Members(reg, c);
    MembersSound(reg, c);
    GatherKeys(ms);
    var m :| 0 <= m < |ms| && NameOf(ms[m]) == k;
    var i :| 0 <= i < |reg| && reg[i].1 == ms[m];
    assert Keeps(c, reg[i].1.config.props);
  }

  /** A group holds exactly the devices the filter keeps, each name
      once ... */
  lemma GroupKeys(reg: Registry, c: Criterion)
    ensures DistinctKeys(Group(reg, c))
    ensures forall k :: k in Keys(Group(reg, c)) <==>
              exists i :: 0 <= i < |reg| && Keeps(c, reg[i].1.config.props) && NameOf(reg[i].1) == k
  {
    GatherDistinct(Members(reg, c));
    forall i | 0 <= i < |reg| && Keeps(c, reg[i].1.config.props)
      ensures NameOf(reg[i].1) in Keys(Group(reg, c))
    {
      GroupHasKept(reg, c, i);
    }
    forall k | k in Keys(Group(reg, c))
      ensures exists i :: 0 <= i < |reg| && Keeps(c, reg[i].1.config.props) && NameOf(reg[i].1) == k
    {
      GroupKeptOnly(reg, c, k);
    }
  }

  /** ... under its own name. */
  lemma GroupEntries(reg: Registry, c: Criterion)
    ensures forall j :: 0 <= j < |Group(reg, c)| ==>
              && Group(reg, c)[j].0 == NameOf(Group(reg, c)[j].1)
              && Keeps(c, Group(reg, c)[j].1.config.props)
              && exists i :: 0 <= i < |reg| && reg[i].1 == Group(reg, c)[j].1
  {
    var ms := Members(reg, c);
    MembersSound(reg, c);
    GatherEntries(ms);
    var d := Group(reg, c);
    forall j | 0 <= j < |d|
      ensures Keeps(c, d[j].1.config.props) && exists i :: 0 <= i < |reg| && reg[i].1 == d[j].1
    {
      var m :| 0 <= m < |ms| && ms[m] == d[j].1;
    }
  }

  /** What `_get_by_area` and `_get_by_subtype` return: the group alone,
      or the group under its label. */
  datatype Listing = Grouped(groups: ODict<Registry>) | Flat(devices: Registry)

  function Filtered(reg: Registry, c: Criterion, grouped: bool): Listing {
    if grouped then Grouped([(Label(c), Group(reg, c))]) else Flat(Group(reg, c))
  }

  /** `_get_by_area` (and `_get_by_subtype` for a non-empty subtype): one
      pass over the registry adding each device the filter keeps under its
      name, into the group under the label or straight into the result. */
  method GetByCriterion(reg: Registry, c: Criterion, grouped: bool) returns (r: Listing)
    ensures r == Filtered(reg, c, grouped)
  {
    var inner: Registry := [];
    var i := 0;
    while i < |reg|
      invariant 0 <= i <= |reg|
      invariant inner == Gather(Members(reg[..i], c))
    {
      var h := reg[i].1;
      MembersStep(reg, c, i);
      if Keeps(c, h.config.props) {
        assert Members(reg[..i + 1], c) == Members(reg[..i], c) + [h];
        GatherStep(Members(reg[..i], c), h);
        inner := Update(inner, NameOf(h), h);
        assert inner == Gather(Members(reg[..i + 1], c));
      } else {
        assert Members(reg[..i + 1], c) == Members(reg[..i], c) + [];
        assert Members(reg[..i + 1], c) == Members(reg[..i], c);
        assert inner == Gather(Members(reg[..i + 1], c));
      }
      i := i + 1;
    }
    assert reg[..i] == reg;
    r := if grouped then Grouped([(Label(c), inner)]) else Flat(inner);
  }

  lemma {:induction false} EmptySubtypeKeepsNothing(reg: Registry)
    ensures Members(reg, OfSubtype("")) == []
  {
    if reg != [] {
      EmptySubtypeKeepsNothing(reg[..|reg| - 1]);
    }
  }

  /** `_get_by_subtype`: no subtype raises `MachineAreaNotProvided`; an
      empty one yields an empty group (or nothing). */
  method GetBySubtype(reg: Registry, subtype: Option<string>, grouped: bool) returns (r: Result<Listing>)
    ensures subtype.None? ==> r == Err(MachineAreaNotProvided)
    ensures subtype == Some("") ==> r == Ok(if grouped then Grouped([("", [])]) else Flat([]))
    ensures subtype.Some? ==> r == Ok(Filtered(reg, OfSubtype(subtype.value), grouped))
  {
    if subtype.None? {
      return Err(MachineAreaNotProvided);
    }
    if subtype.value == "" {
      EmptySubtypeKeepsNothing(reg);
      return Ok(if grouped then Grouped([("", [])]) else Flat([]));
    }
    var listing := GetByCriterion(reg, OfSubtype(subtype.value), grouped);
    return Ok(listing);
  }

  // ------------------------------------------------------------ several filters

  /** The results of several filters merged by `d.update(...)`, one
      criterion after another: with the labels as keys ... */
  function GroupsOf(reg: Registry, cs: seq<Criterion>): ODict<Registry> {
    if cs == [] then []
    else
      var c := cs[|cs| - 1];
      Update(GroupsOf(reg, cs[..|cs| - 1]), Label(c), Group(reg, c))
  }

  /** ... or the devices alone. */
  function FlatOf(reg: Registry, cs: seq<Criterion>): Registry {
    if cs == [] then []
    else
      var c := cs[|cs| - 1];
      UpdateAll(FlatOf(reg, cs[..|cs| - 1]), Group(reg, c))
  }

  function Collected(reg: Registry, cs: seq<Criterion>, grouped: bool): Listing {
    if grouped then Grouped(GroupsOf(reg, cs)) else Flat(FlatOf(reg, cs))
  }

  /** `d.update(e)` on two results of the same shape. */
  function Merge(acc: Listing, part: Listing): Listing {
    match (acc, part)
    case (Grouped(a), Grouped(b)) => Grouped(UpdateAll(a, b))
    case (Flat(a), Flat(b)) => Flat(UpdateAll(a, b))
    case _ => acc
  }

  /** Merging the result of one more filter is collecting one more criterion. */
  lemma CollectedStep(reg: Registry, cs: seq<Criterion>, c: Criterion, grouped: bool)
    ensures Collected(reg, cs + [c], grouped) == Merge(Collected(reg, cs, grouped), Filtered(reg, c, grouped))
  {
    assert (cs + [c])[..|cs|] == cs;
    var e := [(Label(c), Group(reg, c))];
    var d := GroupsOf(reg, cs);
    assert e[1..] == [];
    assert UpdateAll(d, e) == UpdateAll(Update(d, Label(c), Group(reg, c)), []);
  }

  lemma InSnoc(cs: seq<Criterion>, x: Criterion)
    requires cs != []
    ensures x in cs <==> x in cs[..|cs| - 1] || x == cs[|cs| - 1]
  {
    assert cs == cs[..|cs| - 1] + [cs[|cs| - 1]];
  }

  /** The groups collected hold one entry per label, the labels of the
      criteria ... */
  lemma {:induction false} GroupsOfKeys(reg: Registry, cs: seq<Criterion>)
    ensures DistinctKeys(GroupsOf(reg, cs))
    ensures forall k :: k in Keys(GroupsOf(reg, cs)) <==> exists c :: c in cs && Label(c) == k
  {
    if cs != [] {
      var init := cs[..|cs| - 1];
      var c := cs[|cs| - 1];
      var prev := GroupsOf(reg, init);
      GroupsOfKeys(reg, init);
      forall x
        ensures x in cs <==> x in init || x == c
      {
        InSnoc(cs, x);
      }
      UpdateDistinct(prev, Label(c), Group(reg, c));
      UpdateKeys(prev, Label(c), Group(reg, c));
    }
  }

  /** The criterion a label stands for, when all criteria are of one kind. */
  function Relabel(byArea: bool, k: string): (c: Criterion)
    ensures Label(c) == k
  {
    if byArea then InArea(MachineArea(k)) else OfSubtype(k)
  }

  /** Every criterion is the one its label stands for. */
  predicate OneKind(cs: seq<Criterion>, byArea: bool) {
    forall c :: c in cs ==> c == Relabel(byArea, Label(c))
  }

  /** ... each entry holding the group its label stands for. */
  lemma {:induction false} GroupsOfEntries(reg: Registry, cs: seq<Criterion>, byArea: bool)
    requires OneKind(cs, byArea)
    ensures forall j :: 0 <= j < |GroupsOf(reg, cs)| ==>
              GroupsOf(reg, cs)[j].1 == Group(reg, Relabel(byArea, GroupsOf(reg, cs)[j].0))
  {
    if cs != [] {
      var init := cs[..|cs| - 1];
      var c := cs[|cs| - 1];
      forall x | x in init
        ensures x in cs
      {
        InSnoc(cs, x);
      }
      GroupsOfEntries(reg, init, byArea);
      InSnoc(cs, c);
      UpdateEntries(GroupsOf(reg, init), Label(c), Group(reg, c));
    }
  }

  /** Some criterion of `cs` keeps the device. */
  predicate KeptBy(cs: seq<Criterion>, p: Properties) {
    exists c :: c in cs && Keeps(c, p)
  }

  lemma KeptBySnoc(cs: seq<Criterion>, p: Properties)
    requires cs != []
    ensures KeptBy(cs, p) <==> KeptBy(cs[..|cs| - 1], p) || Keeps(cs[|cs| - 1], p)
  {
    assert cs == cs[..|cs| - 1] + [cs[|cs| - 1]];
  }

  lemma {:induction false} FlatOfDistinct(reg: Registry, cs: seq<Criterion>)
    ensures DistinctKeys(FlatOf(reg, cs))
  {
    if cs != [] {
      FlatOfDistinct(reg, cs[..|cs| - 1]);
      UpdateAllSpec(FlatOf(reg, cs[..|cs| - 1]), Group(reg, cs[|cs| - 1]));
    }
  }

  lemma {:induction false} FlatOfHas(reg: Registry, cs: seq<Criterion>, i: nat)
    requires i < |reg| && KeptBy(cs, reg[i].1.config.props)
    ensures NameOf(reg[i].1) in Keys(FlatOf(reg, cs))
  {
    var init := cs[..|cs| - 1];
    var c := cs[|cs| - 1];
    var prev := FlatOf(reg, init);
    KeptBySnoc(cs, reg[i].1.config.props);
    FlatOfDistinct(reg, init);
    UpdateAllSpec(prev, Group(reg, c));
    if KeptBy(init, reg[i].1.config.props) {
      FlatOfHas(reg, init, i);
    } else {
      GroupHasKept(reg, c, i);
    }
  }

  lemma {:induction false} FlatOfOnly(reg: Registry, cs: seq<Criterion>, k: string)
    requires k in Keys(FlatOf(reg, cs))
    ensures exists i :: 0 <= i < |reg| && KeptBy(cs, reg[i].1.config.props) && NameOf(reg[i].1) == k
  {
    var init := cs[..|cs| - 1];
    var c := cs[|cs| - 1];
    var prev := FlatOf(reg, init);
    FlatOfDistinct(reg, init);
    UpdateAllSpec(prev, Group(reg, c));
    if k in Keys(prev) {
      FlatOfOnly(reg, init, k);
      var i :| 0 <= i < |reg| && KeptBy(init, reg[i].1.config.props) && NameOf(reg[i].1) == k;
      KeptBySnoc(cs, reg[i].1.config.props);
    } else {
      GroupKeptOnly(reg, c, k);
      var i :| 0 <= i < |reg| && Keeps(c, reg[i].1.config.props) && NameOf(reg[i].1) == k;
      KeptBySnoc(cs, reg[i].1.config.props);
    }
  }

  /** The devices collected are, each under its name, those of the
      registry that some criterion keeps ... */
  lemma FlatOfKeys(reg: Registry, cs: seq<Criterion>)
    ensures DistinctKeys(FlatOf(reg, cs))
    ensures forall k :: k in Keys(FlatOf(reg, cs)) <==>
              exists i :: 0 <= i < |reg| && KeptBy(cs, reg[i].1.config.props) && NameOf(reg[i].1) == k
  {
    FlatOfDistinct(reg, cs);
    if cs != [] {
      forall i | 0 <= i < |reg| && KeptBy(cs, reg[i].1.config.props)
        ensures NameOf(reg[i].1) in Keys(FlatOf(reg, cs))
      {
        FlatOfHas(reg, cs, i);
      }
      forall k | k in Keys(FlatOf(reg, cs))
        ensures exists i :: 0 <= i < |reg| && KeptBy(cs, reg[i].1.config.props) && NameOf(reg[i].1) == k
      {
        FlatOfOnly(reg, cs, k);
      }
    }
  }

  /** ... and every entry is such a device, under its own name. */
  lemma {:induction false} FlatOfEntries(reg: Registry, cs: seq<Criterion>)
    ensures forall j :: 0 <= j < |FlatOf(reg, cs)| ==>
              && FlatOf(reg, cs)[j].0 == NameOf(FlatOf(reg, cs)[j].1)
              && KeptBy(cs, FlatOf(reg, cs)[j].1.config.props)
              && exists i :: 0 <= i < |reg| && reg[i].1 == FlatOf(reg, cs)[j].1
  {
    if cs != [] {
      var init := cs[..|cs| - 1];
      var c := cs[|cs| - 1];
      var prev := FlatOf(reg, init);
      FlatOfEntries(reg, init);
      FlatOfDistinct(reg, init);
      var g := Group(reg, c);
      UpdateAllSpec(prev, g);
      GroupEntries(reg, c);
      var r := FlatOf(reg, cs);
      forall j | 0 <= j < |r|
        ensures r[j].0 == NameOf(r[j].1) && KeptBy(cs, r[j].1.config.props)
        ensures exists i :: 0 <= i < |reg| && reg[i].1 == r[j].1
      {
        KeptBySnoc(cs, r[j].1.config.props);
        if r[j] in prev {
          var m :| 0 <= m < |prev| && prev[m] == r[j];
        } else {
          var m :| 0 <= m < |g| && g[m] == r[j];
        }
      }
    }
  }

  /** Sorting the collected groups keeps one entry per label, each holding
      the group the label stands for. */
  lemma SortedGroups(reg: Registry, cs: seq<Criterion>, byArea: bool, key: ((string, Registry)) -> Key)
    requires OneKind(cs, byArea)
    ensures var g := Sort(GroupsOf(reg, cs), key);
            && DistinctKeys(g)
            && (forall k :: k in Keys(g) <==> exists c :: c in cs && Label(c) == k)
            && (forall j :: 0 <= j < |g| ==> g[j].1 == Group(reg, Relabel(byArea, g[j].0)))
  {
    var d := GroupsOf(reg, cs);
    GroupsOfKeys(reg, cs);
    GroupsOfEntries(reg, cs, byArea);
    SortKeepsDistinctKeys(d, key);
    SortKeys(d, key);
    SortEntries(d, key);
  }

  /** Sorting the collected devices keeps each of them under its name, and
      puts them in device order: no device of the machine's areas is
      followed by one that is less. */
  lemma SortedDevices(reg: Registry, cs: seq<Criterion>)
    ensures var d := Sort(FlatOf(reg, cs), ByDevice());
            && DistinctKeys(d)
            && (forall k :: k in Keys(d) <==>
                  exists i :: 0 <= i < |reg| && KeptBy(cs, reg[i].1.config.props) && NameOf(reg[i].1) == k)
            && (forall j :: 0 <= j < |d| ==>
                  && d[j].0 == NameOf(d[j].1)
                  && KeptBy(cs, d[j].1.config.props)
                  && exists i :: 0 <= i < |reg| && reg[i].1 == d[j].1)
            && (forall j, l :: 0 <= j < l < |d| && d[j].1.config.props.area in MachineAreas && d[l].1.config.props.area in MachineAreas ==>
                  !Less(d[l].1.config.props, d[j].1.config.props))
  {
    var f := FlatOf(reg, cs);
    FlatOfKeys(reg, cs);
    FlatOfEntries(reg, cs);
    SortKeepsDistinctKeys(f, ByDevice());
    SortKeys(f, ByDevice());
    SortEntries(f, ByDevice());
    SortSpec(f, ByDevice());
    var d := Sort(f, ByDevice());
    forall j | 0 <= j < |d|
      ensures && d[j].0 == NameOf(d[j].1)
              && KeptBy(cs, d[j].1.config.props)
              && exists i :: 0 <= i < |reg| && reg[i].1 == d[j].1
    {
      var m :| 0 <= m < |f| && f[m] == d[j];
    }
    forall j, l | 0 <= j < l < |d| && d[j].1.config.props.area in MachineAreas && d[l].1.config.props.area in MachineAreas
      ensures !Less(d[l].1.config.props, d[j].1.config.props)
    {
      assert !KeyLess(ByDevice()(d[l]), ByDevice()(d[j]));
      ByDeviceIsLess(d[l].1.config.props, d[j].1.config.props);
    }
  }

  // ------------------------------------------------------------ by area

  /** What a caller may hand to `get_hardware_by_area`: nothing, one area,
      a list, or any other value (a string among them). */
  datatype AreasArg = NoAreas | OneArea(area: MachineArea) | AreaList(items: seq<AreaArg>) | OtherAreas

  /** `[_string_to_machine_area(area) for area in machine_areas]`: the
      first `None` in the list raises `ValueError`; a value that is neither
      a string nor an area becomes `None`. */
  function CoerceAreas(items: seq<AreaArg>): (r: Result<seq<Option<MachineArea>>>)
    ensures r.Err? <==> exists i :: 0 <= i < |items| && items[i].NoArea?
    ensures r.Err? ==> r.error == ValueError
    ensures r.Ok? ==> |r.value| == |items|
    ensures r.Ok? ==> forall i :: 0 <= i < |items| ==> Ok(r.value[i]) == StringToMachineArea(items[i])
  {
    if items == [] then Ok([])
    else
      var head := StringToMachineArea(items[0]);
      var rest := CoerceAreas(items[1..]);
      if head.Err? then Err(head.error)
      else if rest.Err? then Err(rest.error)
      else
        assert forall i :: 1 <= i < |items| ==> items[i] == items[1..][i - 1];
        Ok([head.value] + rest.value)
  }

  /** An area of `areas` the coerced list holds. */
  predicate AreaChosen(checks: seq<Option<MachineArea>>, areas: seq<MachineArea>, a: MachineArea) {
    a in areas && Some(a) in checks
  }

  /** `for area in MACHINE_AREAS: if area in _areas_to_check`: the filters
      the list asks for, in the order of `areas`. */
  function AreaCriteria(checks: seq<Option<MachineArea>>, areas: seq<MachineArea>): seq<Criterion> {
    if areas == [] then []
    else
      var a := areas[|areas| - 1];
      AreaCriteria(checks, areas[..|areas| - 1]) + (if Some(a) in checks then [InArea(a)] else [])
  }

  lemma {:induction false} AreaCriteriaSpec(checks: seq<Option<MachineArea>>, areas: seq<MachineArea>)
    ensures OneKind(AreaCriteria(checks, areas), true)
    ensures forall c :: c in AreaCriteria(checks, areas) <==> c.InArea? && AreaChosen(checks, areas, c.area)
  {
    if areas != [] {
      var init := areas[..|areas| - 1];
      var a := areas[|areas| - 1];
      AreaCriteriaSpec(checks, init);
      assert areas == init + [a];
    }
  }

  /** `s.index(x)`: the place of the first occurrence of `x`. Every key
      sorted by it here occurs; the place after the last merely keeps the
      function total. */
  function Rank<T(==)>(s: seq<T>, x: T): (i: nat)
    ensures x in s ==> i < |s| && s[i] == x
  {
    if x in s then IndexOf(s, x) else |s|
  }

  /** `sorted(d.items(), key=lambda x: MACHINE_AREAS.index(_string_to_machine_area(x[0])))`,
      for the list of areas `areas`. */
  function ByAreaRank(areas: seq<MachineArea>): ((string, Registry)) -> Key {
    (item: (string, Registry)) => Key(Rank(areas, MachineArea(item.0)), 0.0)
  }

  /** The result of `get_hardware_by_area` for a list, `areas` being
      `MACHINE_AREAS`: the groups of the chosen areas sorted by area, or
      their devices sorted as devices. */
  function AreaListing(reg: Registry, checks: seq<Option<MachineArea>>, areas: seq<MachineArea>, withAreas: bool): Listing {
    var cs := AreaCriteria(checks, areas);
    if withAreas then Grouped(Sort(GroupsOf(reg, cs), ByAreaRank(areas))) else Flat(Sort(FlatOf(reg, cs), ByDevice()))
  }

  /** The loop of `get_hardware_by_area` over `areas`: the result of the
      filter of every area the coerced list holds, merged in turn, then
      sorted. */
  method CollectByArea(reg: Registry, checks: seq<Option<MachineArea>>, areas: seq<MachineArea>, withAreas: bool)
    returns (r: Listing)
    ensures r == AreaListing(reg, checks, areas, withAreas)
  {
    var acc := if withAreas then Grouped([]) else Flat([]);
    var i := 0;
    while i < |areas|
      invariant 0 <= i <= |areas|
      invariant acc == Collected(reg, AreaCriteria(checks, areas[..i]), withAreas)
    {
      var a := areas[i];
      assert areas[..i + 1][..i] == areas[..i];
      if Some(a) in checks {
        assert AreaCriteria(checks, areas[..i + 1]) == AreaCriteria(checks, areas[..i]) + [InArea(a)];
        CollectedStep(reg, AreaCriteria(checks, areas[..i]), InArea(a), withAreas);
        var part := GetByCriterion(reg, InArea(a), withAreas);
        acc := Merge(acc, part);
      } else {
        assert AreaCriteria(checks, areas[..i + 1]) == AreaCriteria(checks, areas[..i]) + [];
        assert AreaCriteria(checks, areas[..i + 1]) == AreaCriteria(checks, areas[..i]);
      }
      i := i + 1;
    }
    assert areas[..i] == areas;
    match acc
    case Grouped(g) =>
      r := Grouped(Sort(g, ByAreaRank(areas)));
    case Flat(d) =>
      r := Flat(Sort(d, ByDevice()));
  }

  /** `get_hardware_by_area`. Nothing, an empty list or a value that is
      neither an area nor a list raises `MachineAreaNotProvided`; one area
      not of the machine raises `MachineAreaNotFound`, and one of the
      machine is filtered by; a list is coerced (its `None` raising
      `ValueError`) and every area of the machine it names, taken in
      machine order, contributes its filter's result. */
  method GetHardwareByArea(reg: Registry, arg: AreasArg, withAreas: bool) returns (r: Result<Listing>)
    ensures arg.NoAreas? || arg.OtherAreas? || arg == AreaList([]) ==> r == Err(MachineAreaNotProvided)
    ensures arg.OneArea? && arg.area !in MachineAreas ==> r == Err(MachineAreaNotFound(arg.area.name))
    ensures arg.OneArea? && arg.area in MachineAreas ==> r == Ok(Filtered(reg, InArea(arg.area), withAreas))
    ensures arg.AreaList? && arg.items != [] && CoerceAreas(arg.items).Err? ==> r == Err(ValueError)
    ensures arg.AreaList? && arg.items != [] && CoerceAreas(arg.items).Ok? ==>
              r == Ok(AreaListing(reg, CoerceAreas(arg.items).value, MachineAreas, withAreas))
  {
    match arg
    case NoAreas =>
      return Err(MachineAreaNotProvided);
    case OtherAreas =>
      return Err(MachineAreaNotProvided);
    case OneArea(a) =>
      if a !in MachineAreas {
        return Err(MachineAreaNotFound(a.name));
      }
      var listing := GetByCriterion(reg, InArea(a), withAreas);
      return Ok(listing);
    case AreaList(items) =>
      if items == [] {
        return Err(MachineAreaNotProvided);
      }
      var coerced := CoerceAreas(items);
      if coerced.Err? {
        return Err(coerced.error);
      }
      var listing := CollectByArea(reg, coerced.value, MachineAreas, withAreas);
      return Ok(listing);
  }

  /** `get_hardware_by_area` with the areas as keys: one entry per area of
      `areas` the list names, under the area's name, holding the devices of
      that area ... */
  lemma GroupedByArea(reg: Registry, checks: seq<Option<MachineArea>>, areas: seq<MachineArea>)
    ensures var g := AreaListing(reg, checks, areas, true).groups;
            && DistinctKeys(g)
            && (forall k :: k in Keys(g) <==> exists a :: AreaChosen(checks, areas, a) && a.name == k)
            && (forall j :: 0 <= j < |g| ==> g[j].1 == Group(reg, InArea(MachineArea(g[j].0))))
  {
    var cs := AreaCriteria(checks, areas);
    AreaCriteriaSpec(checks, areas);
    SortedGroups(reg, cs, true, ByAreaRank(areas));
    var g := AreaListing(reg, checks, areas, true).groups;
    forall k
      ensures k in Keys(g) <==> exists a :: AreaChosen(checks, areas, a) && a.name == k
    {
      if k in Keys(g) {
        var c :| c in cs && Label(c) == k;
        assert AreaChosen(checks, areas, c.area);
      }
      if exists a :: AreaChosen(checks, areas, a) && a.name == k {
        var a :| AreaChosen(checks, areas, a) && a.name == k;
        assert InArea(a) in cs && Label(InArea(a)) == k;
      }
    }
  }

  /** Two names of areas of `areas` have the same rank only if they are
      the same name. */
  lemma RankSeparates(areas: seq<MachineArea>, x: string, y: string)
    requires MachineArea(x) in areas && MachineArea(y) in areas && x != y
    ensures Rank(areas, MachineArea(x)) != Rank(areas, MachineArea(y))
  {
  }

  /** ... and the entries follow the order of `areas`. */
  lemma GroupedByAreaOrdered(reg: Registry, checks: seq<Option<MachineArea>>, areas: seq<MachineArea>)
    ensures var g := AreaListing(reg, checks, areas, true).groups;
            forall j, l :: 0 <= j < l < |g| ==> Rank(areas, MachineArea(g[j].0)) < Rank(areas, MachineArea(g[l].0))
  {
    var g := AreaListing(reg, checks, areas, true).groups;
    GroupedByArea(reg, checks, areas);
    SortSpec(GroupsOf(reg, AreaCriteria(checks, areas)), ByAreaRank(areas));
    forall j | 0 <= j < |g|
      ensures MachineArea(g[j].0) in areas
    {
      assert g[j].0 in Keys(g);
      var a :| AreaChosen(checks, areas, a) && a.name == g[j].0;
      assert MachineArea(g[j].0) == a;
    }
    forall j, l | 0 <= j < l < |g|
      ensures Rank(areas, MachineArea(g[j].0)) < Rank(areas, MachineArea(g[l].0))
    {
      assert !KeyLess(ByAreaRank(areas)(g[l]), ByAreaRank(areas)(g[j]));
      RankSeparates(areas, g[j].0, g[l].0);
    }
  }

  /** A device is kept by one of the area filters exactly when its area
      is chosen. */
  lemma AreaKeptBy(checks: seq<Option<MachineArea>>, areas: seq<MachineArea>, p: Properties)
    ensures KeptBy(AreaCriteria(checks, areas), p) <==> AreaChosen(checks, areas, p.area)
  {
    AreaCriteriaSpec(checks, areas);
    if AreaChosen(checks, areas, p.area) {
      assert InArea(p.area) in AreaCriteria(checks, areas) && Keeps(InArea(p.area), p);
    }
  }

  /** `get_hardware_by_area` without the areas as keys: the devices of the
      registry whose area the list names, each under its own name, in
      device order. */
  lemma FlatByArea(reg: Registry, checks: seq<Option<MachineArea>>, areas: seq<MachineArea>)
    ensures var d := AreaListing(reg, checks, areas, false).devices;
            && DistinctKeys(d)
            && (forall k :: k in Keys(d) <==>
                  exists i :: 0 <= i < |reg| && AreaChosen(checks, areas, reg[i].1.config.props.area) && NameOf(reg[i].1) == k)
            && (forall j :: 0 <= j < |d| ==>
                  && d[j].0 == NameOf(d[j].1)
                  && AreaChosen(checks, areas, d[j].1.config.props.area)
                  && exists i :: 0 <= i < |reg| && reg[i].1 == d[j].1)
            && (forall j, l :: 0 <= j < l < |d| && d[j].1.config.props.area in MachineAreas && d[l].1.config.props.area in MachineAreas ==>
                  !Less(d[l].1.config.props, d[j].1.config.props))
  {
    var cs := AreaCriteria(checks, areas);
    SortedDevices(reg, cs);
    forall p: Properties
      ensures KeptBy(cs, p) <==> AreaChosen(checks, areas, p.area)
    {
      AreaKeptBy(checks, areas, p);
    }
  }

  // ------------------------------------------------------------ by subtype

  /** What a caller may hand to `get_hardware_by_subtype`: nothing, one
      subtype, a list of subtypes, or any other value. */
  datatype SubtypesArg = NoSubtypes | OneSubtype(subtype: string) | SubtypeList(items: seq<string>) | OtherSubtypes

  /** `for subtype in valid_subtypes: if subtype in _types_to_check`: the
      filters the list asks for, in the order of the valid subtypes. */
  function SubtypeCriteria(items: seq<string>, valid: seq<string>): seq<Criterion> {
    if valid == [] then []
    else
      var st := valid[|valid| - 1];
      SubtypeCriteria(items, valid[..|valid| - 1]) + (if st in items then [OfSubtype(st)] else [])
  }

  lemma {:induction false} SubtypeCriteriaSpec(items: seq<string>, valid: seq<string>)
    ensures OneKind(SubtypeCriteria(items, valid), false)
    ensures forall c :: c in SubtypeCriteria(items, valid) <==> c.OfSubtype? && c.subtype in valid && c.subtype in items
  {
    if valid != [] {
      var init := valid[..|valid| - 1];
      SubtypeCriteriaSpec(items, init);
      assert valid == init + [valid[|valid| - 1]];
    }
  }

  /** `sorted(d.items(), key=lambda x: subtypes.index(x[0]))`. */
  function ByListPosition(items: seq<string>): ((string, Registry)) -> Key {
    (item: (string, Registry)) => Key(Rank(items, item.0), 0.0)
  }

  /** The result of `get_hardware_by_subtype` for a list: the groups of the
      valid subtypes the list names, sorted by their place in the list,
      or their devices sorted as devices. */
  function SubtypeListing(reg: Registry, items: seq<string>, valid: seq<string>, grouped: bool): Listing {
    var cs := SubtypeCriteria(items, valid);
    if grouped then Grouped(Sort(GroupsOf(reg, cs), ByListPosition(items))) else Flat(Sort(FlatOf(reg, cs), ByDevice()))
  }

  /** The loop of `get_hardware_by_subtype` over the valid subtypes: the
      result of the filter of every one the list names, merged in turn,
      then sorted. */
  method CollectBySubtype(reg: Registry, items: seq<string>, valid: seq<string>, grouped: bool) returns (r: Listing)
    ensures r == SubtypeListing(reg, items, valid, grouped)
  {
    var acc := if grouped then Grouped([]) else Flat([]);
    var i := 0;
    while i < |valid|
      invariant 0 <= i <= |valid|
      invariant acc == Collected(reg, SubtypeCriteria(items, valid[..i]), grouped)
    {
      var st := valid[i];
      assert valid[..i + 1][..i] == valid[..i];
      if st in items {
        assert SubtypeCriteria(items, valid[..i + 1]) == SubtypeCriteria(items, valid[..i]) + [OfSubtype(st)];
        CollectedStep(reg, SubtypeCriteria(items, valid[..i]), OfSubtype(st), grouped);
        var part := GetBySubtype(reg, Some(st), grouped);
        acc := Merge(acc, part.value);
      } else {
        assert SubtypeCriteria(items, valid[..i + 1]) == SubtypeCriteria(items, valid[..i]) + [];
        assert SubtypeCriteria(items, valid[..i + 1]) == SubtypeCriteria(items, valid[..i]);
      }
      i := i + 1;
    }
    assert valid[..i] == valid;
    match acc
    case Grouped(g) =>
      r := Grouped(Sort(g, ByListPosition(items)));
    case Flat(d) =>
      r := Flat(Sort(d, ByDevice()));
  }

  /** `get_hardware_by_subtype` for the hardware type named `typeName`. A
      type without subtypes warns and yields `None`; nothing, an empty
      subtype or list, or a value that is neither a string nor a list
      raises `InvalidHardwareType`, as does a subtype that is not valid for
      the type; a valid subtype is filtered by; a list contributes the
      result of every valid subtype it names. */
  method GetHardwareBySubtype(reg: Registry, typeName: string, arg: SubtypesArg, grouped: bool)
    returns (r: Result<Option<Listing>>, ws: seq<Warning>)
    ensures Upper(typeName) !in HardwareTypes ==> r == Ok(None) && ws == [InvalidHardwareSubtype(Upper(typeName))]
    ensures Upper(typeName) in HardwareTypes ==> ws == []
    ensures Upper(typeName) in HardwareTypes &&
              (arg.NoSubtypes? || arg.OtherSubtypes? || arg == OneSubtype("") || arg == SubtypeList([])) ==>
              r == Err(InvalidHardwareType)
    ensures Upper(typeName) in HardwareTypes && arg.OneSubtype? && arg.subtype != "" ==>
              r == if arg.subtype in HardwareTypes[Upper(typeName)] then Ok(Some(Filtered(reg, OfSubtype(arg.subtype), grouped)))
                   else Err(InvalidHardwareType)
    ensures Upper(typeName) in HardwareTypes && arg.SubtypeList? && arg.items != [] ==>
              r == Ok(Some(SubtypeListing(reg, arg.items, HardwareTypes[Upper(typeName)], grouped)))
  {
    var t := Upper(typeName);
    if t !in HardwareTypes {
      return Ok(None), [InvalidHardwareSubtype(t)];
    }
    ws := [];
    var valid := HardwareTypes[t];
    match arg
    case NoSubtypes =>
      r := Err(InvalidHardwareType);
    case OtherSubtypes =>
      r := Err(InvalidHardwareType);
    case OneSubtype(st) =>
      if st == "" || st !in valid {
        r := Err(InvalidHardwareType);
      } else {
        var listing := GetBySubtype(reg, Some(st), grouped);
        r := Ok(Some(listing.value));
      }
    case SubtypeList(items) =>
      if items == [] {
        r := Err(InvalidHardwareType);
      } else {
        var listing := CollectBySubtype(reg, items, valid, grouped);
        r := Ok(Some(listing));
      }
  }

  /** `get_hardware_by_subtype` with the subtypes as keys: one entry per
      valid subtype the list names, holding the devices of that subtype;
      the entries follow the caller's list. */
  lemma GroupedBySubtype(reg: Registry, items: seq<string>, valid: seq<string>)
    ensures var g := SubtypeListing(reg, items, valid, true).groups;
            && DistinctKeys(g)
            && (forall k :: k in Keys(g) <==> k in valid && k in items)
            && (forall j :: 0 <= j < |g| ==> g[j].1 == Group(reg, OfSubtype(g[j].0)))
            && (forall j, l :: 0 <= j < l < |g| ==> Rank(items, g[j].0) < Rank(items, g[l].0))
  {
    var cs := SubtypeCriteria(items, valid);
    SubtypeCriteriaSpec(items, valid);
    SortedGroups(reg, cs, false, ByListPosition(items));
    SortSpec(GroupsOf(reg, cs), ByListPosition(items));
    var g := SubtypeListing(reg, items, valid, true).groups;
    forall k
      ensures k in Keys(g) <==> k in valid && k in items
    {
      if k in valid && k in items {
        assert OfSubtype(k) in cs && Label(OfSubtype(k)) == k;
      }
    }
    forall j, l | 0 <= j < l < |g|
      ensures Rank(items, g[j].0) < Rank(items, g[l].0)
    {
      assert !KeyLess(ByListPosition(items)(g[l]), ByListPosition(items)(g[j]));
      assert g[j].0 == Keys(g)[j] && g[l].0 == Keys(g)[l];
    }
  }

  /** A device is kept by one of the subtype filters exactly when it has a
      non-empty subtype that is valid and on the list. */
  predicate SubtypeChosen(items: seq<string>, valid: seq<string>, p: Properties) {
    p.subtype.Some? && p.subtype.value != "" && p.subtype.value in valid && p.subtype.value in items
  }

  lemma SubtypeKeptBy(items: seq<string>, valid: seq<string>, p: Properties)
    ensures KeptBy(SubtypeCriteria(items, valid), p) <==> SubtypeChosen(items, valid, p)
  {
    SubtypeCriteriaSpec(items, valid);
    if SubtypeChosen(items, valid, p) {
      assert OfSubtype(p.subtype.value) in SubtypeCriteria(items, valid) && Keeps(OfSubtype(p.subtype.value), p);
    }
  }

  /** `get_hardware_by_subtype` without the subtypes as keys: the devices
      of the registry of a valid subtype the list names, each under its own
      name, in device order. */
  lemma FlatBySubtype(reg: Registry, items: seq<string>, valid: seq<string>)
    ensures var d := SubtypeListing(reg, items, valid, false).devices;
            && DistinctKeys(d)
            && (forall k :: k in Keys(d) <==>
                  exists i :: 0 <= i < |reg| && SubtypeChosen(items, valid, reg[i].1.config.props) && NameOf(reg[i].1) == k)
            && (forall j :: 0 <= j < |d| ==>
                  && d[j].0 == NameOf(d[j].1)
                  && SubtypeChosen(items, valid, d[j].1.config.props)
                  && exists i :: 0 <= i < |reg| && reg[i].1 == d[j].1)
            && (forall j, l :: 0 <= j < l < |d| && d[j].1.config.props.area in MachineAreas && d[l].1.config.props.area in MachineAreas ==>
                  !Less(d[l].1.config.props, d[j].1.config.props))
  {
    var cs := SubtypeCriteria(items, valid);
    SortedDevices(reg, cs);
    forall p: Properties
      ensures KeptBy(cs, p) <==> SubtypeChosen(items, valid, p)
    {
      SubtypeKeptBy(items, valid, p);
    }
  }

  // ------------------------------------------------------------ creation

  /** A configuration file of the lattice folder: the file's stem, the
      `machine_area` of its `properties` (absent when the key is missing),
      and the device built from its settings. */
  datatype ConfigFile = ConfigFile(stem: string, area: Option<string>, device: Hardware)

  /** The `areas` argument of `create_hardware`: `None` (every area of the
      machine), one name, one area, or a list. */
  datatype AreasParam = AllAreas | AreaText(name: string) | AreaGiven(area: MachineArea) | AreaSeq(items: seq<AreaArg>)

  /** The areas iterated over: `MACHINE_AREAS` for `None`, a single name or
      area as a list of one. */
  function AreaItems(areas: AreasParam): (items: seq<AreaArg>)
    ensures areas.AllAreas? ==> |items| == |MachineAreas|
    ensures areas.AllAreas? ==> forall i :: 0 <= i < |items| ==> items[i] == AreaValue(MachineAreas[i])
  {
    match areas
    case AllAreas => seq(|MachineAreas|, i requires 0 <= i < |MachineAreas| => AreaValue(MachineAreas[i]))
    case AreaText(s) => [AreaName(s)]
    case AreaGiven(a) => [AreaValue(a)]
    case AreaSeq(items) => items
  }

  /** A string or an area: `_string_to_machine_area` gives it a name. */
  predicate Nameable(arg: AreaArg) {
    arg.AreaName? || arg.AreaValue?
  }

  /** `[_string_to_machine_area(area=area).name for area in areas]`: the
      first item that is `None` raises `ValueError`, the first that is
      neither a string nor an area raises `AttributeError` (its conversion
      is `None`, which has no name). */
  function AreaNames(items: seq<AreaArg>): (r: Result<seq<string>>)
    ensures r.Ok? <==> forall i :: 0 <= i < |items| ==> Nameable(items[i])
    ensures r.Ok? ==> |r.value| == |items|
    ensures r.Ok? ==> forall i :: 0 <= i < |items| ==> StringToMachineArea(items[i]) == Ok(Some(MachineArea(r.value[i])))
    ensures r.Err? ==> exists k :: && 0 <= k < |items| && !Nameable(items[k])
                                   && (forall j :: 0 <= j < k ==> Nameable(items[j]))
                                   && r.error == (if items[k].NoArea? then ValueError else AttributeError)
  {
    if items == [] then Ok([])
    else
      var rest := AreaNames(items[1..]);
      assert forall i :: 1 <= i < |items| ==> items[i] == items[1..][i - 1];
      match items[0]
      case NoArea => Err(ValueError)
      case OtherArg => Err(AttributeError)
      case AreaName(s) => if rest.Err? then rest else Ok([s] + rest.value)
      case AreaValue(a) => if rest.Err? then rest else Ok([a.name] + rest.value)
  }

  /** A file whose area is among the requested names. */
  predicate Chosen(f: ConfigFile, names: seq<string>) {
    f.area.Some? && f.area.value in names
  }

  /** The loop of `create_hardware` from the dictionary `acc` on: a file
      without an area raises `MachineAreaNotProvided`, a failed conversion
      of the areas raises its error, and a file of a requested area enters
      its device under its stem. */
  function KeptInto(acc: Registry, fs: seq<ConfigFile>, names: Result<seq<string>>): Result<Registry>
    decreases |fs|
  {
    if fs == [] then Ok(acc)
    else if fs[0].area.None? then Err(MachineAreaNotProvided)
    else if names.Err? then Err(names.error)
    else KeptInto(if Chosen(fs[0], names.value) then Update(acc, fs[0].stem, fs[0].device) else acc, fs[1..], names)
  }

  /** What `create_hardware` returns for the files of the folder. */
  function Loaded(fs: seq<ConfigFile>, areas: AreasParam): Result<Registry> {
    match KeptInto([], fs, AreaNames(AreaItems(areas)))
    case Ok(d) => Ok(Sort(d, ByDevice()))
    case Err(e) => Err(e)
  }

  /** `create_hardware`: a folder that cannot be listed raises
      `InvalidHardwareType`; otherwise the devices of the files of the
      requested areas, under their stems, sorted as devices. */
  method CreateHardware(files: Option<seq<ConfigFile>>, areas: AreasParam) returns (r: Result<Registry>)
    ensures files.None? ==> r == Err(InvalidHardwareType)
    ensures files.Some? ==> r == Loaded(files.value, areas)
  {
    if files.None? {
      return Err(InvalidHardwareType);
    }
    var fs := files.value;
    var names := AreaNames(AreaItems(areas));
    var acc: Registry := [];
    var i := 0;
    while i < |fs|
      invariant 0 <= i <= |fs|
      invariant KeptInto(acc, fs[i..], names) == KeptInto([], fs, names)
    {
      SuffixCons(fs, i);
      var f := fs[i];
      if f.area.None? {
        return Err(MachineAreaNotProvided);
      }
      if names.Err? {
        return Err(names.error);
      }
      if f.area.value in names.value {
        acc := Update(acc, f.stem, f.device);
      }
      i := i + 1;
    }
    assert fs[i..] == [];
    return Ok(Sort(acc, ByDevice()));
  }

  /** Loading fails exactly when there is a file and either some file has
      no area or the areas do not convert. */
  lemma {:induction false} KeptIntoFails(acc: Registry, fs: seq<ConfigFile>, names: Result<seq<string>>)
    ensures KeptInto(acc, fs, names).Err? <==>
              fs != [] && (names.Err? || exists i :: 0 <= i < |fs| && fs[i].area.None?)
    ensures KeptInto(acc, fs, names).Err? ==>
              KeptInto(acc, fs, names).error == MachineAreaNotProvided || (names.Err? && KeptInto(acc, fs, names).error == names.error)
    decreases |fs|
  {
    if fs != [] && fs[0].area.Some? && names.Ok? {
      var next := if Chosen(fs[0], names.value) then Update(acc, fs[0].stem, fs[0].device) else acc;
      KeptIntoFails(next, fs[1..], names);
      assert forall i :: 1 <= i < |fs| ==> fs[i] == fs[1..][i - 1];
    }
  }

  lemma {:induction false} KeptIntoDistinct(acc: Registry, fs: seq<ConfigFile>, names: seq<string>)
    requires DistinctKeys(acc)
    requires KeptInto(acc, fs, Ok(names)).Ok?
    ensures DistinctKeys(KeptInto(acc, fs, Ok(names)).value)
    decreases |fs|
  {
    if fs != [] {
      UpdateDistinct(acc, fs[0].stem, fs[0].device);
      KeptIntoDistinct(if Chosen(fs[0], names) then Update(acc, fs[0].stem, fs[0].device) else acc, fs[1..], names);
    }
  }

  /** When the areas convert and no file lacks an area, loading keeps one
      entry per stem of a file of a requested area ... */
  lemma {:induction false} KeptIntoKeys(acc: Registry, fs: seq<ConfigFile>, names: seq<string>)
    requires KeptInto(acc, fs, Ok(names)).Ok?
    ensures forall k :: k in Keys(KeptInto(acc, fs, Ok(names)).value) <==>
              k in Keys(acc) || exists i :: 0 <= i < |fs| && Chosen(fs[i], names) && fs[i].stem == k
    decreases |fs|
  {
    if fs != [] {
      var f := fs[0];
      var next := if Chosen(f, names) then Update(acc, f.stem, f.device) else acc;
      UpdateKeys(acc, f.stem, f.device);
      KeptIntoKeys(next, fs[1..], names);
      var d := KeptInto(acc, fs, Ok(names)).value;
      assert d == KeptInto(next, fs[1..], Ok(names)).value;
      assert forall k :: k in Keys(next) <==> k in Keys(acc) || (Chosen(f, names) && k == f.stem);
      forall k | k in Keys(d)
        ensures k in Keys(acc) || exists i :: 0 <= i < |fs| && Chosen(fs[i], names) && fs[i].stem == k
      {
        if k !in Keys(next) {
          var i :| 0 <= i < |fs[1..]| && Chosen(fs[1..][i], names) && fs[1..][i].stem == k;
          assert fs[i + 1] == fs[1..][i];
        } else if k !in Keys(acc) {
          assert Chosen(fs[0], names) && fs[0].stem == k;
        }
      }
      forall k | k in Keys(acc) || exists i :: 0 <= i < |fs| && Chosen(fs[i], names) && fs[i].stem == k
        ensures k in Keys(d)
      {
        if k !in Keys(next) {
          var i :| 0 <= i < |fs| && Chosen(fs[i], names) && fs[i].stem == k;
          assert i != 0 && fs[1..][i - 1] == fs[i];
        }
      }
    }
  }

  /** ... each holding the device of such a file. */
  lemma {:induction false} KeptIntoEntries(acc: Registry, fs: seq<ConfigFile>, names: seq<string>)
    requires KeptInto(acc, fs, Ok(names)).Ok?
    ensures forall j :: 0 <= j < |KeptInto(acc, fs, Ok(names)).value| ==>
              KeptInto(acc, fs, Ok(names)).value[j] in acc ||
              exists i :: 0 <= i < |fs| && Chosen(fs[i], names) && KeptInto(acc, fs, Ok(names)).value[j] == (fs[i].stem, fs[i].device)
    decreases |fs|
  {
    if fs != [] {
      var f := fs[0];
      var next := if Chosen(f, names) then Update(acc, f.stem, f.device) else acc;
      UpdateEntries(acc, f.stem, f.device);
      KeptIntoEntries(next, fs[1..], names);
      var d := KeptInto(acc, fs, Ok(names)).value;
      forall j | 0 <= j < |d|
        ensures d[j] in acc || exists i :: 0 <= i < |fs| && Chosen(fs[i], names) && d[j] == (fs[i].stem, fs[i].device)
      {
        if !(d[j] in next) {
          var i :| 0 <= i < |fs[1..]| && Chosen(fs[1..][i], names) && d[j] == (fs[1..][i].stem, fs[1..][i].device);
          assert fs[i + 1] == fs[1..][i];
        }
      }
    }
  }

  /** `create_hardware` over files that all carry an area, for areas that
      convert: the devices of the files whose area is requested, under
      their stems, each stem once, sorted as devices. */
  lemma LoadedSpec(fs: seq<ConfigFile>, areas: AreasParam)
    requires forall i :: 0 <= i < |fs| ==> fs[i].area.Some?
    requires AreaNames(AreaItems(areas)).Ok?
    ensures var names := AreaNames(AreaItems(areas)).value;
            && Loaded(fs, areas).Ok?
            && DistinctKeys(Loaded(fs, areas).value)
            && (forall k :: k in Keys(Loaded(fs, areas).value) <==>
                  exists i :: 0 <= i < |fs| && Chosen(fs[i], names) && fs[i].stem == k)
            && (forall j :: 0 <= j < |Loaded(fs, areas).value| ==>
                  exists i :: 0 <= i < |fs| && Chosen(fs[i], names) && Loaded(fs, areas).value[j] == (fs[i].stem, fs[i].device))
  {
    var names := AreaNames(AreaItems(areas)).value;
    KeptIntoFails([], fs, Ok(names));
    KeptIntoDistinct([], fs, names);
    KeptIntoKeys([], fs, names);
    KeptIntoEntries([], fs, names);
    var d := KeptInto([], fs, Ok(names)).value;
    SortKeepsDistinctKeys(d, ByDevice());
    SortKeys(d, ByDevice());
    SortEntries(d, ByDevice());
    var s := Sort(d, ByDevice());
    forall j | 0 <= j < |s|
      ensures exists i :: 0 <= i < |fs| && Chosen(fs[i], names) && s[j] == (fs[i].stem, fs[i].device)
    {
      var m :| 0 <= m < |d| && d[m] == s[j];
    }
  }

  /** ... in device order. */
  lemma LoadedOrdered(fs: seq<ConfigFile>, areas: AreasParam)
    requires Loaded(fs, areas).Ok?
    ensures var d := Loaded(fs, areas).value;
            forall j, l :: 0 <= j < l < |d| && d[j].1.config.props.area in MachineAreas && d[l].1.config.props.area in MachineAreas ==>
              !Less(d[l].1.config.props, d[j].1.config.props)
  {
    var d := Loaded(fs, areas).value;
    var u := KeptInto([], fs, AreaNames(AreaItems(areas))).value;
    SortSpec(u, ByDevice());
    forall j, l | 0 <= j < l < |d| && d[j].1.config.props.area in MachineAreas && d[l].1.config.props.area in MachineAreas
      ensures !Less(d[l].1.config.props, d[j].1.config.props)
    {
      assert !KeyLess(ByDevice()(d[l]), ByDevice()(d[j]));
      ByDeviceIsLess(d[l].1.config.props, d[j].1.config.props);
    }
  }

  /** With no areas given, a file is kept exactly when its area names an
      area of the machine. */
  lemma AllAreasNames(s: string)
    ensures AreaNames(AreaItems(AllAreas)).Ok?
    ensures s in AreaNames(AreaItems(AllAreas)).value <==> MachineArea(s) in MachineAreas
  {
    var items := AreaItems(AllAreas);
    var r := AreaNames(items);
    assert forall i :: 0 <= i < |items| ==> Nameable(items[i]);
    if s in r.value {
      var i :| 0 <= i < |r.value| && r.value[i] == s;
      assert StringToMachineArea(items[i]) == Ok(Some(MachineAreas[i]));
    }
    if MachineArea(s) in MachineAreas {
      var i :| 0 <= i < |MachineAreas| && MachineAreas[i] == MachineArea(s);
      assert StringToMachineArea(items[i]) == Ok(Some(MachineArea(r.value[i])));
    }
  }

  // ------------------------------------------------------------ dispatch

  /** The `names` argument of `_set_property` and
      `_call_with_no_args_on_many`: `None` (every device), one name, a list
      of names, or any other value. */
  datatype Target = AllDevices | Named(name: string) | NamedList(names: seq<string>) | OtherTarget

  /** The `values` argument of `_set_property`: `None`, one value, or a list. */
  datatype Setting = NoSetting | OneValue(value: Value) | ValueList(values: seq<Value>)

  /** `get_hardware(name)` for each name in turn, up to the first that
      raises: the devices found, and the error. */
  method ResolveEach(reg: Registry, names: seq<string>) returns (hs: seq<Hardware>, e: Option<Error>)
    ensures var k := FirstUnresolved(reg, names);
            && |hs| == k
            && (forall j :: 0 <= j < k ==> GetOne(reg, names[j]) == Ok(hs[j]))
            && e == (if k < |names| then Some(GetOne(reg, names[k]).error) else None)
  {
    hs := [];
    var i := 0;
    while i < |names|
      invariant 0 <= i <= |names|
      invariant |hs| == i
      invariant forall j :: 0 <= j < i ==> GetOne(reg, names[j]) == Ok(hs[j])
    {
      var got := GetOne(reg, names[i]);
      if got.Err? {
        FirstUnresolvedIs(reg, names, i);
        return hs, Some(got.error);
      }
      ghost var prev := hs;
      hs := hs + [got.value];
      assert hs[i] == got.value && forall j :: 0 <= j < i ==> hs[j] == prev[j];
      i := i + 1;
    }
    FirstUnresolvedIs(reg, names, i);
    return hs, None;
  }

  /** The first unresolved name is the one that follows the resolved ones. */
  lemma FirstUnresolvedIs(reg: Registry, names: seq<string>, i: nat)
    requires i <= |names|
    requires forall j :: 0 <= j < i ==> NameExists(reg, names[j]).Some?
    requires i < |names| ==> NameExists(reg, names[i]).None?
    ensures FirstUnresolved(reg, names) == i
  {
  }

  /** The value `_set_property` hands the setter for the `j`-th name. */
  function ValueFor(values: Setting, j: nat): Value
    requires values.OneValue? || (values.ValueList? && j < |values.values|)
  {
    if values.OneValue? then values.value else values.values[j]
  }

  function Min(a: int, b: int): int {
    if a <= b then a else b
  }

  /** `_set_property`, as the calls of the setter it makes, in order, and
      the error it raises. No values, or a list of values for all devices
      or for one name, raise `ValueError` before any call; one name gets
      the one value; a list of names is zipped with a list of values (the
      shorter decides) or gets the one value each, the names resolving in
      turn up to the first that raises; no name gives every device the
      value; any other kind of names does nothing. */
  method SetProperty(reg: Registry, names: Target, values: Setting)
    returns (calls: seq<(Hardware, Value)>, e: Option<Error>)
    ensures values.NoSetting? ==> calls == [] && e == Some(ValueError)
    ensures values.ValueList? && (names.AllDevices? || names.Named?) ==> calls == [] && e == Some(ValueError)
    ensures names.Named? && values.OneValue? ==>
              if GetOne(reg, names.name).Ok? then calls == [(GetOne(reg, names.name).value, values.value)] && e == None
              else calls == [] && e == Some(GetOne(reg, names.name).error)
    ensures names.NamedList? && !values.NoSetting? ==>
              var n := if values.ValueList? then Min(|names.names|, |values.values|) else |names.names|;
              var k := FirstUnresolved(reg, names.names[..n]);
              && |calls| == k
              && (forall j :: 0 <= j < k ==> GetOne(reg, names.names[j]) == Ok(calls[j].0) && calls[j].1 == ValueFor(values, j))
              && e == (if k < n then Some(GetOne(reg, names.names[k]).error) else None)
    ensures names.AllDevices? && values.OneValue? ==>
              |calls| == |reg| && e == None && forall j :: 0 <= j < |reg| ==> calls[j] == (reg[j].1, values.value)
    ensures names.OtherTarget? && !values.NoSetting? ==> calls == [] && e == None
  {
    if values.NoSetting? {
      return [], Some(ValueError);
    }
    if values.ValueList? && (names.AllDevices? || names.Named?) {
      return [], Some(ValueError);
    }
    match names
    case Named(name) =>
      var got := GetOne(reg, name);
      if got.Err? {
        return [], Some(got.error);
      }
      return [(got.value, values.value)], None;
    case NamedList(ns) =>
      var n := if values.ValueList? then Min(|ns|, |values.values|) else |ns|;
      var hs;
      hs, e := ResolveEach(reg, ns[..n]);
      calls := seq(|hs|, j requires 0 <= j < |hs| => (hs[j], ValueFor(values, j)));
    case AllDevices =>
      calls := seq(|reg|, j requires 0 <= j < |reg| => (reg[j].1, values.value));
      e := None;
    case OtherTarget =>
      return [], None;
  }

  /** `_call_with_no_args_on_many`, as the devices it calls, in order, and
      the error it raises: something not callable raises `ValueError`; no
      name calls every device; a list of names calls the device of each in
      turn up to the first that raises; one name calls its device; any
      other kind of names calls nothing. */
  method CallOnMany(reg: Registry, names: Target, isCallable: bool) returns (calls: seq<Hardware>, e: Option<Error>)
    ensures !isCallable ==> calls == [] && e == Some(ValueError)
    ensures isCallable && names.AllDevices? ==>
              |calls| == |reg| && e == None && forall j :: 0 <= j < |reg| ==> calls[j] == reg[j].1
    ensures isCallable && names.NamedList? ==>
              var k := FirstUnresolved(reg, names.names);
              && |calls| == k
              && (forall j :: 0 <= j < k ==> GetOne(reg, names.names[j]) == Ok(calls[j]))
              && e == (if k < |names.names| then Some(GetOne(reg, names.names[k]).error) else None)
    ensures isCallable && names.Named? ==>
              if GetOne(reg, names.name).Ok? then calls == [GetOne(reg, names.name).value] && e == None
              else calls == [] && e == Some(GetOne(reg, names.name).error)
    ensures isCallable && names.OtherTarget? ==> calls == [] && e == None
  {
    if !isCallable {
      return [], Some(ValueError);
    }
    match names
    case AllDevices =>
      calls := seq(|reg|, j requires 0 <= j < |reg| => reg[j].1);
      e := None;
    case NamedList(ns) =>
      calls, e := ResolveEach(reg, ns);
    case Named(name) =>
      var got := GetOne(reg, name);
      if got.Err? {
        return [], Some(got.error);
      }
      return [got.value], None;
    case OtherTarget =>
      return [], None;
  }
}
