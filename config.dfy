/** Fixed configuration: the ordered list of machine areas, the table of
    hardware types and their subtypes, the snapshot root directory. */
module Config {
  import opened Wrappers
  import opened Area

  /** `MACHINE_AREAS`: every area of the machine, in beam-line order. */
  const MachineAreas: seq<MachineArea> := [
    MachineArea("LAS"), MachineArea("INJ"), MachineArea("S01"), MachineArea("L01"), MachineArea("S02"), MachineArea("C2V"),
    MachineArea("SP1"), MachineArea("L02"), MachineArea("S03"), MachineArea("L03"), MachineArea("S04"), MachineArea("L4H"),
    MachineArea("S05"), MachineArea("VBC"), MachineArea("S06"), MachineArea("SP2"), MachineArea("L04"), MachineArea("S07"),
    MachineArea("SP3"), MachineArea("FEA"), MachineArea("FEH"), MachineArea("FED")
  ]

  /** `_hardware_types`: each hardware type with its valid subtypes, in order. */
  const HardwareTypes: map<string, seq<string>> := map[
    "SCREEN" := ["VMOTOR", "HVMOTOR"],
    "SHUTTER" := ["BEAM", "LASER"],
    "MAGNET" := ["DIPOLE", "HORIZONTAL_CORRECTOR", "VERTICAL_CORRECTOR", "QUADRUPOLE", "SOLENOID"],
    "CAVITY" := ["LINAC", "GUN", "DEFLECTING", "LINEARISER"],
    "CAMERA" := ["MANTA", "PCO"],
    "CHARGE" := ["WCM", "ICT", "FCUP"],
    "BPM" := ["STRIPLINE"]
  ]

  const SnapshotLocation: string := "./snapshots/"

  /** `MACHINE_AREAS.index(a)`: the position of the first occurrence. */
  function IndexOf<T(==)>(s: seq<T>, x: T): (i: nat)
    requires x in s
    ensures i < |s| && s[i] == x
    ensures forall j :: 0 <= j < i ==> s[j] != x
  {
    if s[0] == x then 0 else 1 + IndexOf(s[1..], x)
  }

  function AreaIndex(a: MachineArea): (i: nat)
    requires a in MachineAreas
    ensures i < |MachineAreas| && MachineAreas[i] == a
  {
    IndexOf(MachineAreas, a)
  }
}
