/** A machine area: the named section of the accelerator a device sits in. */
module Area {
  import opened Wrappers
  import opened PyValues

  /** Frozen record holding the area's name; two areas are equal exactly
      when their names are. */
  datatype MachineArea = MachineArea(name: string)

  /** Constructing a `MachineArea` from an arbitrary value: the name must
      be a string. */
  function NewMachineArea(name: Value): (r: Result<MachineArea>)
    ensures r.Ok? <==> name.Str?
    ensures r.Ok? ==> r.value.name == name.s
    ensures r.Err? ==> r.error == ValueError
  {
    if name.Str? then Ok(MachineArea(name.s)) else Err(ValueError)
  }

  /** What a caller may hand to `_string_to_machine_area`. */
  datatype AreaArg = NoArea | AreaName(s: string) | AreaValue(area: MachineArea) | OtherArg

  /** Coerces a string or an area into an area: `None` is refused, a string
      is wrapped as it is (no case change), an area passes through, and any
      other value falls off the end and yields `None`. */
  function StringToMachineArea(arg: AreaArg): (r: Result<Option<MachineArea>>)
    ensures r.Err? <==> arg.NoArea?
    ensures r.Err? ==> r.error == ValueError
    ensures r.Ok? && r.value.None? <==> arg.OtherArg?
    ensures arg.AreaName? ==> r.Ok? && r.value.Some? && r.value.value.name == arg.s
  {
    match arg
    case NoArea => Err(ValueError)
    case AreaName(s) => Ok(Some(MachineArea(s)))
    case AreaValue(a) => Ok(Some(a))
    case OtherArg => Ok(None)
  }

  /** Coercion is idempotent: coercing the area a coercion produced gives
      that area back. */
  lemma StringToMachineAreaIdempotent(arg: AreaArg)
    requires StringToMachineArea(arg).Ok? && StringToMachineArea(arg).value.Some?
    ensures StringToMachineArea(AreaValue(StringToMachineArea(arg).value.value))
         == StringToMachineArea(arg)
  {
  }
}
