/** Outcomes shared by every module: optional values, results carrying the
    exception the catapcore code raises, and the warnings it emits. */
module Wrappers {

  datatype Option<T> = None | Some(value: T)

  /** The exceptions the modelled code raises, by class. */
  datatype Error =
    | ValueError
    | KeyError
    | TypeError
    | AttributeError
    | IndexError
    | FileNotFoundError
    | UnexpectedPVEntry
    | InvalidHardwareType
    | MachineAreaNotProvided
    | MachineAreaNotFound(area: string)
    | HardwareNameNotProvided
    | HardwareNameNotFound(name: string)

  datatype Result<T> = Ok(value: T) | Err(error: Error)

  /** The warnings the modelled code emits, with the name they are about. */
  datatype Warning =
    | FailedEPICSOperation(pv: string)
    | InvalidSnapshotSetting(subject: string)
    | InvalidHardwareSubtype(hardwareType: string)
    | PlainWarning(subject: string)
}
