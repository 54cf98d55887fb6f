# catapcore machine layer in Dafny

This project models the machine layer of catapcore, a Python library for
driving the devices of an accelerator beam line through EPICS process
variables (PVs). It covers six parts:

- **Points** (`pv_utils.dfy`, module `PVUtils`): the typed control points.
  - `put` and `get` apply each point kind's type checks (scalar, string, binary, state, waveform).
  - Protocol names are normalised.
  - A statistical point keeps a bounded window of readings and its extremes. The buffer
    operations (`update_stats`, `clear_buffer`, the `buffer_size` setter, `start_buffering`,
    `stop_buffering`) act on that window.
- **Devices** (`hardware.dfy`, module `HardwareModel`): a `Hardware` device.
  - Its properties: alias list and machine area.
  - Its ordering, by area along the beam line and then by position.
  - Its point map and the map's buffer operations.
  - Capturing and applying the device's snapshot entry.
- **Snapshots** (`snapshot.dfy`, module `Snapshots`): the `Snapshot` engine of one hardware type.
  - `update`, `set`, `apply`, `diff`.
  - Saving and loading, with filename normalisation.
- **Factories** (`factory.dfy`, module `Factory`): the factory registry.
  - Loading devices by area in `create_hardware`.
  - Name and alias resolution (`_name_exists`, `get_hardware`).
  - Filtering by area and by subtype, with the orderings of the results.
  - `_set_property` and `_call_with_no_args_on_many`.
- **High-level systems** (`high_level_system.dfy`, module `HighLevelSystems`): a
  high-level system's components, and building and applying a snapshot across them.
- **Areas** (`area.dfy`, module `Area`): `MachineArea` and `_string_to_machine_area`.

Supporting modules:

- `config.dfy`: the machine's area order and the hardware subtype table.
- `pyvalues.dfy`: Python values, `==`, `int()`, `abs()`, `str.upper`, `str.split`, `str.strip`.
- `odict.dfy`: insertion-ordered dictionaries, as a sequence of key/value pairs.
- `sorting.dfy`: a stable insertion sort standing for `sorted(..., key=...)`.
- `wrappers.dfy`: `Option` and `Result`, and the library's errors and warnings.

## How the model is built

- **Python values.** A value the code inspects is a `PyValues.Value`: `None`, bool, int,
  float (as a real), str or list. Python's `==` is `PyEq`, under which numbers compare
  across `bool`, `int` and `float`.
- **Dictionaries.** A dictionary whose order shows is an `ODict`: the device registry,
  a device's snapshot entry, the high-level system's snapshot. `d[k] = v` keeps an existing
  key in its place and puts a new key last. A snapshot document's top level is a `map`.
- **Points.** A point's state is a `PVUtils.Point` value, and each operation is a function
  from state to state. The `PVUtils.PVSignal` class holds that state in a field and carries
  out those functions.
- **The control system** behind a point is a `Channel` value:
  - the value it would return;
  - its timestamp;
  - the writes it has received;
  - the monitor callbacks registered on it.
- **Warnings.**
  - A warning a point raises is appended to that point's own log.
  - A warning a device, engine or system raises is returned as a sequence.
- **Errors** are values of `Wrappers.Error`, returned in a `Result` or an `Option`.
- **Several devices.** The device states that an operation over several devices changes
  are tracked in a ghost map from device to state. A specification function threads that
  map through the devices in order, so a device listed twice (an alias, or a dictionary
  holding it twice) sees the effect of its earlier visit.
- **Threads.** The per-device threads of `Snapshot.update` and `Snapshot.apply` are
  modelled as a loop in registry order. Each device writes only its own entry, so the
  merged document does not depend on the order in which the threads finish.
- **Caller-supplied callables.** `_set_property` and `_call_with_no_args_on_many` take a
  setter or a callable from their caller. They are modelled by the sequence of calls
  made, in order, and the error that stops them.
- **Set fields.** Both a device's point map and a high-level system's components go
  through `model_fields_set`, a Python set whose iteration order is not specified. The
  model takes the set fields as a sequence in a given order. That order decides the key
  order of a high-level system's snapshot, and which failing device or point is reported
  first.
- **Other attributes.** `apply_snapshot` looks each component type up with `getattr`. Besides
  the set fields, the components carry other names `getattr` finds (fields left unset,
  methods, the configuration); the model takes these as a set of names, and a type naming
  one of them is passed over without a warning.
- **Files.** Storage for saved snapshots is a `map` from path to document. A factory's
  configuration folder is the list of its files, already parsed. The clock is a string
  parameter.

## Where the code and its documented intent differ

In each of these cases the code does not do what its docstrings and names describe. The model
follows the code.

- **Wrong hardware type in `set` and `diff`.** When the document lacks the engine's
  hardware-type key, both raise `TypeError`, not an invalid-snapshot error
  (`common/machine/snapshot.py:172-175`, `196-198`). The message for that error indexes
  `snapshot.keys()[0]`, and a `dict_keys` view cannot be indexed, so building the message
  raises `TypeError` first. `set` of no document raises `TypeError` too.
- **`apply` always marks the snapshot applied.** It ends with `applied` true even when a
  device was missing from the document and drew a warning (`common/machine/snapshot.py:316-325`).
- **A capture that raises is dropped without a warning.** During `update`, an exception in
  a device's capture thread ends that thread. The device is missing from the document and
  no warning is recorded (`common/machine/snapshot.py:79-91`).
- **Filename extensions are always replaced.** Save and load compare the extension that
  `path.splitext` returns with "yaml" and "yml" without the dot, so the test never matches.
  Every filename therefore has its extension replaced by ".yaml", and "a.yml" and "a.yaml"
  name the same file (`common/machine/snapshot.py:217-224`, `256-263`).
- **`start_buffering` keeps the window.** It clears the list that the `buffer` property
  returns, a copy of the window, not the window itself, so existing readings survive
  (`common/machine/pv_utils.py:701-708`, `818-821`).

## Model

| member | source | states |
|---|---|---|
| PVUtils.NormalizeProtocol | common/machine/pv_utils.py:137-142 | the protocol is accepted exactly when its upper-cased form is "CA" or "PVA" (upper-cased "CA" gives CA); anything else is a `ValueError` |
| PVUtils.NormalizeProtocolRoundTrip | common/machine/pv_utils.py:137-142 | a protocol's name written in any letter case normalises back to that protocol |
| PVUtils.ValidatePVType | common/machine/pv_utils.py:857-875 | a found kind is the one registered under the given name; `UnexpectedPVEntry` is raised only for a name no kind has |
| PVUtils.ValidatePVTypeRoundTrip | common/machine/pv_utils.py:857-875 | every kind of point is found under its own configuration name |
| PVUtils.StateByValue | common/machine/pv_utils.py:453-455 | `states(value)` finds a member exactly when some member has the value, and then gives the first member defined with it |
| PVUtils.StateByValueThenName | common/machine/pv_utils.py:451-455 | looking up the name that `states(value)` gives returns that value |
| PVUtils.StateByNameThenValue | common/machine/pv_utils.py:451-455 | every value that `states[name]` gives has a member under `states(value)` |
| PVUtils.WriteAccess | common/machine/pv_utils.py:236-242 | the base `put` reaches the control system exactly when the point is writable, with the value unchanged, and never raises |
| PVUtils.PutOutcomeOf | common/machine/pv_utils.py:322-607 | per kind of point: a scalar or statistical point forwards exactly an int, float or bool unchanged; a string point exactly a string; a state point refuses booleans and names or values outside the enumeration and forwards the member's integer value; a binary point forwards exactly a bool or a value equal to 0 or 1, as the integer 0 or 1; a waveform point raises `ValueError` exactly for a value that is not a list; a read-only point never forwards |
| PVUtils.PutStep | common/machine/pv_utils.py:226-242 | a forwarded write is appended to what the control system received; a refused one adds one warning; a raised one changes nothing and reports the exception |
| PVUtils.PutReadOnly | common/machine/pv_utils.py:236-242 | a write on a read-only point never reaches the control system and records a warning unless it raised |
| PVUtils.PutWritable | common/machine/pv_utils.py:236-237 | a write on a writable point reaches the control system at most once, and then changes nothing else |
| PVUtils.ReadBack | common/machine/pv_utils.py:176-223 | a value of the expected type is cached and returned; any other value leaves the cache, adds a warning and returns `None` |
| PVUtils.GetStep | common/machine/pv_utils.py:152-538 | a read changes only the cached value, its timestamp and the warnings, never drops a warning, and caches exactly a value of the expected type; a state point returns the first enumeration member defined with the cached number, and when there is none returns `None` with a `FailedEPICSOperation` warning as the last warning; a binary point returns the truth of a value of the expected type, and `False` otherwise |
| PVUtils.GetTwice | common/machine/pv_utils.py:176-211 | reading twice in a row returns and caches the same value |
| PVUtils.KeepNewest | common/machine/pv_utils.py:654-655 | a deque bounded to `n` holds the newest `min(n, len)` elements, as a suffix |
| PVUtils.Record | common/machine/pv_utils.py:676-699 | `update_stats` caches the reading and keeps the window's capacity |
| PVUtils.KeepNewestPush | common/machine/pv_utils.py:690 | pushing onto a bounded deque grows it while there is room and otherwise drops exactly its oldest element |
| PVUtils.RecordWindow | common/machine/pv_utils.py:676-699 | each reading joins the window as its newest element, and the oldest one leaves when the window was full |
| PVUtils.RecordStatsFields | common/machine/pv_utils.py:690-699 | the window, the extremes by magnitude and the aggregates (kept only once the window holds more than two readings) are those `update_stats` computes |
| PVUtils.RecordAllWindow | common/machine/pv_utils.py:676-699 | after any readings the window holds exactly the newest `capacity` of the readings held before and those delivered since |
| PVUtils.RecordAllFull | common/machine/pv_utils.py:784-792 | `is_buffer_full` holds exactly when the readings held and delivered reach the capacity |
| PVUtils.RecordAllExtremes | common/machine/pv_utils.py:691-694 | the extremes compare by magnitude and only widen: each is the previous extreme or one of the readings, and bounds every reading |
| PVUtils.ZeroNeverBecomesMaximum | common/machine/pv_utils.py:648-694 | a fresh statistical point given a zero reading keeps `float_info.min` as its maximum and takes zero as its minimum |
| PVUtils.ClearStats | common/machine/pv_utils.py:794-798 | `clear_buffer` empties the window and changes nothing else |
| PVUtils.Resize | common/machine/pv_utils.py:800-803 | the size setter refuses a negative size with `ValueError`; otherwise the window keeps its newest readings up to the new capacity and nothing else changes |
| PVUtils.BeginBuffering | common/machine/pv_utils.py:814-821 | `start_buffering` subscribes once, and only when no subscription exists; the window is kept, because the clear acts on a copy |
| PVUtils.EndBuffering | common/machine/pv_utils.py:805-812 | `stop_buffering` removes the subscription, marks the point as not buffering and keeps the window |
| PVUtils.StartBufferingIdempotent | common/machine/pv_utils.py:814-821 | starting twice is starting once |
| PVUtils.StartThenStop | common/machine/pv_utils.py:805-821 | starting then stopping leaves the monitor with the callbacks it had |
| PVUtils.CreatePV | common/machine/pv_utils.py:834-935 | an entry's left-out keys take the defaults (statistical, "CA", size 10, read-only); creation succeeds exactly when a given kind is known, the protocol is "CA" or "PVA", a non-null size is positive, a statistical point has a size and an `auto_buffer` flag and a state point has its states; an unknown kind is `UnexpectedPVEntry` and every other failure `ValueError`; a created point has the entry's name, access and states (state points only), an empty cache and window, and only a statistical point with `auto_buffer` set starts buffering, with the entry's capacity |
| PVUtils.CreateWithDefaults | common/machine/pv_utils.py:834-855 | an entry giving only the name asks for a read-only statistical point with a buffer of 10 and fails with `ValueError` for want of `auto_buffer`; with the flag it is created |
| PVUtils.PVSignal.Put | common/machine/pv_utils.py:226-242 | the object's new state and result are those of `PutStep` on its old state |
| PVUtils.PVSignal.Get | common/machine/pv_utils.py:152-223 | the object's new state and result are those of `GetStep` on its old state |
| PVUtils.PVSignal.UpdateStats | common/machine/pv_utils.py:676-699 | the object's new state is `Record` of its old state, and the window stays within capacity |
| PVUtils.PVSignal.IsBufferFull | common/machine/pv_utils.py:784-792 | holds exactly when the window is full |
| PVUtils.PVSignal.ClearBuffer | common/machine/pv_utils.py:794-798 | the object's new state is `ClearStats` of its old state |
| PVUtils.PVSignal.SetBufferSize | common/machine/pv_utils.py:800-803 | the object's new state is `Resize` of its old state, or unchanged with the error |
| PVUtils.PVSignal.StartBuffering | common/machine/pv_utils.py:814-821 | the object's new state is `BeginBuffering` of its old state |
| PVUtils.PVSignal.StopBuffering | common/machine/pv_utils.py:805-812 | the object's new state is `EndBuffering` of its old state |
| HardwareModel.CreateAliasList | common/machine/hardware.py:403-406 | one alias per comma-separated part of the string |
| HardwareModel.AliasListShape | common/machine/hardware.py:403-406 | there is one alias more than there are commas; no alias holds a comma, and none starts or ends with white space |
| HardwareModel.AliasListRoundTrip | common/machine/hardware.py:403-406 | aliases joined with commas parse back to the same list when none holds a comma or surrounding white space |
| HardwareModel.CreateMachineArea | common/machine/hardware.py:392-401 | an accepted area is one of the machine's areas, named by the upper-cased input; `ValueError` exactly when no area has that name |
| HardwareModel.CreateMachineAreaCaseInsensitive | common/machine/hardware.py:392-401 | area names are matched without regard to letter case |
| HardwareModel.CreateMachineAreaAcceptsEveryArea | common/machine/hardware.py:392-401 | every area of the machine is accepted under its own name |
| HardwareModel.ValidatePV | common/machine/hardware.py:118-125 | a point entry is accepted exactly when its point can be created; a virtual machine prefixes the name with "VM-" and makes the point writable |
| HardwareModel.BuildPointMap | common/machine/hardware.py:86-111 | a built point map lists the fields' names, in the given order |
| HardwareModel.BuildPointMapErrors | common/machine/hardware.py:86-111 | building fails exactly when one field fails validation |
| HardwareModel.BuildPointMapKeys | common/machine/hardware.py:86-111 | a built map has a point under exactly the fields' names, lists as statistical exactly the statistical ones, and every window starts empty |
| HardwareModel.BuildPointMapPoints | common/machine/hardware.py:86-111 | each field's name holds the point its validation gives |
| HardwareModel.BuildPointMapWellFormed | common/machine/hardware.py:86-111 | a map built from distinct, non-empty field names for a device of a known area is well formed |
| HardwareModel.GreaterMirrorsLess | common/machine/hardware.py:685-699 | `>` is `<` with the arguments swapped |
| HardwareModel.LessStrictOrder | common/machine/hardware.py:685-691 | `<` (area index, then position) is irreflexive and transitive |
| HardwareModel.LessTrichotomy | common/machine/hardware.py:685-691 | two devices are incomparable exactly when they share area and position |
| HardwareModel.SameIgnoresArea | common/machine/hardware.py:682-691 | `==` compares name and position only, so two equal devices can still be ordered by `<` |
| HardwareModel.Resolve | common/machine/hardware.py:574-609 | no name, an empty name or an empty list means every statistical point; otherwise the name or the list given |
| HardwareModel.OpStep | common/machine/hardware.py:185-245 | an operation on one point fails exactly for a negative size, keeps the point's kind and keeps its window within capacity |
| HardwareModel.OpStepIdempotent | common/machine/hardware.py:185-245 | every buffer operation is idempotent, so a name listed twice acts once |
| HardwareModel.ApplyToNamesStep | common/machine/hardware.py:247-255 | a name that is not a statistical point stops the loop with `ValueError` and nothing more changes |
| HardwareModel.FirstUnknown | common/machine/hardware.py:247-255 | the index of the first name that is not a statistical point, every name before it being one |
| HardwareModel.ApplyToNamesSpec | common/machine/hardware.py:185-245 | the names before the first unknown one have had the operation applied and every other point is unchanged; the error is `ValueError` exactly when an unknown name exists |
| HardwareModel.ApplyToNamesNegativeSize | common/machine/hardware.py:200-215 | a negative size is refused at the first name with `ValueError` and nothing changes; only an empty list escapes the error |
| HardwareModel.ApplyToNamesWellFormed | common/machine/hardware.py:185-245 | the buffer operations keep a device well formed |
| HardwareModel.PointMapBufferOp | common/machine/hardware.py:185-245 | the loop's points and error are those of `ApplyToNames` |
| HardwareModel.PointMapIsBufferFull | common/machine/hardware.py:161-183 | one name gives its point's answer or `ValueError`; otherwise each name, in order, up to the first unknown one, with `ValueError` then |
| HardwareModel.FullPerName | common/machine/hardware.py:179-183 | the loop over several names raises `ValueError` exactly when some name is not a statistical point, and otherwise gives each distinct name's answer, in order of first appearance |
| HardwareModel.WithBuffer | common/machine/hardware.py:636-645 | adding the buffer columns keeps the record's keys and its "value" |
| HardwareModel.CapturedMembers | common/machine/hardware.py:630-631 | the handles read are exactly the gettable and settable ones |
| HardwareModel.ReadRecord | common/machine/hardware.py:632-645 | reading a handle changes neither its channel nor its window; it fails exactly when the point cannot be recorded, and otherwise yields `RecordOf` the point |
| HardwareModel.CapturePointsReadOnly | common/machine/hardware.py:630-645 | the point loop writes nothing to the control system and changes no window |
| HardwareModel.CapturePointsFails | common/machine/hardware.py:630-645 | the point loop fails exactly when a handle it reads cannot be recorded |
| HardwareModel.CapturePointsKeys | common/machine/hardware.py:630-645 | the point loop records exactly the gettable and settable handles, in map order |
| HardwareModel.CapturePointsRecords | common/machine/hardware.py:630-645 | each recorded handle holds `RecordOf` its point, and other keys are left alone |
| HardwareModel.CaptureExtrasFrame | common/machine/hardware.py:646-665 | the additional information leaves alone every key it does not name, and the device's own name draws one warning |
| HardwareModel.CaptureExtrasSpec | common/machine/hardware.py:646-665 | every additional key but the device's own name ends up holding its value |
| HardwareModel.CaptureExtrasKeys | common/machine/hardware.py:646-665 | the keys added are the additional keys other than the device's name |
| HardwareModel.CaptureExtrasFails | common/machine/hardware.py:646-665 | the additional-information loop fails exactly when one of its keys cannot be recorded |
| HardwareModel.ReadPoints | common/machine/hardware.py:630-645 | the loop's points and result are those of `CapturePoints` |
| HardwareModel.AddExtras | common/machine/hardware.py:646-665 | the loop's result and warnings are those of `CaptureExtras` |
| HardwareModel.CaptureReadOnly | common/machine/hardware.py:619-666 | a device's snapshot writes nothing to the control system and changes no window |
| HardwareModel.CaptureKeys | common/machine/hardware.py:619-666 | the snapshot holds exactly the gettable and settable handles and the additional keys other than the name, which draws one warning |
| HardwareModel.CaptureRecords | common/machine/hardware.py:619-666 | each recorded handle holds the value read (and its window) unless additional information replaced it |
| HardwareModel.CaptureExtraValues | common/machine/hardware.py:646-665 | each additional key other than the name holds its value |
| HardwareModel.CaptureErrors | common/machine/hardware.py:619-666 | a snapshot raises exactly when a handle it reads or a piece of additional information cannot be recorded |
| HardwareModel.CaptureWellFormed | common/machine/hardware.py:619-666 | taking a snapshot keeps a device well formed |
| HardwareModel.ApplyEntryFrame | common/machine/hardware.py:668-680 | applying touches only settable points named by the entry, and never changes a point's kind or statistics window |
| HardwareModel.ApplyEntryFails | common/machine/hardware.py:668-680 | applying fails exactly when some settable handle of the entry is unknown, has no "value", or is a waveform given a non-list; the error is then `KeyError` or `ValueError` |
| HardwareModel.ApplyEntryWrites | common/machine/hardware.py:668-680 | when applying succeeds, every settable handle of the entry has had exactly the write of its record's "value" |
| HardwareModel.ApplyEntryWellFormed | common/machine/hardware.py:668-680 | applying an entry keeps a device well formed |
| HardwareModel.NonEmptyWindowsSpec | common/machine/hardware.py:515-521 | the list form fails with `KeyError` exactly on an unknown name, and otherwise holds each named point with a non-empty window under its name |
| HardwareModel.Hardware.BufferOperation | common/machine/hardware.py:563-609 | the device's points and error are those of `ApplyToNames` over the resolved names |
| HardwareModel.Hardware.IsBufferFull | common/machine/hardware.py:523-536 | one name gives its point's fullness, or `ValueError` when it is not statistical; otherwise the resolved names are answered one by one, and `ValueError` exactly when one is unknown |
| HardwareModel.Hardware.IsBuffering | common/machine/hardware.py:538-561 | no name is `ValueError`; one name tells whether it is statistical; a list answers per name |
| HardwareModel.Hardware.GetStatistics | common/machine/hardware.py:503-521 | one name gives its point or `KeyError`; otherwise the statistical points with non-empty windows |
| HardwareModel.Hardware.UpdateAdditionalInformation | common/machine/hardware.py:611-617 | the value is stored under the key, keeping its place, and the points are unchanged |
| HardwareModel.Hardware.CreateSnapshot | common/machine/hardware.py:619-666 | the device's new points, result and warnings are those of `Capture` |
| HardwareModel.Hardware.ApplySnapshot | common/machine/hardware.py:668-680 | the device's new points and error are those of `ApplyEntry` |
| Snapshots.FindDiff | common/machine/snapshot.py:93-119 | `_find_diff` fails only with `KeyError` (a point missing from the second entry or lacking "value") |
| Snapshots.FindDiffErrors | common/machine/snapshot.py:112-119 | `_find_diff` raises exactly when some point of the first entry cannot be read in the second |
| Snapshots.FindDiffSpec | common/machine/snapshot.py:112-119 | the result holds exactly the points of the first entry whose "value" differs, each as `{current, diff}` taken from the first and second entry |
| Snapshots.FindDiffAgree | common/machine/snapshot.py:112-119 | an entry compared with an identical entry has no differences |
| Snapshots.Member | common/machine/snapshot.py:156-159 | `name in s2` then `s2[name]`: on a dictionary, the device's entry or nothing; a string or list containing the name, or any other value, raises `TypeError`; a device entry is only ever found in a dictionary |
| Snapshots.DiffNextSpec | common/machine/snapshot.py:155-169 | one device of the first document raises exactly when its lookup or its `_find_diff` does; otherwise it is added, with its entry or its differences, exactly when reportable |
| Snapshots.DiffNextUpdate | common/machine/snapshot.py:162-169 | `diffs.update` adds or replaces one key and keeps the keys distinct |
| Snapshots.DiffIntoErrors | common/machine/snapshot.py:155-170 | the walk over the first document raises exactly when some device of it does |
| Snapshots.DiffIntoKeys | common/machine/snapshot.py:155-170 | the devices reported are exactly those of the first document that the second lacks or that differ; a device only in the second is never reported |
| Snapshots.DiffIntoEntries | common/machine/snapshot.py:155-170 | each reported device carries its full first entry (missing) or its own differences |
| Snapshots.DiffDocumentsSpec | common/machine/snapshot.py:132-177 | `diff`: a falsy argument raises `ValueError`, a document without the hardware-type key raises `TypeError`, otherwise exactly the reportable devices of the first document |
| Snapshots.DiffSelfEmpty | common/machine/snapshot.py:148-170 | a document compared with itself has no differences |
| Snapshots.DiffSelfInto | common/machine/snapshot.py:155-170 | the walk reports nothing when every device of the first document is found unchanged in the second |
| Snapshots.RFind | common/machine/snapshot.py:218 | the last position of a character in a string, or -1 |
| Snapshots.SplitExtSpec | common/machine/snapshot.py:218 | `path.splitext`: root and extension concatenate to the path; the extension is empty or a dot followed by no dot or slash |
| Snapshots.ExtensionCheckNeverMatches | common/machine/snapshot.py:219 | the extension never equals "yaml" or "yml", since it keeps its dot |
| Snapshots.JoinPath | common/machine/snapshot.py:222-224 | `path.join`: an absolute second part replaces the first; otherwise the result ends with the second part |
| Snapshots.SnapshotPath | common/machine/snapshot.py:217-224 | the saved or loaded path always ends in ".yaml" |
| Snapshots.SplitExtBare | common/machine/snapshot.py:218 | a name with no dot or separator has an empty extension |
| Snapshots.SplitExtDotted | common/machine/snapshot.py:218 | a plain root, a dot and a plain extension split at that dot, the extension keeping the dot |
| Snapshots.SnapshotPathIgnoresExtension | common/machine/snapshot.py:217-224 | a plain name with any extension (".yml" and ".yaml" among them) and the same name bare all go to the root with ".yaml" |
| Snapshots.Stamped | common/machine/snapshot.py:225-231 | the saved document is the held one plus "comment" and "created"; every other key keeps its value |
| Snapshots.LoadFile | common/machine/snapshot.py:241-270 | an empty filename raises `ValueError`, a missing file `FileNotFoundError`; otherwise the document stored at the normalised path |
| Snapshots.MergeEntriesDistinct | common/machine/snapshot.py:69 | the merged device entries have distinct keys |
| Snapshots.MergeEntriesKeys | common/machine/snapshot.py:69 | the merged keys are exactly the names of the devices whose capture succeeded |
| Snapshots.MergeEntriesLast | common/machine/snapshot.py:69 | a name holds the last successful capture under it |
| Snapshots.MergeEntriesDistinctNames | common/machine/snapshot.py:69 | with distinct device names each successful capture is found under its name |
| Snapshots.CaptureAll | common/machine/snapshot.py:58-90 | every registered device captures its entry in turn; the fleet is the merge of the successful captures and the warnings are theirs, in order |
| Snapshots.Target | common/machine/snapshot.py:307 | `self._snapshot[self._hardware_type]`: `TypeError` without a document or when the type holds no dictionary; a missing type gives no devices |
| Snapshots.MissingWarningsNext | common/machine/snapshot.py:304-321 | one more device adds a warning exactly when it is not excluded and has no entry |
| Snapshots.MissingWarningsSpec | common/machine/snapshot.py:304-321 | no warning exactly when every device not excluded has an entry; each warning names such a device |
| Snapshots.ApplyDevice | common/machine/snapshot.py:304-321 | one device: written from its entry, or warned about when it has none, or left alone when excluded |
| Snapshots.ApplyAll | common/machine/snapshot.py:303-323 | every registered device is written from its entry unless excluded; warnings for those without one, in registry order |
| Snapshots.Snapshot.Set | common/machine/snapshot.py:188-200 | a document with the hardware-type key is stored and `applied` becomes false; otherwise `TypeError` and nothing changes |
| Snapshots.Snapshot.Diff | common/machine/snapshot.py:132-177 | `diff` computes `DiffDocuments` |
| Snapshots.Snapshot.Save | common/machine/snapshot.py:202-239 | an empty filename raises `ValueError`; no document raises `AttributeError`; otherwise the stamped document is written at the normalised path and nothing else in storage changes |
| Snapshots.Snapshot.SaveThenLoad | common/machine/snapshot.py:202-270 | loading a saved name, or any name with the same root, gives back the stamped document, which `set` accepts |
| Snapshots.Snapshot.Load | common/machine/snapshot.py:272-281 | `_load_file`'s errors, or `set` of the document read |
| Snapshots.Snapshot.Update | common/machine/snapshot.py:71-91 | the document becomes the merged captures of every registered device under the hardware type, and `applied` becomes false |
| Snapshots.Snapshot.Apply | common/machine/snapshot.py:295-325 | excluded devices are skipped, devices without an entry are warned about, the others are written; it ends with `applied` true and `last_applied` set, unless it raises `TypeError` first |
| Snapshots.Snapshot.LastApplied | common/machine/snapshot.py:327-335 | the time of the last `apply`; before any, `AttributeError` |
| Snapshots.Snapshot.constructor | common/machine/snapshot.py:43-56 | a new engine holds the registry and hardware type, no document, and is not applied |
| Factory.ByDeviceIsLess | common/machine/factory.py:135-141 | the sort key `item[1]` orders two registry items exactly as `Hardware.__lt__` orders their devices |
| Factory.FirstWithAlias | common/machine/factory.py:156-158 | the index of the first device, in registry order, whose aliases hold the name; no earlier device holds it |
| Factory.NameExistsSpec | common/machine/factory.py:144-159 | an empty name is never found; an exact key wins; otherwise the first device in registry order listing the name as an alias, and nothing when none does |
| Factory.GetOne | common/machine/factory.py:575-585 | one name resolves exactly when `_name_exists` finds it; otherwise `HardwareNameNotProvided` for the empty name and `HardwareNameNotFound` naming it |
| Factory.FirstUnresolved | common/machine/factory.py:588-593 | the position of the first name of a list that does not resolve; every earlier name resolves |
| Factory.ResolutionsAll | common/machine/factory.py:588-594 | when every name resolves, the resolved devices line up one to one with the names |
| Factory.ResolutionsFound | common/machine/factory.py:588-594 | the same, from the hypothesis that each name resolves |
| Factory.ResolutionsStep | common/machine/factory.py:588-594 | resolving one more name appends its device |
| Factory.GatherStep | common/machine/factory.py:594 | adding a device is `update({component.name: component})` on the dictionary so far |
| Factory.GatherDistinct | common/machine/factory.py:587-595 | the dictionary built from devices has distinct keys |
| Factory.GatherKeys | common/machine/factory.py:587-595 | its keys are exactly the canonical names of the devices |
| Factory.GatherEntries | common/machine/factory.py:587-595 | every entry holds one of the devices under that device's own name |
| Factory.GatherLast | common/machine/factory.py:587-595 | a name maps to the last device carrying it (later updates override earlier ones) |
| Factory.GetHardware | common/machine/factory.py:563-595 | no name raises `HardwareNameNotProvided`; a string gives its device or `HardwareNameNotFound`; a list raises for its first unresolved name, else gives the resolved devices keyed by canonical name |
| Factory.ResolvedRegistry | common/machine/factory.py:587-595 | the dictionary `get_hardware` returns for a list has distinct keys, holds exactly the canonical names of the resolved devices, and each entry is a device some name resolved to |
| Factory.AliasesCollapse | common/machine/factory.py:587-595 | two names (a key and an alias) of one device give a dictionary with a single entry |
| Factory.MembersStep | common/machine/factory.py:181-182 | filtering one more registry item appends its device exactly when the filter keeps it |
| Factory.MembersSound | common/machine/factory.py:181-182 | every device the filter returns is kept by it and comes from the registry |
| Factory.MembersComplete | common/machine/factory.py:181-182 | every registry device the filter keeps is returned |
| Factory.GroupHasKept | common/machine/factory.py:179-191 | a kept device's name is a key of the filter's group |
| Factory.GroupKeptOnly | common/machine/factory.py:179-191 | every key of the group is the name of a kept device |
| Factory.GroupKeys | common/machine/factory.py:179-191 | the group's keys are distinct and are exactly the names of the devices the filter keeps |
| Factory.GroupEntries | common/machine/factory.py:179-191 | each group entry holds, under its own name, a registry device the filter keeps |
| Factory.GetByCriterion | common/machine/factory.py:161-191 | `_get_by_area` (and `_get_by_subtype` for a non-empty subtype): one key, the label, holding the group when grouped, the group alone otherwise |
| Factory.EmptySubtypeKeepsNothing | common/machine/factory.py:300-301 | the empty subtype keeps no device |
| Factory.GetBySubtype | common/machine/factory.py:278-312 | no subtype raises `MachineAreaNotProvided`; the empty subtype gives an empty group; any other gives the subtype's group |
| Factory.CollectedStep | common/machine/factory.py:248-255 | merging one more filter's result with `update` is collecting one more criterion |
| Factory.GroupsOfKeys | common/machine/factory.py:247-255 | the merged grouped result has distinct keys, exactly the labels of the criteria |
| Factory.GroupsOfEntries | common/machine/factory.py:247-255 | each label holds the group of the criterion it names |
| Factory.FlatOfDistinct | common/machine/factory.py:247-255 | the merged flat result has distinct keys |
| Factory.FlatOfHas | common/machine/factory.py:247-255 | every device some criterion keeps is in the flat result |
| Factory.FlatOfOnly | common/machine/factory.py:247-255 | every key of the flat result names a device some criterion keeps |
| Factory.FlatOfKeys | common/machine/factory.py:247-255 | the flat result's keys are distinct and are exactly the names of the kept devices |
| Factory.FlatOfEntries | common/machine/factory.py:247-255 | each flat entry holds, under its own name, a registry device some criterion keeps |
| Factory.SortedGroups | common/machine/factory.py:258-266 | sorting the grouped result keeps its keys and the group under each |
| Factory.SortedDevices | common/machine/factory.py:268-275 | sorting the flat result keeps its entries and puts the devices in `Hardware` order |
| Factory.CoerceAreas | common/machine/factory.py:246 | the list conversion fails with `ValueError` exactly when an item is `None`, otherwise converts item by item with `_string_to_machine_area` |
| Factory.AreaCriteriaSpec | common/machine/factory.py:248-249 | the areas filtered are exactly the machine areas the converted list holds; unknown areas are dropped |
| Factory.Rank | common/machine/factory.py:262 | `MACHINE_AREAS.index`: the position of an element of the list |
| Factory.CollectByArea | common/machine/factory.py:244-276 | the list branch of `get_hardware_by_area`: the merged filters of the chosen areas, sorted |
| Factory.GetHardwareByArea | common/machine/factory.py:193-276 | a falsy or ill-typed argument raises `MachineAreaNotProvided`; an unknown single area raises `MachineAreaNotFound`; a known one gives its filter; a list gives the sorted merge of the chosen areas |
| Factory.GroupedByArea | common/machine/factory.py:257-266 | with areas as keys: exactly the chosen areas' names, each holding that area's devices |
| Factory.GroupedByAreaOrdered | common/machine/factory.py:257-266 | with areas as keys, the keys come in `MACHINE_AREAS` order |
| Factory.AreaKeptBy | common/machine/factory.py:248-249 | a device is kept by the chosen areas exactly when its area is chosen |
| Factory.FlatByArea | common/machine/factory.py:267-275 | without area keys: exactly the devices of the chosen areas, under their names, in `Hardware` order |
| Factory.SubtypeCriteriaSpec | common/machine/factory.py:375-376 | the subtypes filtered are exactly the valid subtypes the list names |
| Factory.CollectBySubtype | common/machine/factory.py:371-401 | the list branch of `get_hardware_by_subtype`: the merged filters of the chosen subtypes, sorted |
| Factory.GetHardwareBySubtype | common/machine/factory.py:314-401 | an unknown hardware type warns `InvalidHardwareSubtype` and gives None; a falsy or ill-typed argument or an invalid single subtype raises `InvalidHardwareType`; a valid one gives its filter; a list gives the sorted merge |
| Factory.GroupedBySubtype | common/machine/factory.py:384-391 | with subtypes as keys: exactly the valid subtypes the list names, each with its devices, ordered by position in the caller's list |
| Factory.SubtypeKeptBy | common/machine/factory.py:375-376 | a device is kept exactly when its subtype is non-empty, valid and named by the list |
| Factory.FlatBySubtype | common/machine/factory.py:393-400 | without subtype keys: exactly the devices of the chosen subtypes, under their names, in `Hardware` order |
| Factory.AreaItems | common/machine/factory.py:99-103 | no areas means every area of `MACHINE_AREAS`, in order; one area becomes a one-item list |
| Factory.AreaNames | common/machine/factory.py:119-124 | the names of the requested areas, or the error of the first item `_string_to_machine_area` cannot name (`ValueError` for None, `AttributeError` otherwise) |
| Factory.CreateHardware | common/machine/factory.py:75-142 | a folder that cannot be listed raises `InvalidHardwareType`; otherwise the devices of the requested areas under their file stems, sorted |
| Factory.KeptIntoFails | common/machine/factory.py:115-134 | loading fails exactly when some file lacks a machine area (`MachineAreaNotProvided`) or the area names fail |
| Factory.KeptIntoDistinct | common/machine/factory.py:105-130 | the loaded dictionary has distinct keys |
| Factory.KeptIntoKeys | common/machine/factory.py:105-130 | its keys are exactly the stems of the files whose area is requested |
| Factory.KeptIntoEntries | common/machine/factory.py:105-130 | each entry is a requested file's device under its stem |
| Factory.LoadedSpec | common/machine/factory.py:98-142 | with every file naming an area, `create_hardware` keeps exactly the files of the requested areas |
| Factory.LoadedOrdered | common/machine/factory.py:135-141 | the created dictionary is in `Hardware` order |
| Factory.AllAreasNames | common/machine/factory.py:99-101 | no areas requests exactly the areas of `MACHINE_AREAS` |
| Factory.ResolveEach | common/machine/factory.py:687-689 | resolving names in turn gives the devices up to the first name that raises, and that error |
| Factory.SetProperty | common/machine/factory.py:629-667 | the setter calls in order and the error: no values, or a list of values with no names or one name, raise `ValueError` before any call; names and values are zipped to the shorter; one value goes to each named device or to every device |
| Factory.CallOnMany | common/machine/factory.py:669-691 | a non-callable raises `ValueError`; otherwise the call reaches every device, each named device up to the first that raises, or the one named device |
| HighLevelSystems.MemberSlots | common/machine/high_level_system.py:124-127 | the devices of a dictionary field, at most one per member, each under the field's handle; non-`Hardware` members are passed over |
| HighLevelSystems.SlotsOf | common/machine/high_level_system.py:116-127 | every device a field contributes carries the field's handle |
| HighLevelSystems.MemberSlotsSpec | common/machine/high_level_system.py:124-127 | the devices visited for a dictionary field are exactly its `Hardware` members |
| HighLevelSystems.SlotsCoverFields | common/machine/high_level_system.py:116-127 | every device held by a field is visited by `create_snapshot` |
| HighLevelSystems.SlotsHandles | common/machine/high_level_system.py:116 | every visited device belongs to a field of the components |
| HighLevelSystems.SlotsUnder | common/machine/high_level_system.py:116-138 | the visits under one handle are exactly that field's devices, in the given order |
| HighLevelSystems.CaptureAt | common/machine/high_level_system.py:121 | one device's `create_snapshot`, keyed by the device's own name |
| HighLevelSystems.CaptureRun | common/machine/high_level_system.py:116-138 | the visits take at most one snapshot per device |
| HighLevelSystems.CaptureRunOrder | common/machine/high_level_system.py:116-138 | the devices are visited in the given field order, then member order, each under its own name |
| HighLevelSystems.CaptureRunStops | common/machine/high_level_system.py:116-138 | the visits stop early only at a device whose snapshot raised |
| HighLevelSystems.CaptureRunStep | common/machine/high_level_system.py:116-138 | one more visit continues from the state the previous ones left |
| HighLevelSystems.CaptureRunDistinct | common/machine/high_level_system.py:116-138 | when no device is held twice, each snapshot is the one the device takes from its own initial state |
| HighLevelSystems.AssembleFails | common/machine/high_level_system.py:108-139 | building the system snapshot succeeds exactly when every device snapshot succeeded |
| HighLevelSystems.AssembleFirstError | common/machine/high_level_system.py:108-139 | a failed build raises the error of the first device that failed |
| HighLevelSystems.Under | common/machine/high_level_system.py:116-138 | the visits made for one handle |
| HighLevelSystems.AssembleKeys | common/machine/high_level_system.py:121-138 | the snapshot's keys are distinct and are exactly the handles some device was visited under |
| HighLevelSystems.AssembleLast | common/machine/high_level_system.py:121-138 | the build through one more device adds that device's snapshot |
| HighLevelSystems.PutLookup | common/machine/high_level_system.py:121-138 | adding a device's snapshot changes only its handle's entry |
| HighLevelSystems.AssembleUnderOk | common/machine/high_level_system.py:116-138 | in a successful build every snapshot under a handle succeeded |
| HighLevelSystems.AssembleSingle | common/machine/high_level_system.py:119-121 | a field holding one `Hardware` maps to that device's `create_snapshot()` |
| HighLevelSystems.AssembleDict | common/machine/high_level_system.py:124-138 | a dictionary field maps to the union of its devices' snapshots, a later device of the same name replacing an earlier one |
| HighLevelSystems.FieldSnapshot | common/machine/high_level_system.py:116-138 | per field: one device gives its snapshot; a dictionary gives the union of its `Hardware` members' snapshots (absent when it has none); any other value gives nothing |
| HighLevelSystems.ApplyOne | common/machine/high_level_system.py:141-166 | a device missing from its type's settings is left unchanged with an `InvalidSnapshotSetting` warning; otherwise its entry is applied, a `KeyError` becoming that warning and a `ValueError` passing through |
| HighLevelSystems.ApplyDevice | common/machine/high_level_system.py:190-193 | applying one device changes only device states and may only raise `ValueError` |
| HighLevelSystems.ApplyMembers | common/machine/high_level_system.py:201-205 | the members of a dictionary field are applied in turn; a non-`Hardware` member raises `AttributeError` and ends the loop |
| HighLevelSystems.ApplyMembersStep | common/machine/high_level_system.py:201-205 | one more member continues from the state the previous ones left, unless it raised |
| HighLevelSystems.ApplyComponent | common/machine/high_level_system.py:188-205 | one field: a device is applied, a dictionary's members are applied, any other value is ignored |
| HighLevelSystems.ApplyType | common/machine/high_level_system.py:184-216 | a type missing from the snapshot draws a plain warning; a set field is applied, and an `AttributeError` while applying it draws `InvalidSnapshotSetting`; another attribute of the components (an unset field, a method) is passed over silently; a name with no attribute draws `InvalidSnapshotSetting`; only `ValueError` passes through |
| HighLevelSystems.ApplyTypes | common/machine/high_level_system.py:183-216 | the types are applied in order until a `ValueError` ends the loop |
| HighLevelSystems.ApplyTypesStep | common/machine/high_level_system.py:183-216 | one more type continues from the state the previous ones left, unless it raised |
| HighLevelSystems.ApplyTypesAppend | common/machine/high_level_system.py:183-216 | applying two lists of types in one call is applying the first then, unless it raised, the second |
| HighLevelSystems.SkippedTypeContinues | common/machine/high_level_system.py:184-216 | a type missing from the snapshot or naming no set field draws its warnings (a plain warning, none for another attribute, `InvalidSnapshotSetting` for no attribute) and the remaining types are still applied from the same states |
| HighLevelSystems.ApplyMembersAppend | common/machine/high_level_system.py:201-205 | applying two runs of members is applying the first then, unless it raised, the second |
| HighLevelSystems.SkippedMemberContinues | common/machine/high_level_system.py:155-166 | a device missing from its type's settings draws a warning and the other members are still applied |
| HighLevelSystems.KnownTypesNoPlainWarning | common/machine/high_level_system.py:181-183 | with the default types every type is in the snapshot, so no plain warning is drawn |
| HighLevelSystems.ComponentNoPlainWarning | common/machine/high_level_system.py:155-166 | a field only ever draws `InvalidSnapshotSetting` warnings |
| HighLevelSystems.MembersOnlyInvalidSetting | common/machine/high_level_system.py:201-205 | the members of a dictionary field only draw `InvalidSnapshotSetting` warnings |
| HighLevelSystems.ApplySingle | common/machine/high_level_system.py:141-166 | `_apply_single_component_snapshot` changes the device's points as `ApplyOne` says and nothing else |
| HighLevelSystems.CaptureLoop | common/machine/high_level_system.py:113-139 | the loop of `create_snapshot` gives the build of its visits and their warnings |
| HighLevelSystems.ApplyMembersLoop | common/machine/high_level_system.py:201-205 | the loop over a dictionary field does what `ApplyMembers` says |
| HighLevelSystems.Components.CreateSnapshot | common/machine/high_level_system.py:108-139 | the snapshot is built from the visits of every device of the fields in the given order; the first device that raises ends it |
| HighLevelSystems.Components.ApplyTypeStep | common/machine/high_level_system.py:184-216 | one component type applied as `ApplyType` says |
| HighLevelSystems.Components.ApplySnapshot | common/machine/high_level_system.py:168-216 | every requested type (all of the snapshot's when none is given) applied in order, as `ApplyTypes` says |
| HighLevelSystems.Wrapped | common/machine/high_level_system.py:308 | the components' snapshot under the system name as its only key, or their error |
| HighLevelSystems.System.CreateSnapshot | common/machine/high_level_system.py:297-308 | `HighLevelSystem.create_snapshot` wraps the components' snapshot under the system name |
| HighLevelSystems.System.ApplySnapshot | common/machine/high_level_system.py:310-320 | delegates to the components' `apply_snapshot` |
| HighLevelSystems.AssembleStep | common/machine/high_level_system.py:116-138 | one more device either ends the build with its error or adds its snapshot under its handle; its warnings follow the earlier ones |
| HighLevelSystems.CaptureDeviceIn | common/machine/high_level_system.py:119-137 | one device's `create_snapshot()` inside the loop, as `CaptureAt` says, keeping every other device's state |
| HighLevelSystems.ApplyDeviceIn | common/machine/high_level_system.py:141-166 | one device applied inside the loop, as `ApplyDevice` says, keeping every other device's state |
| Area.NewMachineArea | common/machine/area.py:15-25 | a `MachineArea` is built exactly from a string name; any other value is rejected with `ValueError` |
| Area.StringToMachineArea | common/machine/area.py:28-42 | `None` raises `ValueError`; a string becomes the area of that name; an area is returned unchanged; any other argument falls through to `None` |
| Area.StringToMachineAreaIdempotent | common/machine/area.py:41-42 | converting the area a conversion returned gives the same result again |
| Config.IndexOf | common/machine/hardware.py:686-687 | `list.index`: the first position holding the element |
| Config.AreaIndex | common/machine/hardware.py:686-687 | `MACHINE_AREAS.index(area)`: the position of an area of the machine |
| Sorting.SortSpec | common/machine/factory.py:137-141 | `sorted` returns its items, each as often as given, in key order |
| Sorting.SortStable | common/machine/factory.py:137-141 | `sorted` is stable: the items with one key keep their relative order |
| Sorting.SortSortedIsIdentity | common/machine/factory.py:137-141 | sorting an already sorted sequence changes nothing |
| Sorting.SortKeepsDistinctKeys | common/machine/factory.py:135-141 | rebuilding a dictionary from its sorted items keeps its keys distinct |
| Sorting.SortKeys | common/machine/factory.py:135-141 | the sorted dictionary has the same keys |
| Sorting.SortEntries | common/machine/factory.py:135-141 | every sorted item is an item of the original dictionary |
| OrderedDicts.Keys | common/machine/factory.py:605 | `list(d.keys())`: the keys in insertion order |
| OrderedDicts.Lookup | common/machine/factory.py:154-155 | `k in d` then `d[k]`: found exactly when the key is present |
| OrderedDicts.LookupAt | common/machine/factory.py:154-155 | in a dictionary with distinct keys, each key finds its own entry |
| OrderedDicts.Update | common/machine/factory.py:594 | `d.update({k: v})`: afterwards `k` gives `v` |
| OrderedDicts.UpdateOther | common/machine/factory.py:594 | every other key keeps its value |
| OrderedDicts.UpdateAppends | common/machine/factory.py:594 | a new key goes at the end |
| OrderedDicts.UpdateKeys | common/machine/factory.py:594 | an existing key keeps its place; a new key is appended to the keys |
| OrderedDicts.UpdateDistinct | common/machine/factory.py:594 | the keys stay distinct |
| OrderedDicts.UpdateEntries | common/machine/factory.py:594 | every entry afterwards was an entry before or is the new one |
| OrderedDicts.Tabulate | common/machine/hardware.py:179-183 | a dictionary filled name by name: distinct keys, exactly the names, each holding its computed value |
| OrderedDicts.UpdateAllSpec | common/machine/factory.py:250-255 | `d.update(e)`: distinct keys, exactly those of both, each entry from one of them |
| OrderedDicts.UpdateAllKeys | common/machine/factory.py:250-255 | the keys of `d.update(e)` are those of `d` and `e` |
| PyValues.PyEqReflexive | common/machine/snapshot.py:118 | Python `==` on snapshot values holds between a value and itself |
| PyValues.PyEqSymmetric | common/machine/snapshot.py:118 | Python `==` on snapshot values is symmetric |
| PyValues.Truncate | common/machine/pv_utils.py:523 | `int()` of a float truncates toward zero |
| PyValues.Abs | common/machine/pv_utils.py:691-694 | `abs()`: non-negative and equal to the value or its negation |
| PyValues.Upper | common/machine/pv_utils.py:139 | `str.upper()` keeps the length and maps each character |
| PyValues.UpperIdempotent | common/machine/hardware.py:394 | uppercasing twice is uppercasing once |
| PyValues.StripTrims | common/machine/hardware.py:406 | `str.strip()` gives the middle of the string without leading or trailing whitespace |
| PyValues.Split | common/machine/hardware.py:405 | `str.split(sep)` gives at least one part and no part contains the separator |
| PyValues.JoinSplit | common/machine/hardware.py:405 | joining the parts of a split with the separator gives back the string |
| PyValues.SplitJoin | common/machine/hardware.py:405 | splitting parts joined with the separator gives back the parts |
| PyValues.SplitCount | common/machine/hardware.py:405 | a split has one more part than the string has separators |
| PyValues.FloatList | common/machine/hardware.py:642-643 | `tolist()` of a float column: one float per sample, in order |

## Left out

- **EPICS protocols** (`common/machine/protocol.py`): the `CA` and `PVA` wrappers are not
  part of this model. Each point talks to a `Channel` value standing for the control
  system: the value it returns, the writes it received, the subscriptions it holds.
  `stop_buffering` on a point with no subscription calls `remove_callback(None)`; what the
  wrappers do with that (for PVA, closing a missing subscription, which can raise) is not
  modelled, and the model's `EndBuffering` leaves the callbacks unchanged there.
- **Connection and timeouts**: `connect`, the connection flags and timeouts.
  `return_none_if_epics_warns` is not modelled.
- **Floating point**: floats are real numbers, so there is no rounding, no NaN and no infinity.
- **Aggregate statistics**: `mean`, `stdev`, `median` and `mode` are not computed. The model
  records the window they would be computed from, and only when the window holds more than
  two readings, which is when the code recomputes them.
- **Threads**: the snapshot threads run as a loop in registry order. `ca.use_initial_context`
  and thread joins are left out.
- **Files**:
  - YAML parsing, `os.listdir`, `makedirs` and `path.exists` are left out. Storage is a map
    from path to document, and a configuration folder is its list of parsed files.
  - Documents are typed below their top level: a device's entry is a dictionary. The
    `TypeError`s the code raises for a device record or entry that is not a dictionary
    (`common/machine/hardware.py:679`, `common/machine/snapshot.py:112-119`) cannot arise.
  - The clock is a parameter.
  - `HighLevelSystemComponents._create_component` (it only loads a file) is left out.
  - The `_get_config_folder` path is left out.
- **Pydantic**:
  - Model construction and `__init__` methods are left out, apart from the validators named
    in the table.
  - The class-level `is_virtual` and `connect_on_creation` flags are left out.
  - The `name`, `aliases` and `hardware_type` accessors and all `__repr__` methods are left out.
- **Dynamic statistics properties**: `create_dynamic_stats_pv_property_from_getter`,
  `add_stats_to_controls_information` and `add_stats_to_hardware` use `inspect` and
  are left out.
- **numpy**: the column split of a statistics buffer into values and timestamps is modelled
  as two sequences of the window.
- **Factory delegations**: these only pass each device to the device's own operation, which
  is modelled in `HardwareModel`.
  - `get_statistics`, `is_buffer_full`, `start_buffering`, `stop_buffering`, `clear_buffer`,
    `is_buffering` and `set_buffer_size` (`common/machine/factory.py:403-561`).
  - `_get_property`, `_set_property_multiple` and the `names` property.
  - The snapshot methods that call the factory's `Snapshot` (`common/machine/factory.py:711-856`).
- **Configuration constants**: `config.py` is modelled only through `MACHINE_AREAS` and the
  `_hardware_types` table. Paths, timeouts and the named tuples built from them are left out.
- **Exceptions**: the exception classes of `common/exceptions.py` are the constructors of
  `Wrappers.Error`.
- HardwareModel.BuildPointMap: the code validates the point entries in declaration order and
  fills the map in the order of `model_fields_set`; the model uses one given order for both,
  so which failing entry is reported first is not pinned to the declaration order.
- HighLevelSystems.ApplyType: an unset field whose default is a device or a non-empty
  dictionary would be applied by the code; the model passes every other attribute over.
- Snapshots.LoadFile: because `path.exists` is left out, an empty filename always gives
  `ValueError`; when the snapshot directory is missing the code raises `FileNotFoundError`
  first (`common/machine/snapshot.py:252-255`).
- PVUtils.CreatePV: a state entry without states fails with `ValueError`, which is what
  building the enumeration from no names raises up to Python 3.11; from Python 3.12 on it
  raises `TypeError` instead. States that are not a dictionary are not modelled.
- PyValues.Upper: upper-cases the ASCII letters only. Non-ASCII letters are left unchanged,
  unlike Python's `str.upper`. Area and protocol names are ASCII.
- Factory.SetProperty: returns the calls of the setter in order instead of making them, since
  the setter is a caller-supplied callable whose effect is not visible to the factory.
- Factory.CallOnMany: returns the devices the callable is called on, in order, for the same reason.
- Snapshots.Snapshot.Update: the branch for a single `Hardware` in place of the registry
  (`common/machine/snapshot.py:76-77`) is not modelled; the registry is declared a dictionary
  of devices and `apply` could not handle a single device. The capture order is registry order. With threads, the order in
  which captures finish is not fixed. The document does not depend on that order, since each
  device writes only the key of its own name. Two devices sharing a name write the same key;
  the model keeps the later one in registry order, where the code keeps whichever finishes last.
