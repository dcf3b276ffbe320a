# magField view-model, modelled in Dafny

magField is an iOS app that reads the device magnetometer, shows the three-axis
field, and can record a time series of readings for export. Its only stateful
logic is the view-model `MagFieldVM`: it toggles recording, keeps the log of
recorded measurements, offers that log for export, and can zero the display by
subtracting a captured offset from every incoming reading.

This project models that state machine. The Swift `didSet` observers become
explicit pure transitions over an immutable state record:

- `wrappers.dfy` — `Option`, standing in for Swift optionals.
- `fields.dfy` — `Field` (three exact real components, the zero field and
  component-wise subtraction) and `Measurement` (a field and an opaque
  timestamp string).
- `mag_field_vm.dfy` — module `MagFieldVM`: the state `VM`, its invariant
  `Valid` and the transitions `RecordPause`, `ClearRecordedData`, `ZeroUnzero`,
  `SetField` (the `field` observer with `recordField`) and `OnSample` (the
  magnetometer handler).
- `traces.dfy` — module `Traces`: user taps and sensor callbacks as `Event`s,
  `Step` and `Run` over sequences of them, and the properties of whole runs.

Each sensor callback is one atomic input event whose reading is an
`Option<Field>` (absent when the sensor delivered no data) and whose timestamp
is passed in. Tapping "zero" while no field has been shown force-unwraps `nil`
and traps: `ZeroUnzero` requires a field in that case, and `Step` returns
`None` for it.

`recordPause` is a single toggle; starting a recording keeps the existing log;
export is offered when the log is non-empty. Stopping with an empty log leaves
the export flag as it was; under the invariant it is already off, so after a
stop the flag is true exactly when the log is non-empty.

## Model

| member | source | states |
|---|---|---|
| MagFieldVM.Init | magField/magFieldVM.swift:24-59 | The view-model starts idle, unzeroed, with no field, an empty log and no export offer, and satisfies the invariant. |
| MagFieldVM.RecordPause | magField/magFieldVM.swift:24-31 | Recording flips; the log, the field and the zeroing state are untouched; starting never changes the export flag; stopping with a non-empty log raises it; the flag is never lowered here; the invariant is kept. |
| MagFieldVM.ClearRecordedData | magField/magFieldVM.swift:69-72 | In any state the log becomes empty and the export flag false, while recording, zeroing, the field and the offset are untouched. |
| MagFieldVM.ZeroUnzero | magField/magFieldVM.swift:33-42 | Zeroing flips; turning it on needs a shown field and makes it the offset; turning it off resets the offset to the zero field; nothing else changes; the invariant is kept. |
| MagFieldVM.SetField | magField/magFieldVM.swift:47-54 | The new field is shown; while recording exactly one measurement of it with the given timestamp is appended at the end of the log, otherwise the log is unchanged. |
| MagFieldVM.OnSample | magField/magFieldVM.swift:99-105 | The shown field is the reading minus the offset, or -999 minus the offset on every axis when the reading is missing; while recording that corrected value is what gets logged. |
| MagFieldVM.StopOffersExportIffLogged | magField/magFieldVM.swift:26-29 | Under the invariant, stopping a recording offers export if and only if the log is non-empty. |
| MagFieldVM.ZeroUnzeroTwiceRestores | magField/magFieldVM.swift:74-76 | From an unzeroed state, zeroing and then unzeroing restores exactly the original state, including the zero offset. |
| MagFieldVM.UnzeroedSampleIsRaw | magField/magFieldVM.swift:100-105 | With zeroing off, a reading is shown and recorded unchanged. |
| MagFieldVM.RezeroCapturesShownField | magField/magFieldVM.swift:36-37 | Unzeroing and re-zeroing before the next reading makes the shown, already corrected, field the new offset. |
| Traces.Step | magField/magFieldVM.swift:61-76 | An event fails exactly when it is a zero tap with zeroing off and no field shown; every other event yields a state, and the invariant is kept. |
| Traces.RunPreservesValid | magField/magFieldVM.swift:27-28 | After any sequence of events that does not trap, export is only offered with a non-empty log and the offset is zero whenever zeroing is off. |
| Traces.StepLogAppendOnly | magField/magFieldVM.swift:59-72 | Every event other than a clear keeps the old log as a prefix of the new one; a clear empties it. |
| Traces.RunLogAppendOnly | magField/magFieldVM.swift:110-114 | Over any run without a clear, the starting log is a prefix of the final log. |
| Traces.AppendOnlyBetweenClears | magField/magFieldVM.swift:69-72 | For any two points of a run with no clear between them, the earlier log is a prefix of the later one. |
| Traces.RecordingLogsEverySample | magField/magFieldVM.swift:99-114 | While recording, a run of sensor updates appends one offset-corrected measurement per update, in arrival order, and leaves recording, zeroing and the export flag alone. |
| Traces.IdleIgnoresSamples | magField/magFieldVM.swift:47-54 | While not recording, sensor updates never change the log or the export flag. |
| Traces.RecordingSession | magField/magFieldVM.swift:65-67 | Start, N sensor updates, stop: the log gains exactly the N corrected measurements and export is offered exactly when the log is non-empty. |
| Traces.ZeroingShiftsReadings | magField/magFieldVM.swift:100-104 | Zeroing while field F is shown makes the next reading S appear as S - F; zeroing a second time makes it appear as S again. |

## Left out

- `isRunning` and `playPause`: they only start and stop the magnetometer, which is hardware I/O; every sensor callback is taken as an input event whenever it arrives.
- The magnetometer update interval and the hop onto the main queue: timing and threading; each callback is one atomic event.
- The date formatter: the timestamp is an opaque string passed in with each event.
- Floating-point arithmetic: field components are exact reals, so `Double` rounding in the subtraction is not modelled.
- Units, conversion factors, magnitude, direction and the CSV writer: presentation of a field, not part of the state machine.
- The SwiftUI views and the app entry point: user interface only.
