/**
 * The recording and zeroing state machine of the magnetometer view-model.
 *
 * Each Swift `didSet` observer of the view-model becomes an explicit, pure
 * transition over an immutable state record; each sensor callback is one
 * atomic input event carrying the (possibly missing) raw reading and the
 * clock's timestamp.
 */
module MagFieldVM {
  import opened Wrappers
  import opened Fields

  datatype VM = VM(
    isRecording: bool,
    hasDataToExport: bool,
    isZeroed: bool,
    field: Option<Field>,
    zeroedField: Field,
    recordedData: seq<Measurement>)

  /**
   * The invariant every transition keeps: export is only offered when there is
   * something to export, and the offset is the zero field whenever zeroing is off.
   */
  predicate Valid(s: VM)
  {
    && (s.hasDataToExport ==> |s.recordedData| > 0)
    && (!s.isZeroed ==> s.zeroedField == Zero)
  }

  /** The state the view-model starts in: idle, unzeroed, no reading, empty log. */
  function Init(): (s: VM)
    ensures Valid(s)
    ensures !s.isRecording && !s.hasDataToExport && !s.isZeroed
    ensures s.field.None? && s.recordedData == []
  {
    VM(false, false, false, None, Zero, [])
  }

  /**
   * `recordPause`: toggle recording. Stopping with a non-empty log offers the
   * data for export; nothing here ever withdraws that offer.
   */
  function RecordPause(s: VM): (r: VM)
    ensures r.isRecording == !s.isRecording
    ensures r.recordedData == s.recordedData
    ensures r.isZeroed == s.isZeroed && r.field == s.field && r.zeroedField == s.zeroedField
    ensures r.isRecording ==> r.hasDataToExport == s.hasDataToExport
    ensures !r.isRecording && |s.recordedData| > 0 ==> r.hasDataToExport
    ensures s.hasDataToExport ==> r.hasDataToExport
    ensures |s.recordedData| == 0 ==> r.hasDataToExport == s.hasDataToExport
    ensures Valid(s) ==> Valid(r)
  {
    var recording := !s.isRecording;
    var offered := if !recording && |s.recordedData| > 0 then true else s.hasDataToExport;
    s.(isRecording := recording, hasDataToExport := offered)
  }

  /** `clearRecordedData`: discard the log and withdraw the export offer, in any state. */
  function ClearRecordedData(s: VM): (r: VM)
    ensures r.recordedData == [] && !r.hasDataToExport
    ensures r.isRecording == s.isRecording && r.isZeroed == s.isZeroed
    ensures r.field == s.field && r.zeroedField == s.zeroedField
    ensures Valid(s) ==> Valid(r)
  {
    s.(recordedData := [], hasDataToExport := false)
  }

  /**
   * `zeroUnzero`: toggle zeroing. Turning it on captures the field currently
   * shown as the offset (Swift's `self.field!` traps on nil, so there must be one);
   * turning it off restores the zero offset.
   */
  function ZeroUnzero(s: VM): (r: VM)
    requires !s.isZeroed ==> s.field.Some?
    ensures r.isZeroed == !s.isZeroed
    ensures r.isZeroed ==> r.zeroedField == s.field.value
    ensures !r.isZeroed ==> r.zeroedField == Zero
    ensures r.isRecording == s.isRecording && r.hasDataToExport == s.hasDataToExport
    ensures r.field == s.field && r.recordedData == s.recordedData
    ensures Valid(s) ==> Valid(r)
  {
    var zeroed := !s.isZeroed;
    var offset := if zeroed then s.field.value else Zero;
    s.(isZeroed := zeroed, zeroedField := offset)
  }

  /**
   * Assigning `field`: the new value is shown and, while recording, appended
   * to the log with the given timestamp (`recordField`).
   */
  function SetField(s: VM, f: Field, time: Timestamp): (r: VM)
    ensures r.field == Some(f)
    ensures s.recordedData <= r.recordedData
    ensures |r.recordedData| == |s.recordedData| + (if s.isRecording then 1 else 0)
    ensures s.isRecording ==> r.recordedData[|s.recordedData|] == Measurement(f, time)
    ensures r.isRecording == s.isRecording && r.hasDataToExport == s.hasDataToExport
    ensures r.isZeroed == s.isZeroed && r.zeroedField == s.zeroedField
    ensures Valid(s) ==> Valid(r)
  {
    var shown := s.(field := Some(f));
    if s.isRecording then shown.(recordedData := s.recordedData + [Measurement(f, time)])
    else shown
  }

  /** The raw field of a sensor callback: its reading, or -999 on every axis when there is none. */
  function RawField(reading: Option<Field>): Field
  {
    match reading
    case Some(d) => d
    case None => Field(MissingAxis, MissingAxis, MissingAxis)
  }

  /**
   * The magnetometer handler: the raw reading minus the current offset
   * becomes the new `field`, and is recorded when recording is on.
   */
  function OnSample(s: VM, reading: Option<Field>, time: Timestamp): (r: VM)
    ensures reading.Some? ==> r.field == Some(Sub(reading.value, s.zeroedField))
    ensures reading.None? ==> r.field == Some(Field(
      MissingAxis - s.zeroedField.x, MissingAxis - s.zeroedField.y, MissingAxis - s.zeroedField.z))
    ensures s.isRecording ==> r.recordedData == s.recordedData + [Measurement(r.field.value, time)]
    ensures !s.isRecording ==> r.recordedData == s.recordedData
    ensures r.isRecording == s.isRecording && r.hasDataToExport == s.hasDataToExport
    ensures r.isZeroed == s.isZeroed && r.zeroedField == s.zeroedField
    ensures Valid(s) ==> Valid(r)
  {
    SetField(s, Sub(RawField(reading), s.zeroedField), time)
  }

  /**
   * Under the invariant, stopping a recording offers export exactly when the
   * log is non-empty: with an empty log the offer was already off.
   */
  lemma StopOffersExportIffLogged(s: VM)
    requires Valid(s)
    requires s.isRecording
    ensures RecordPause(s).hasDataToExport <==> |s.recordedData| > 0
  {
  }

  /** From the unzeroed state, zeroing and then unzeroing gives back the very same state. */
  lemma ZeroUnzeroTwiceRestores(s: VM)
    requires Valid(s)
    requires !s.isZeroed && s.field.Some?
    ensures ZeroUnzero(ZeroUnzero(s)) == s
  {
  }

  /** With zeroing off, a reading is shown, and recorded, exactly as it arrived. */
  lemma UnzeroedSampleIsRaw(s: VM, raw: Field, time: Timestamp)
    requires Valid(s)
    requires !s.isZeroed
    ensures OnSample(s, Some(raw), time).field == Some(raw)
    ensures s.isRecording ==>
      OnSample(s, Some(raw), time).recordedData == s.recordedData + [Measurement(raw, time)]
  {
  }

  /**
   * Re-zeroing captures the field as shown, which is already corrected by the
   * offset in force when it arrived: unzeroing and zeroing again before the
   * next reading makes that corrected value the new offset.
   */
  lemma RezeroCapturesShownField(s: VM)
    requires s.isZeroed && s.field.Some?
    ensures ZeroUnzero(ZeroUnzero(s)).isZeroed
    ensures ZeroUnzero(ZeroUnzero(s)).zeroedField == s.field.value
  {
  }
}
