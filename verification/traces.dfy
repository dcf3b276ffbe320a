/**
 * Sequences of user actions and sensor callbacks driving the view-model, and
 * the properties that hold along them: the invariant, the append-only log
 * between clears, and what a recording session leaves in the log.
 */
module Traces {
  import opened Wrappers
  import opened Fields
  import opened MagFieldVM

  /** The inputs the view-model reacts to, one at a time on the main queue. */
  datatype Event =
    | RecordPauseTapped
    | ClearTapped
    | ZeroTapped
    | SensorUpdate(reading: Option<Field>, time: Timestamp)

  /** Zeroing with no field shown force-unwraps `nil`, which traps. */
  predicate Traps(s: VM, e: Event)
  {
    e.ZeroTapped? && !s.isZeroed && s.field.None?
  }

  /** The state after one event, or `None` when the event traps. */
  function Step(s: VM, e: Event): (r: Option<VM>)
    ensures r.None? <==> Traps(s, e)
    ensures r.Some? && Valid(s) ==> Valid(r.value)
  {
    match e
    case RecordPauseTapped => Some(RecordPause(s))
    case ClearTapped => Some(ClearRecordedData(s))
    case ZeroTapped => if Traps(s, e) then None else Some(ZeroUnzero(s))
    case SensorUpdate(reading, time) => Some(OnSample(s, reading, time))
  }

  /** The state after a whole sequence of events, or `None` if one of them traps. */
  function Run(s: VM, es: seq<Event>): Option<VM>
    decreases |es|
  {
    if |es| == 0 then Some(s)
    else match Step(s, es[0])
      case None => None
      case Some(t) => Run(t, es[1..])
  }

  predicate NoClear(es: seq<Event>)
  {
    forall i | 0 <= i < |es| :: !es[i].ClearTapped?
  }

  predicate AllSamples(es: seq<Event>)
  {
    forall i | 0 <= i < |es| :: es[i].SensorUpdate?
  }

  /** Reference: the measurements a run of sensor updates should log under a fixed offset. */
  function Corrected(es: seq<Event>, offset: Field): seq<Measurement>
    requires AllSamples(es)
    decreases |es|
  {
    if |es| == 0 then []
    else [Measurement(Sub(RawField(es[0].reading), offset), es[0].time)] + Corrected(es[1..], offset)
  }

  /** Every transition keeps the invariant, whatever the events. */
  lemma {:induction false} RunPreservesValid(s: VM, es: seq<Event>)
    requires Valid(s)
    requires Run(s, es).Some?
    ensures Valid(Run(s, es).value)
    decreases |es|
  {
    if |es| > 0 {
      var t := Step(s, es[0]).value;
      RunPreservesValid(t, es[1..]);
    }
  }

  /** Running two sequences back to back is running their concatenation. */
  lemma {:induction false} RunConcat(s: VM, a: seq<Event>, b: seq<Event>)
    ensures Run(s, a + b) == (if Run(s, a).Some? then Run(Run(s, a).value, b) else None)
    decreases |a|
  {
    if |a| > 0 {
      assert (a + b)[0] == a[0];
      assert (a + b)[1..] == a[1..] + b;
      if Step(s, a[0]).Some? {
        RunConcat(Step(s, a[0]).value, a[1..], b);
      }
    } else {
      assert a + b == b;
    }
  }

  /** Only a clear shortens the log: any other event keeps the old log as a prefix. */
  lemma StepLogAppendOnly(s: VM, e: Event)
    requires Step(s, e).Some?
    ensures !e.ClearTapped? ==> s.recordedData <= Step(s, e).value.recordedData
    ensures e.ClearTapped? ==> Step(s, e).value.recordedData == []
  {
  }

  /** Without a clear, the log at the start of a run is a prefix of the log at its end. */
  lemma {:induction false} RunLogAppendOnly(s: VM, es: seq<Event>)
    requires NoClear(es)
    requires Run(s, es).Some?
    ensures s.recordedData <= Run(s, es).value.recordedData
    decreases |es|
  {
    if |es| > 0 {
      var t := Step(s, es[0]).value;
      StepLogAppendOnly(s, es[0]);
      assert NoClear(es[1..]) by {
        forall i | 0 <= i < |es[1..]| ensures !es[1..][i].ClearTapped? {
          assert es[1..][i] == es[i + 1];
        }
      }
      RunLogAppendOnly(t, es[1..]);
    }
  }

  /**
   * Between clears the log is append-only: if no clear happens between the
   * i-th and the j-th point of a run, the earlier log is a prefix of the later.
   */
  lemma AppendOnlyBetweenClears(s: VM, es: seq<Event>, i: nat, j: nat)
    requires i <= j <= |es|
    requires Run(s, es[..j]).Some?
    requires NoClear(es[i..j])
    ensures Run(s, es[..i]).Some?
    ensures Run(s, es[..i]).value.recordedData <= Run(s, es[..j]).value.recordedData
  {
    assert es[..j] == es[..i] + es[i..j];
    RunConcat(s, es[..i], es[i..j]);
    RunLogAppendOnly(Run(s, es[..i]).value, es[i..j]);
  }

  /**
   * While recording, every sensor update appends exactly one measurement, the
   * offset-corrected reading with its timestamp, in arrival order.
   */
  lemma {:induction false} RecordingLogsEverySample(s: VM, es: seq<Event>)
    requires s.isRecording
    requires AllSamples(es)
    ensures Run(s, es).Some?
    ensures Run(s, es).value.recordedData == s.recordedData + Corrected(es, s.zeroedField)
    ensures Run(s, es).value.isRecording
    ensures Run(s, es).value.isZeroed == s.isZeroed
    ensures Run(s, es).value.zeroedField == s.zeroedField
    ensures Run(s, es).value.hasDataToExport == s.hasDataToExport
    decreases |es|
  {
    if |es| > 0 {
      var t := OnSample(s, es[0].reading, es[0].time);
      assert Step(s, es[0]) == Some(t);
      assert AllSamples(es[1..]) by {
        forall i | 0 <= i < |es[1..]| ensures es[1..][i].SensorUpdate? {
          assert es[1..][i] == es[i + 1];
        }
      }
      RecordingLogsEverySample(t, es[1..]);
      assert t.recordedData == s.recordedData + [Measurement(Sub(RawField(es[0].reading), s.zeroedField), es[0].time)];
    }
  }

  /** While not recording, sensor updates change what is shown but never the log. */
  lemma {:induction false} IdleIgnoresSamples(s: VM, es: seq<Event>)
    requires !s.isRecording
    requires AllSamples(es)
    ensures Run(s, es).Some?
    ensures Run(s, es).value.recordedData == s.recordedData
    ensures !Run(s, es).value.isRecording
    ensures Run(s, es).value.hasDataToExport == s.hasDataToExport
    decreases |es|
  {
    if |es| > 0 {
      var t := OnSample(s, es[0].reading, es[0].time);
      assert Step(s, es[0]) == Some(t);
      assert AllSamples(es[1..]) by {
        forall i | 0 <= i < |es[1..]| ensures es[1..][i].SensorUpdate? {
          assert es[1..][i] == es[i + 1];
        }
      }
      IdleIgnoresSamples(t, es[1..]);
    }
  }

  /**
   * A recording session: start, N sensor updates, stop. The log gains exactly
   * the N corrected measurements, and export is offered exactly when the log
   * is non-empty.
   */
  lemma RecordingSession(s: VM, es: seq<Event>)
    requires Valid(s)
    requires !s.isRecording
    requires AllSamples(es)
    ensures Run(s, [RecordPauseTapped] + es + [RecordPauseTapped]).Some?
    ensures var t := Run(s, [RecordPauseTapped] + es + [RecordPauseTapped]).value;
      && !t.isRecording
      && t.recordedData == s.recordedData + Corrected(es, s.zeroedField)
      && |t.recordedData| == |s.recordedData| + |es|
      && (t.hasDataToExport <==> |t.recordedData| > 0)
  {
    var started := RecordPause(s);
    assert Run(s, [RecordPauseTapped]) == Some(started);
    RecordingLogsEverySample(started, es);
    var recorded := Run(started, es).value;
    var stopped := RecordPause(recorded);
    assert Run(recorded, [RecordPauseTapped]) == Some(stopped);
    RunConcat(s, [RecordPauseTapped], es);
    RunConcat(s, [RecordPauseTapped] + es, [RecordPauseTapped]);
    CorrectedLength(es, s.zeroedField);
  }

  lemma {:induction false} CorrectedLength(es: seq<Event>, offset: Field)
    requires AllSamples(es)
    ensures |Corrected(es, offset)| == |es|
    decreases |es|
  {
    if |es| > 0 {
      assert AllSamples(es[1..]) by {
        forall i | 0 <= i < |es[1..]| ensures es[1..][i].SensorUpdate? {
          assert es[1..][i] == es[i + 1];
        }
      }
      CorrectedLength(es[1..], offset);
    }
  }

  /**
   * Zeroing while a field F is shown makes the next reading S appear as
   * S - F; zeroing again restores the raw reading.
   */
  lemma ZeroingShiftsReadings(s: VM, f: Field, raw: Field, time: Timestamp)
    requires Valid(s)
    requires !s.isZeroed
    requires s.field == Some(f)
    ensures Run(s, [ZeroTapped, SensorUpdate(Some(raw), time)]).Some?
    ensures Run(s, [ZeroTapped, SensorUpdate(Some(raw), time)]).value.field == Some(Sub(raw, f))
    ensures Run(s, [ZeroTapped, ZeroTapped, SensorUpdate(Some(raw), time)]).Some?
    ensures Run(s, [ZeroTapped, ZeroTapped, SensorUpdate(Some(raw), time)]).value.field == Some(raw)
  {
    var e := SensorUpdate(Some(raw), time);
    var zeroed := ZeroUnzero(s);
    var unzeroed := ZeroUnzero(zeroed);
    assert zeroed.zeroedField == f;
    assert unzeroed.zeroedField == Zero;
    var shifted := OnSample(zeroed, Some(raw), time);
    var plain := OnSample(unzeroed, Some(raw), time);
    assert shifted.field == Some(Sub(raw, f));
    assert plain.field == Some(Sub(raw, Zero)) == Some(raw);
    assert Run(zeroed, [e]) == Some(shifted) by {
      assert [e][1..] == [];
    }
    assert Run(unzeroed, [e]) == Some(plain) by {
      assert [e][1..] == [];
    }
    assert Run(s, [ZeroTapped, e]) == Run(zeroed, [e]) by {
      assert [ZeroTapped, e][1..] == [e];
    }
    assert Run(zeroed, [ZeroTapped, e]) == Run(unzeroed, [e]) by {
      assert [ZeroTapped, e][1..] == [e];
    }
    assert Run(s, [ZeroTapped, ZeroTapped, e]) == Run(zeroed, [ZeroTapped, e]) by {
      assert [ZeroTapped, ZeroTapped, e][1..] == [ZeroTapped, e];
    }
  }
}
