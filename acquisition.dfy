/**
 * The sensor settings step and the acquisition loop: `calibrate_sensor` and
 * `stream_sensor_data`.  The vendor calls are inputs: `bme280_set_sensor_settings`
 * is a function of the selector and the settings it is given, the measurement
 * delay a function of the settings, and each pass of the loop meets one
 * `Cycle` saying what the mode call and the data read returned.  What the loop
 * does to the outside world is an `Event` trace.
 */
module Acquisition {
  import opened Bme280
  import opened Averaging

  // ---------------------------------------------------------------------------
  // Settings step
  // ---------------------------------------------------------------------------

  /** The settings `calibrate_sensor` writes over `s`: 1x humidity, 16x pressure, 2x temperature oversampling, filter coefficient 16. */
  function Calibrated(s: Settings): (r: Settings)
    ensures r.osrH == Oversampling1X && r.osrP == Oversampling16X && r.osrT == Oversampling2X
    ensures r.filter == FilterCoeff16
    ensures r.standbyTime == s.standbyTime
  {
    s.(osrH := Oversampling1X, osrP := Oversampling16X, osrT := Oversampling2X, filter := FilterCoeff16)
  }

  /** The settings groups `calibrate_sensor` asks the vendor to write. */
  function CalibrationSelector(): (sel: Selector)
    ensures Selects(sel, OsrPressSel) && Selects(sel, OsrTempSel)
    ensures Selects(sel, OsrHumSel) && Selects(sel, FilterSel)
    ensures !Selects(sel, StandbySel)
  {
    OsrPressSel | OsrTempSel | OsrHumSel | FilterSel
  }

  /**
   * `calibrate_sensor`: store the fixed oversampling and filter settings in the
   * device, then hand the four groups to the vendor's settings call and return
   * its result unchanged.
   */
  method CalibrateSensor(dev: Device, setSettings: (Selector, Settings) -> Status) returns (result: Status)
    modifies dev`settings
    ensures dev.settings == Calibrated(old(dev.settings))
    ensures result == setSettings(CalibrationSelector(), dev.settings)
  {
    dev.settings := dev.settings.(osrH := Oversampling1X);
    dev.settings := dev.settings.(osrP := Oversampling16X);
    dev.settings := dev.settings.(osrT := Oversampling2X);
    dev.settings := dev.settings.(filter := FilterCoeff16);
    var settingsSel := OsrPressSel | OsrTempSel | OsrHumSel | FilterSel;
    result := setSettings(settingsSel, dev.settings);
  }

  // ---------------------------------------------------------------------------
  // Acquisition loop
  // ---------------------------------------------------------------------------

  /** What the vendor returned during one pass of the loop: the forced-mode call, the data read, and the data. */
  datatype Cycle = Cycle(modeResult: Status, dataResult: Status, data: SensorData)

  /** A pass that reaches the running sums. */
  predicate Completes(c: Cycle)
  {
    c.modeResult == Ok && c.dataResult == Ok
  }

  /** What the loop does outside itself, in order. */
  datatype Event =
    | SetForcedMode            // bme280_set_sensor_mode, forced mode
    | Delay(us: nat)           // the device's delay callback, with the measurement delay
    | GetSensorData            // bme280_get_sensor_data, all three quantities
    | Save(means: SensorData)  // save_measurements

  /** How `stream_sensor_data` ended within the given outcomes. */
  datatype StreamOutcome =
    | Rejected(code: Status)  // the settings call failed; this code is returned
    | Halted                  // a mode or data call failed; the loop broke (the C return value is undefined)
    | Exhausted               // every outcome was consumed; the real loop would go on

  /** The readings the loop adds to its sums: those of the passes before the first failure. */
  function Readings(cs: seq<Cycle>): (rs: seq<SensorData>)
    ensures |rs| <= |cs|
  {
    if cs == [] || !Completes(cs[0]) then [] else [cs[0].data] + Readings(cs[1..])
  }

  /**
   * The readings are exactly the data of the longest run of completed passes
   * at the front: each of them completed and gave its data, and the pass right
   * after them, if there is one, failed.
   */
  lemma {:induction false} ReadingsArePrefix(cs: seq<Cycle>)
    ensures forall j :: 0 <= j < |Readings(cs)| ==> Completes(cs[j]) && Readings(cs)[j] == cs[j].data
    ensures |Readings(cs)| < |cs| ==> !Completes(cs[|Readings(cs)|])
  {
    if cs != [] && Completes(cs[0]) {
      ReadingsArePrefix(cs[1..]);
    }
  }

  /** The driver calls of one pass: a failed mode call is not followed by the delay or the read. */
  function PassCalls(c: Cycle, reqDelay: nat): seq<Event>
  {
    if c.modeResult != Ok then [SetForcedMode] else [SetForcedMode, Delay(reqDelay), GetSensorData]
  }

  /** The driver calls of the whole loop, up to and including the failing pass. */
  function Interaction(cs: seq<Cycle>, reqDelay: nat): seq<Event>
  {
    if cs == [] then []
    else PassCalls(cs[0], reqDelay) + (if Completes(cs[0]) then Interaction(cs[1..], reqDelay) else [])
  }

  /** `block` repeated `n` times. */
  function Repeat(block: seq<Event>, n: nat): seq<Event>
  {
    if n == 0 then [] else block + Repeat(block, n - 1)
  }

  /**
   * Every pass before the first failure is exactly mode, delay by the one
   * `reqDelay`, read; then the failing pass, if any, ends the calls.
   */
  lemma {:induction false} InteractionShape(cs: seq<Cycle>, reqDelay: nat)
    ensures var n := |Readings(cs)|;
      Interaction(cs, reqDelay)
      == Repeat([SetForcedMode, Delay(reqDelay), GetSensorData], n)
         + (if n < |cs| then PassCalls(cs[n], reqDelay) else [])
  {
    if cs != [] && Completes(cs[0]) {
      InteractionShape(cs[1..], reqDelay);
      assert Readings(cs) == [cs[0].data] + Readings(cs[1..]);
    }
  }

  /** The triples saved, in order. */
  function Saves(es: seq<Event>): seq<SensorData>
    decreases |es|
  {
    if es == [] then []
    else Saves(es[..|es| - 1]) + (if es[|es| - 1].Save? then [es[|es| - 1].means] else [])
  }

  /** The driver calls, in order: every event but the saves. */
  function Calls(es: seq<Event>): seq<Event>
    decreases |es|
  {
    if es == [] then []
    else Calls(es[..|es| - 1]) + (if es[|es| - 1].Save? then [] else [es[|es| - 1]])
  }

  /** The number of data reads among `es`. */
  function Reads(es: seq<Event>): nat
    decreases |es|
  {
    if es == [] then 0 else Reads(es[..|es| - 1]) + (if es[|es| - 1] == GetSensorData then 1 else 0)
  }

  /**
   * Whether a save is due at position `k` of `es`, when `pending` readings were
   * already in the running sums before `es` began: the event just before is a
   * data read, and counting it the readings summed reach a multiple of ten.
   */
  ghost predicate SaveDue(es: seq<Event>, k: int, pending: nat)
  {
    0 < k <= |es| && es[k - 1] == GetSensorData && (pending + Reads(es[..k])) % WindowSize == 0
  }

  /** The saves of `es` sit exactly where a save is due: after every tenth reading and nowhere else. */
  ghost predicate SavesAtWindowEnds(es: seq<Event>, pending: nat)
  {
    forall k {:trigger SaveDue(es, k, pending)} :: 0 <= k < |es| ==> (es[k].Save? <==> SaveDue(es, k, pending))
  }

  /** The saves split over concatenation. */
  lemma {:induction false} SavesSplit(a: seq<Event>, b: seq<Event>)
    ensures Saves(a + b) == Saves(a) + Saves(b)
    decreases |b|
  {
    if b == [] {
      assert a + b == a;
    } else {
      var b' := b[..|b| - 1];
      SavesSplit(a, b');
      assert (a + b)[..|a + b| - 1] == a + b';
      assert (a + b)[|a + b| - 1] == b[|b| - 1];
    }
  }

  /** The driver calls split over concatenation. */
  lemma {:induction false} CallsSplit(a: seq<Event>, b: seq<Event>)
    ensures Calls(a + b) == Calls(a) + Calls(b)
    decreases |b|
  {
    if b == [] {
      assert a + b == a;
    } else {
      var b' := b[..|b| - 1];
      CallsSplit(a, b');
      assert (a + b)[..|a + b| - 1] == a + b';
      assert (a + b)[|a + b| - 1] == b[|b| - 1];
    }
  }

  /** One pass's driver calls hold no save. */
  lemma PassNoSaves(c: Cycle, reqDelay: nat)
    ensures Saves(PassCalls(c, reqDelay)) == []
  {
    OneCall(SetForcedMode);
    if c.modeResult == Ok {
      var s, d, g := SetForcedMode, Delay(reqDelay), GetSensorData;
      OneCall(d);
      OneCall(g);
      SavesSplit([s], [d]);
      SavesSplit([s] + [d], [g]);
      assert [s] + [d] + [g] == PassCalls(c, reqDelay);
    }
  }

  /** One pass's driver calls are all calls. */
  lemma PassAllCalls(c: Cycle, reqDelay: nat)
    ensures Calls(PassCalls(c, reqDelay)) == PassCalls(c, reqDelay)
  {
    OneCall(SetForcedMode);
    if c.modeResult == Ok {
      var s, d, g := SetForcedMode, Delay(reqDelay), GetSensorData;
      OneCall(d);
      OneCall(g);
      CallsSplit([s], [d]);
      CallsSplit([s] + [d], [g]);
      assert [s] + [d] + [g] == PassCalls(c, reqDelay);
    }
  }

  /** The reads counted over concatenation. */
  lemma {:induction false} ReadsSplit(a: seq<Event>, b: seq<Event>)
    ensures Reads(a + b) == Reads(a) + Reads(b)
    decreases |b|
  {
    if b == [] {
      assert a + b == a;
    } else {
      var b' := b[..|b| - 1];
      ReadsSplit(a, b');
      assert (a + b)[..|a + b| - 1] == a + b';
      assert (a + b)[|a + b| - 1] == b[|b| - 1];
    }
  }

  /** A single event is one read or none. */
  lemma OneReads(e: Event)
    ensures Reads([e]) == if e == GetSensorData then 1 else 0
  {
    assert [e][..0] == [];
  }

  /** A pass that gets past the mode call makes exactly one read. */
  lemma PassReads(c: Cycle, reqDelay: nat)
    ensures Reads(PassCalls(c, reqDelay)) == if c.modeResult == Ok then 1 else 0
  {
    OneReads(SetForcedMode);
    if c.modeResult == Ok {
      var s, d, g := SetForcedMode, Delay(reqDelay), GetSensorData;
      OneReads(d);
      OneReads(g);
      ReadsSplit([s], [d]);
      ReadsSplit([s] + [d], [g]);
      assert [s] + [d] + [g] == PassCalls(c, reqDelay);
    }
  }

  /** A pass's driver calls hold no save, and no save is due inside them. */
  lemma PassPlaced(c: Cycle, reqDelay: nat, pending: nat)
    ensures SavesAtWindowEnds(PassCalls(c, reqDelay), pending)
  {
    var p := PassCalls(c, reqDelay);
    forall k | 0 <= k < |p|
      ensures !p[k].Save? && !SaveDue(p, k, pending)
    {
      if 0 < k {
        assert p[k - 1] != GetSensorData;
      }
    }
  }

  /** A completed pass followed by a save, when its reading completes a window. */
  lemma BlockPlaced(c: Cycle, reqDelay: nat, pending: nat, m: SensorData)
    requires c.modeResult == Ok && (pending + 1) % WindowSize == 0
    ensures SavesAtWindowEnds(PassCalls(c, reqDelay) + [Save(m)], pending)
  {
    var p := PassCalls(c, reqDelay);
    var b := p + [Save(m)];
    PassPlaced(c, reqDelay, pending);
    PassReads(c, reqDelay);
    assert b[..3] == p;
    forall k | 0 <= k < |b|
      ensures b[k].Save? <==> SaveDue(b, k, pending)
    {
      if k < 3 {
        assert b[k] == p[k];
        assert !SaveDue(p, k, pending);
        if 0 < k {
          assert b[k - 1] == p[k - 1];
        }
      }
    }
  }

  /** Only the readings' count modulo ten matters for where saves are due. */
  lemma PlacedShift(es: seq<Event>, pending: nat)
    requires SavesAtWindowEnds(es, pending)
    ensures SavesAtWindowEnds(es, pending + WindowSize)
  {
    forall k | 0 <= k < |es|
      ensures es[k].Save? <==> SaveDue(es, k, pending + WindowSize)
    {
      assert es[k].Save? <==> SaveDue(es, k, pending);
      if 0 < k {
        var n := pending + Reads(es[..k]);
        assert (n + WindowSize) % WindowSize == n % WindowSize;
      }
    }
  }

  /**
   * Joining two traces whose saves sit where they are due, the second one
   * counted on from the first's readings, when no save is due at the seam.
   */
  lemma JoinPlaced(a: seq<Event>, b: seq<Event>, pending: nat)
    requires SavesAtWindowEnds(a, pending)
    requires SavesAtWindowEnds(b, pending + Reads(a))
    requires b != [] ==> !SaveDue(a, |a|, pending)
    ensures SavesAtWindowEnds(a + b, pending)
  {
    forall k | 0 <= k < |a + b|
      ensures (a + b)[k].Save? <==> SaveDue(a + b, k, pending)
    {
      if k < |a| {
        JoinLeft(a, b, k, pending);
      } else if k == |a| {
        JoinSeam(a, b, pending);
      } else {
        JoinRight(a, b, k, pending);
      }
    }
  }

  /** In the first part of a join, saves are due where they were. */
  lemma JoinLeft(a: seq<Event>, b: seq<Event>, k: nat, pending: nat)
    requires k < |a| && SavesAtWindowEnds(a, pending)
    ensures (a + b)[k].Save? <==> SaveDue(a + b, k, pending)
  {
    var ab := a + b;
    assert ab[k] == a[k];
    assert a[k].Save? <==> SaveDue(a, k, pending);
    if 0 < k {
      assert ab[..k] == a[..k];
      SaveDueOnPrefix(ab, a, k, pending);
    }
  }

  /** At the seam of a join, no save is due and none is placed. */
  lemma JoinSeam(a: seq<Event>, b: seq<Event>, pending: nat)
    requires b != [] && !SaveDue(a, |a|, pending)
    requires SavesAtWindowEnds(b, pending + Reads(a))
    ensures !(a + b)[|a|].Save? && !SaveDue(a + b, |a|, pending)
  {
    var ab := a + b;
    assert ab[|a|] == b[0];
    NoSaveFirst(b, pending + Reads(a));
    if 0 < |a| {
      assert ab[..|a|] == a[..|a|];
      SaveDueOnPrefix(ab, a, |a|, pending);
    }
  }

  /** A trace whose saves sit where they are due does not start with a save. */
  lemma NoSaveFirst(es: seq<Event>, pending: nat)
    requires es != [] && SavesAtWindowEnds(es, pending)
    ensures !es[0].Save?
  {
    assert !SaveDue(es, 0, pending);
  }

  /** Whether a save is due at `k` depends only on the first `k` events. */
  lemma SaveDueOnPrefix(x: seq<Event>, y: seq<Event>, k: nat, pending: nat)
    requires 0 < k <= |x| && k <= |y| && x[..k] == y[..k]
    ensures SaveDue(x, k, pending) == SaveDue(y, k, pending)
  {
    assert x[k - 1] == x[..k][k - 1] == y[..k][k - 1] == y[k - 1];
  }

  /** In the second part of a join, saves are due where they were, counted on from the first part's reads. */
  lemma JoinRight(a: seq<Event>, b: seq<Event>, k: nat, pending: nat)
    requires |a| < k < |a + b| && SavesAtWindowEnds(b, pending + Reads(a))
    ensures (a + b)[k].Save? <==> SaveDue(a + b, k, pending)
  {
    var ab, j := a + b, k - |a|;
    assert ab[k] == b[j];
    assert ab[k - 1] == b[j - 1];
    assert ab[..k] == a + b[..j];
    ReadsSplit(a, b[..j]);
    assert SaveDue(ab, k, pending) == SaveDue(b, j, pending + Reads(a));
  }

  /** A driver call on its own. */
  lemma OneCall(e: Event)
    requires !e.Save?
    ensures Saves([e]) == [] && Calls([e]) == [e]
  {
    assert [e][..0] == [];
  }

  /** A save event on its own. */
  lemma SaveOnly(m: SensorData)
    ensures Saves([Save(m)]) == [m]
    ensures Calls([Save(m)]) == []
  {
    assert [Save(m)][..0] == [];
  }

  /**
   * The events of the loop from pass `from` on, over the outcomes `cs`, when
   * the readings `window` (fewer than ten) are already in the running sums:
   * each pass issues its driver calls, a completed pass adds its data to the
   * window, a window that reaches ten readings is saved as its mean and
   * emptied, and the first failing pass ends the trace.
   */
  function Trace(cs: seq<Cycle>, from: nat, reqDelay: nat, window: seq<SensorData>): seq<Event>
    requires from <= |cs| && |window| < WindowSize
    decreases |cs| - from
  {
    if from == |cs| then []
    else if !Completes(cs[from]) then PassCalls(cs[from], reqDelay)
    else
      var w := window + [cs[from].data];
      PassCalls(cs[from], reqDelay)
      + (if |w| == WindowSize then [Save(Mean(w))] + Trace(cs, from + 1, reqDelay, [])
         else Trace(cs, from + 1, reqDelay, w))
  }

  /** The readings from pass `i` on, unfolded once. */
  lemma ReadingsAt(cs: seq<Cycle>, i: nat)
    requires i < |cs|
    ensures Readings(cs[i..]) == if Completes(cs[i]) then [cs[i].data] + Readings(cs[i + 1..]) else []
  {
    var rest := cs[i..];
    assert rest != [] && rest[0] == cs[i];
    assert rest[1..] == cs[i + 1..];
  }

  /** The driver calls from pass `i` on, unfolded once. */
  lemma InteractionAt(cs: seq<Cycle>, i: nat, reqDelay: nat)
    requires i < |cs|
    ensures Interaction(cs[i..], reqDelay)
         == PassCalls(cs[i], reqDelay) + (if Completes(cs[i]) then Interaction(cs[i + 1..], reqDelay) else [])
  {
    var rest := cs[i..];
    assert rest != [] && rest[0] == cs[i];
    assert rest[1..] == cs[i + 1..];
  }

  /** The saves of a pass's calls, a save, and the rest of the trace. */
  lemma SavesAfterPass(p: seq<Event>, m: SensorData, t: seq<Event>)
    requires Saves(p) == []
    ensures Saves(p + ([Save(m)] + t)) == [m] + Saves(t)
  {
    SavesSplit(p, [Save(m)] + t);
    SavesSplit([Save(m)], t);
    SaveOnly(m);
  }

  /** The calls of a pass's calls, a save, and the rest of the trace. */
  lemma CallsAfterPass(p: seq<Event>, m: SensorData, t: seq<Event>)
    requires Calls(p) == p
    ensures Calls(p + ([Save(m)] + t)) == p + Calls(t)
  {
    CallsSplit(p, [Save(m)] + t);
    CallsSplit([Save(m)], t);
    SaveOnly(m);
    assert [] + Calls(t) == Calls(t);
  }

  /**
   * The saves of the trace are the means of the complete windows of the
   * pending readings followed by the readings before the first failure: the
   * trailing partial window is never saved.
   */
  lemma {:induction false} TraceSaves(cs: seq<Cycle>, from: nat, reqDelay: nat, window: seq<SensorData>)
    requires from <= |cs| && |window| < WindowSize
    ensures Saves(Trace(cs, from, reqDelay, window)) == Means(window + Readings(cs[from..]))
    decreases |cs| - from
  {
    if from == |cs| {
      assert cs[from..] == [];
      assert window + Readings(cs[from..]) == window;
    } else if !Completes(cs[from]) {
      ReadingsAt(cs, from);
      PassNoSaves(cs[from], reqDelay);
      assert window + Readings(cs[from..]) == window;
    } else if |window| + 1 == WindowSize {
      TraceSaves(cs, from + 1, reqDelay, []);
      SavesWindowSaved(cs, from, reqDelay, window);
    } else {
      TraceSaves(cs, from + 1, reqDelay, window + [cs[from].data]);
      SavesWindowGrown(cs, from, reqDelay, window);
    }
  }

  /** The step of `TraceSaves` for a pass that fills the window. */
  lemma SavesWindowSaved(cs: seq<Cycle>, from: nat, reqDelay: nat, window: seq<SensorData>)
    requires from < |cs| && Completes(cs[from]) && |window| + 1 == WindowSize
    requires Saves(Trace(cs, from + 1, reqDelay, [])) == Means([] + Readings(cs[from + 1..]))
    ensures Saves(Trace(cs, from, reqDelay, window)) == Means(window + Readings(cs[from..]))
  {
    var c := cs[from];
    var w, rest := window + [c.data], Readings(cs[from + 1..]);
    ReadingsAt(cs, from);
    assert window + Readings(cs[from..]) == w + rest;
    PassNoSaves(c, reqDelay);
    SavesAfterPass(PassCalls(c, reqDelay), Mean(w), Trace(cs, from + 1, reqDelay, []));
    assert [] + rest == rest;
    MeansCons(w, rest);
  }

  /** The step of `TraceSaves` for a pass that does not fill the window. */
  lemma SavesWindowGrown(cs: seq<Cycle>, from: nat, reqDelay: nat, window: seq<SensorData>)
    requires from < |cs| && Completes(cs[from]) && |window| + 1 < WindowSize
    requires Saves(Trace(cs, from + 1, reqDelay, window + [cs[from].data]))
          == Means(window + [cs[from].data] + Readings(cs[from + 1..]))
    ensures Saves(Trace(cs, from, reqDelay, window)) == Means(window + Readings(cs[from..]))
  {
    var c := cs[from];
    var t := Trace(cs, from + 1, reqDelay, window + [c.data]);
    ReadingsAt(cs, from);
    Reassociate(window, [c.data], Readings(cs[from + 1..]));
    assert Trace(cs, from, reqDelay, window) == PassCalls(c, reqDelay) + t;
    PassNoSaves(c, reqDelay);
    SavesSplit(PassCalls(c, reqDelay), t);
    assert [] + Saves(t) == Saves(t);
  }

  /** Leaving the saves out of the trace leaves exactly the driver calls of the loop. */
  lemma {:induction false} TraceCalls(cs: seq<Cycle>, from: nat, reqDelay: nat, window: seq<SensorData>)
    requires from <= |cs| && |window| < WindowSize
    ensures Calls(Trace(cs, from, reqDelay, window)) == Interaction(cs[from..], reqDelay)
    decreases |cs| - from
  {
    if from == |cs| {
      assert cs[from..] == [];
    } else if !Completes(cs[from]) {
      InteractionAt(cs, from, reqDelay);
      PassAllCalls(cs[from], reqDelay);
      assert PassCalls(cs[from], reqDelay) + [] == PassCalls(cs[from], reqDelay);
    } else if |window| + 1 == WindowSize {
      TraceCalls(cs, from + 1, reqDelay, []);
      CallsWindowSaved(cs, from, reqDelay, window);
    } else {
      TraceCalls(cs, from + 1, reqDelay, window + [cs[from].data]);
      CallsWindowGrown(cs, from, reqDelay, window);
    }
  }

  /** The step of `TraceCalls` for a pass that fills the window. */
  lemma CallsWindowSaved(cs: seq<Cycle>, from: nat, reqDelay: nat, window: seq<SensorData>)
    requires from < |cs| && Completes(cs[from]) && |window| + 1 == WindowSize
    requires Calls(Trace(cs, from + 1, reqDelay, [])) == Interaction(cs[from + 1..], reqDelay)
    ensures Calls(Trace(cs, from, reqDelay, window)) == Interaction(cs[from..], reqDelay)
  {
    var c := cs[from];
    InteractionAt(cs, from, reqDelay);
    PassAllCalls(c, reqDelay);
    CallsAfterPass(PassCalls(c, reqDelay), Mean(window + [c.data]), Trace(cs, from + 1, reqDelay, []));
  }

  /** The step of `TraceCalls` for a pass that does not fill the window. */
  lemma CallsWindowGrown(cs: seq<Cycle>, from: nat, reqDelay: nat, window: seq<SensorData>)
    requires from < |cs| && Completes(cs[from]) && |window| + 1 < WindowSize
    requires Calls(Trace(cs, from + 1, reqDelay, window + [cs[from].data])) == Interaction(cs[from + 1..], reqDelay)
    ensures Calls(Trace(cs, from, reqDelay, window)) == Interaction(cs[from..], reqDelay)
  {
    var c := cs[from];
    InteractionAt(cs, from, reqDelay);
    PassAllCalls(c, reqDelay);
    CallsSplit(PassCalls(c, reqDelay), Trace(cs, from + 1, reqDelay, window + [c.data]));
  }

  /**
   * In the trace, a save comes right after each data read that brings the
   * readings summed (the pending window included) to a multiple of ten, and
   * nowhere else.
   */
  lemma {:induction false} TracePlaced(cs: seq<Cycle>, from: nat, reqDelay: nat, window: seq<SensorData>)
    requires from <= |cs| && |window| < WindowSize
    ensures SavesAtWindowEnds(Trace(cs, from, reqDelay, window), |window|)
    decreases |cs| - from
  {
    if from == |cs| {
    } else if !Completes(cs[from]) {
      PassPlaced(cs[from], reqDelay, |window|);
    } else if |window| + 1 == WindowSize {
      TracePlaced(cs, from + 1, reqDelay, []);
      PlacedWindowSaved(cs, from, reqDelay, window);
    } else {
      TracePlaced(cs, from + 1, reqDelay, window + [cs[from].data]);
      PlacedWindowGrown(cs, from, reqDelay, window);
    }
  }

  /** The step of `TracePlaced` for a pass that fills the window. */
  lemma PlacedWindowSaved(cs: seq<Cycle>, from: nat, reqDelay: nat, window: seq<SensorData>)
    requires from < |cs| && Completes(cs[from]) && |window| + 1 == WindowSize
    requires SavesAtWindowEnds(Trace(cs, from + 1, reqDelay, []), 0)
    ensures SavesAtWindowEnds(Trace(cs, from, reqDelay, window), |window|)
  {
    var c := cs[from];
    var p, m := PassCalls(c, reqDelay), Mean(window + [c.data]);
    var t := Trace(cs, from + 1, reqDelay, []);
    var b := p + [Save(m)];
    BlockPlaced(c, reqDelay, |window|, m);
    PassReads(c, reqDelay);
    OneReads(Save(m));
    ReadsSplit(p, [Save(m)]);
    PlacedShift(t, 0);
    assert b[..|b|] == b;
    JoinPlaced(b, t, |window|);
    Reassociate(p, [Save(m)], t);
  }

  /** The step of `TracePlaced` for a pass that does not fill the window. */
  lemma PlacedWindowGrown(cs: seq<Cycle>, from: nat, reqDelay: nat, window: seq<SensorData>)
    requires from < |cs| && Completes(cs[from]) && |window| + 1 < WindowSize
    requires SavesAtWindowEnds(Trace(cs, from + 1, reqDelay, window + [cs[from].data]), |window| + 1)
    ensures SavesAtWindowEnds(Trace(cs, from, reqDelay, window), |window|)
  {
    var c := cs[from];
    var p := PassCalls(c, reqDelay);
    var t := Trace(cs, from + 1, reqDelay, window + [c.data]);
    PassPlaced(c, reqDelay, |window|);
    PassReads(c, reqDelay);
    assert p[..|p|] == p;
    JoinPlaced(p, t, |window|);
  }

  /**
   * The whole trace, read three ways: its saves are the means of the complete
   * ten-reading windows before the first failure, its driver calls are those
   * of the loop, and a save comes right after every tenth read and nowhere else.
   */
  lemma TraceMeaning(cs: seq<Cycle>, reqDelay: nat)
    ensures Saves(Trace(cs, 0, reqDelay, [])) == Means(Readings(cs))
    ensures Calls(Trace(cs, 0, reqDelay, [])) == Interaction(cs, reqDelay)
    ensures SavesAtWindowEnds(Trace(cs, 0, reqDelay, []), 0)
  {
    TraceSaves(cs, 0, reqDelay, []);
    TraceCalls(cs, 0, reqDelay, []);
    TracePlaced(cs, 0, reqDelay, []);
    assert cs[0..] == cs;
    assert [] + Readings(cs) == Readings(cs);
  }

  /** A pass whose mode call failed: it issues that call and ends the trace and the readings. */
  lemma ModeFailed(
    cs: seq<Cycle>, i: nat, reqDelay: nat, window: seq<SensorData>, before: seq<Event>, after: seq<Event>)
    requires i < |cs| && |window| < WindowSize && cs[i].modeResult != Ok
    requires Trace(cs, 0, reqDelay, []) == before + Trace(cs, i, reqDelay, window)
    requires after == before + [SetForcedMode]
    ensures after == Trace(cs, 0, reqDelay, [])
    ensures Readings(cs[i..]) == []
  {
    ReadingsAt(cs, i);
  }

  /** A pass whose data read failed: it issues its three calls and ends the trace and the readings. */
  lemma ReadFailed(
    cs: seq<Cycle>, i: nat, reqDelay: nat, window: seq<SensorData>, before: seq<Event>, after: seq<Event>)
    requires i < |cs| && |window| < WindowSize && cs[i].modeResult == Ok && cs[i].dataResult != Ok
    requires Trace(cs, 0, reqDelay, []) == before + Trace(cs, i, reqDelay, window)
    requires after == before + [SetForcedMode] + [Delay(reqDelay)] + [GetSensorData]
    ensures after == Trace(cs, 0, reqDelay, [])
    ensures Readings(cs[i..]) == []
  {
    ReadingsAt(cs, i);
  }

  /** A completed pass adds its data to the readings. */
  lemma ReadingsAdvance(cs: seq<Cycle>, i: nat, seen: seq<SensorData>)
    requires i < |cs| && Completes(cs[i])
    requires Readings(cs) == seen + Readings(cs[i..])
    ensures Readings(cs) == (seen + [cs[i].data]) + Readings(cs[i + 1..])
  {
    ReadingsAt(cs, i);
    var r := Readings(cs[i + 1..]);
    assert seen + ([cs[i].data] + r) == (seen + [cs[i].data]) + r;
  }

  /** A completed pass that fills the window: its three calls, then the save of the window's mean. */
  lemma WindowSaved(
    cs: seq<Cycle>, i: nat, reqDelay: nat, window: seq<SensorData>, m: SensorData,
    before: seq<Event>, after: seq<Event>)
    requires i < |cs| && Completes(cs[i]) && |window| + 1 == WindowSize
    requires Trace(cs, 0, reqDelay, []) == before + Trace(cs, i, reqDelay, window)
    requires m == Mean(window + [cs[i].data])
    requires after == before + [SetForcedMode] + [Delay(reqDelay)] + [GetSensorData] + [Save(m)]
    ensures Trace(cs, 0, reqDelay, []) == after + Trace(cs, i + 1, reqDelay, [])
  {
    var p := PassCalls(cs[i], reqDelay);
    var t := Trace(cs, i + 1, reqDelay, []);
    assert Trace(cs, i, reqDelay, window) == p + ([Save(m)] + t);
    assert before + [SetForcedMode] + [Delay(reqDelay)] + [GetSensorData] == before + p;
    Reassociate(before, p, [Save(m)] + t);
    Reassociate(before + p, [Save(m)], t);
  }

  lemma Reassociate<T>(a: seq<T>, b: seq<T>, c: seq<T>)
    ensures a + (b + c) == (a + b) + c
  {
  }

  /** A completed pass that does not fill the window: its three calls, with the data added to the window. */
  lemma WindowGrown(
    cs: seq<Cycle>, i: nat, reqDelay: nat, window: seq<SensorData>, before: seq<Event>, after: seq<Event>)
    requires i < |cs| && Completes(cs[i]) && |window| + 1 < WindowSize
    requires Trace(cs, 0, reqDelay, []) == before + Trace(cs, i, reqDelay, window)
    requires after == before + [SetForcedMode] + [Delay(reqDelay)] + [GetSensorData]
    ensures Trace(cs, 0, reqDelay, []) == after + Trace(cs, i + 1, reqDelay, window + [cs[i].data])
  {
    var p, t := PassCalls(cs[i], reqDelay), Trace(cs, i + 1, reqDelay, window + [cs[i].data]);
    assert Trace(cs, i, reqDelay, window) == p + t;
    assert before + [SetForcedMode] + [Delay(reqDelay)] + [GetSensorData] == before + p;
    Reassociate(before, p, t);
  }

  /** Adding one reading to running sums that hold the total of `w`. */
  lemma AddToSums(w: seq<SensorData>, d: SensorData, t: real, h: real, p: real)
    requires SensorData(t, h, p) == Total(w)
    ensures SensorData(t + d.temperature, h + d.humidity, p + d.pressure) == Total(w + [d])
  {
    assert (w + [d])[..|w|] == w;
  }

  /** Dividing running sums that hold the total of a full window gives its mean. */
  lemma SumsToMean(w: seq<SensorData>, t: real, h: real, p: real)
    requires |w| == WindowSize && SensorData(t, h, p) == Total(w)
    ensures SensorData(t / 10.0, h / 10.0, p / 10.0) == Mean(w)
  {
  }

  /**
   * The `while (1)` loop of `stream_sensor_data` over a finite prefix of
   * outcomes, with the local count and running sums of the source.  It emits
   * exactly the reference trace, and it halts exactly when a pass fails.
   */
  method MeasurementLoop(reqDelay: nat, cycles: seq<Cycle>) returns (events: seq<Event>, halted: bool)
    ensures events == Trace(cycles, 0, reqDelay, [])
    ensures halted <==> |Readings(cycles)| < |cycles|
  {
    var count := 0;
    var tempSum, humiditySum, pressureSum := 0.0, 0.0, 0.0;
    ghost var seen: seq<SensorData> := [];    // readings so far
    ghost var window: seq<SensorData> := [];  // readings since the last save
    events, halted := [], false;
    var i := 0;
    assert cycles[i..] == cycles;
    while i < |cycles|
      invariant 0 <= i <= |cycles| && |seen| == i
      invariant 0 <= count < WindowSize && |window| == count
      invariant SensorData(tempSum, humiditySum, pressureSum) == Total(window)
      invariant Readings(cycles) == seen + Readings(cycles[i..])
      invariant Trace(cycles, 0, reqDelay, []) == events + Trace(cycles, i, reqDelay, window)
      invariant !halted
    {
      count := count + 1;
      var c := cycles[i];
      ghost var before := events;

      events := events + [SetForcedMode];
      if c.modeResult != Ok {
        halted := true;
        ModeFailed(cycles, i, reqDelay, window, before, events);
        assert seen + [] == seen;
        return;
      }

      events := events + [Delay(reqDelay)];
      events := events + [GetSensorData];
      if c.dataResult != Ok {
        halted := true;
        ReadFailed(cycles, i, reqDelay, window, before, events);
        assert seen + [] == seen;
        return;
      }

      ReadingsAdvance(cycles, i, seen);
      AddToSums(window, c.data, tempSum, humiditySum, pressureSum);
      tempSum := tempSum + c.data.temperature;
      humiditySum := humiditySum + c.data.humidity;
      pressureSum := pressureSum + c.data.pressure;
      seen := seen + [c.data];

      if count == WindowSize {
        SumsToMean(window + [c.data], tempSum, humiditySum, pressureSum);
        tempSum := tempSum / 10.0;
        humiditySum := humiditySum / 10.0;
        pressureSum := pressureSum / 10.0;
        var means := SensorData(tempSum, humiditySum, pressureSum);
        events := events + [Save(means)];
        WindowSaved(cycles, i, reqDelay, window, means, before, events);

        count := 0;
        tempSum := 0.0;
        humiditySum := 0.0;
        pressureSum := 0.0;
        window := [];
      } else {
        WindowGrown(cycles, i, reqDelay, window, before, events);
        window := window + [c.data];
      }
      i := i + 1;
    }
    assert cycles[i..] == [];
    assert seen + [] == seen;
    assert events + [] == events;
  }


  /**
   * `stream_sensor_data`: apply the fixed settings; if the vendor rejects them,
   * return its code before touching the sensor again.  Otherwise compute the
   * measurement delay once, from the stored settings, and run the loop with it.
   */
  method StreamSensorData(
    dev: Device,
    setSettings: (Selector, Settings) -> Status,
    measDelay: Settings -> nat,
    cycles: seq<Cycle>)
    returns (outcome: StreamOutcome, events: seq<Event>)
    modifies dev`settings
    ensures dev.settings == Calibrated(old(dev.settings))
    ensures var code := setSettings(CalibrationSelector(), dev.settings);
      if code != Ok then
        outcome == Rejected(code) && events == []
      else
        && Saves(events) == Means(Readings(cycles))
        && Calls(events) == Interaction(cycles, measDelay(dev.settings))
        && SavesAtWindowEnds(events, 0)
        && (outcome == Halted <==> |Readings(cycles)| < |cycles|)
        && (outcome == Exhausted <==> |Readings(cycles)| == |cycles|)
  {
    var result := CalibrateSensor(dev, setSettings);
    if result != Ok {
      return Rejected(result), [];
    }
    var reqDelay := measDelay(dev.settings);
    var halted;
    events, halted := MeasurementLoop(reqDelay, cycles);
    TraceMeaning(cycles, reqDelay);
    outcome := if halted then Halted else Exhausted;
  }

  // ---------------------------------------------------------------------------
  // Log entry
  // ---------------------------------------------------------------------------

  /** The three numbers `save_measurements` writes on one log line. */
  datatype LogEntry = LogEntry(temperature: real, humidity: real, pressureHpa: real)

  /** The log fields of one saved triple: temperature and humidity as given, pressure converted from Pa to hPa. */
  function Entry(means: SensorData): (e: LogEntry)
    ensures e.temperature == means.temperature && e.humidity == means.humidity
    ensures e.pressureHpa * 100.0 == means.pressure
  {
    LogEntry(means.temperature, means.humidity, means.pressure * 0.01)
  }
}
