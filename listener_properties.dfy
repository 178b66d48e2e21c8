/** Properties of the listen loop: synchronisation and resynchronisation,
    duplicate suppression, what a dispatch reports, the KeyError path and
    the keepalive cadence. */
module ListenerProperties {
  import opened ChatpadProtocol
  import opened KeyState
  import opened Listener

  // ---- Synchronisation ----

  /** One turn of the inner loop. */
  lemma DrainStep(d: Snapshot)
    requires d.error.None? && |d.rx| > FrameLength
    ensures Drain(d) == Drain(SyncStep(d))
  {
  }

  /** A frame at the head of the buffer, with more bytes behind it, is
      taken whole and processed. */
  lemma AssembleFrame(d: Snapshot, f: seq<Byte>, tail: seq<Byte>)
    requires HasSyncMarkers(f) && |tail| >= 1
    ensures SyncStep(d.(rx := f + tail)) == OnFrame(d.(rx := tail), f)
  {
    var s := f + tail;
    assert s[..FrameLength] == f && s[FrameLength..] == tail;
  }

  /** A first byte other than the first marker is dropped alone. */
  lemma SkipNonMarker(d: Snapshot)
    requires |d.rx| > FrameLength && d.rx[0] != SyncByte1
    ensures SyncStep(d) == d.(rx := d.rx[1..])
  {
  }

  /** Nothing is read while at most one frame's worth of bytes is buffered:
      even a complete frame waits for a ninth byte. */
  lemma CompleteFrameWaits(d: Snapshot, r: Report, b2: Byte, b6: Byte, b7: Byte)
    ensures var f := Encode(r, b2, b6, b7);
      Drain(d.(rx := f)) == d.(rx := f)
  {
  }

  /** Bytes that are not the first marker are dropped one at a time and
      leave no trace, as long as a frame's worth of bytes follows them. */
  lemma {:induction false} NoiseIsSkipped(d: Snapshot, noise: seq<Byte>, rest: seq<Byte>)
    requires forall i :: 0 <= i < |noise| ==> noise[i] != SyncByte1
    requires |rest| >= FrameLength
    requires d.error.None?
    ensures Drain(d.(rx := noise + rest)) == Drain(d.(rx := rest))
  {
    if noise != [] {
      var s := noise + rest;
      var e := d.(rx := s);
      DrainStep(e);
      SkipNonMarker(e);
      assert s[1..] == noise[1..] + rest;
      var e1 := d.(rx := noise[1..] + rest);
      assert e.(rx := s[1..]) == e1;
      assert Drain(e) == Drain(e1);
      NoiseIsSkipped(d, noise[1..], rest);
      assert Drain(e1) == Drain(d.(rx := rest));
    } else {
      assert noise + rest == rest;
    }
  }

  /** After noise free of the first marker, a frame followed by at least
      one more byte is found and processed exactly as if the noise had not
      been there. */
  lemma FrameAfterNoise(d: Snapshot, noise: seq<Byte>, r: Report, b2: Byte, b6: Byte, b7: Byte, tail: seq<Byte>)
    requires forall i :: 0 <= i < |noise| ==> noise[i] != SyncByte1
    requires |tail| >= 1
    requires d.error.None?
    ensures var f := Encode(r, b2, b6, b7);
      Drain(d.(rx := noise + f + tail)) == Drain(OnFrame(d.(rx := tail), f))
  {
    var f := Encode(r, b2, b6, b7);
    assert noise + f + tail == noise + (f + tail);
    NoiseIsSkipped(d, noise, f + tail);
    DrainStep(d.(rx := f + tail));
    AssembleFrame(d, f, tail);
  }

  /** The resynchronisation limitation: after a stray first marker, the
      next frame's own first marker is consumed as the rejected second byte,
      so its second marker is then scanned as noise. */
  lemma StrayMarkerHidesNextFrame(d: Snapshot, r: Report, b2: Byte, b6: Byte, b7: Byte, tail: seq<Byte>)
    requires d.error.None?
    ensures var f := Encode(r, b2, b6, b7);
      Drain(d.(rx := [SyncByte1] + f + tail)) == Drain(d.(rx := f[1..] + tail))
  {
    var f := Encode(r, b2, b6, b7);
    var s := [SyncByte1] + f + tail;
    assert s[0] == SyncByte1 && s[1] == f[0] == SyncByte1;
    assert Scan(s) == Discard(2);
    assert s[2..] == f[1..] + tail;
  }

  /** A concrete instance: a stray 0xB4 before a frame holding key 55; the
      key press is never reported from these bytes. */
  lemma StrayMarkerExample(d: Snapshot)
    requires d.error.None?
    ensures var s: seq<Byte> := [0xB4, 0xB4, 0xC5, 0, 0, 55, 0, 0, 0];
      Drain(d.(rx := s)) == d.(rx := s[2..])
  {
    var s: seq<Byte> := [0xB4, 0xB4, 0xC5, 0, 0, 55, 0, 0, 0];
    assert Scan(s) == Discard(2);
    assert SyncStep(d.(rx := s)) == d.(rx := s[2..]);
  }

  // ---- Duplicate suppression ----

  /** A frame that changes nothing is dropped without a trace. */
  lemma DuplicateChangesNothing(d: Snapshot, frame: seq<Byte>)
    requires |frame| == FrameLength
    requires KeysOf(Decode(frame)) == d.prevKeys && ModifiersOf(Decode(frame).modifiers) == d.prevMods
    ensures OnFrame(d, frame) == d
  {
  }

  /** Processing a frame twice in a row is processing it once. */
  lemma RepeatedFrameIsIdempotent(d: Snapshot, frame: seq<Byte>)
    requires |frame| == FrameLength
    ensures OnFrame(d, frame).error.None? ==> OnFrame(OnFrame(d, frame), frame) == OnFrame(d, frame)
  {
  }

  /** The same frame sent twice back to back, then one more byte: the
      second copy is suppressed, so at most one dispatch is made. */
  lemma RepeatedFrameDispatchesOnce(d: Snapshot, r: Report, b2: Byte, b6: Byte, b7: Byte, x: Byte)
    requires d.error.None?
    ensures var f := Encode(r, b2, b6, b7);
      var once := OnFrame(d.(rx := [x]), f);
      once.error.None? ==> Drain(d.(rx := f + f + [x])) == once
  {
    var f := Encode(r, b2, b6, b7);
    var once := OnFrame(d.(rx := [x]), f);
    if once.error.None? {
      var e := d.(rx := f + (f + [x]));
      assert f + f + [x] == e.rx;
      DrainStep(e);
      AssembleFrame(d, f, f + [x]);
      assert d.(rx := [x]).(rx := f + [x]) == d.(rx := f + [x]);
      OnFrameIgnoresRx(d.(rx := [x]), f, f + [x]);
      var d1 := once.(rx := f + [x]);
      DrainStep(d1);
      AssembleFrame(once, f, [x]);
      assert once.(rx := [x]) == once;
      RepeatedFrameIsIdempotent(d.(rx := [x]), f);
    }
  }

  /** Frame processing does not look at the receive buffer. */
  lemma OnFrameIgnoresRx(d: Snapshot, frame: seq<Byte>, rx: seq<Byte>)
    requires |frame| == FrameLength
    ensures OnFrame(d.(rx := rx), frame) == OnFrame(d, frame).(rx := rx)
  {
  }

  // ---- What a dispatch reports ----

  /** For a frame that is not a duplicate, the raw sink receives one event
      and the previous state becomes the current one unless a code is
      missing from the table; replaying the event on the previous keys and
      modifiers gives the current ones, and nothing is both pressed and
      released. Scan codes are assumed distinct from the modifier ids. */
  lemma DispatchReplaysChange(d: Snapshot, frame: seq<Byte>)
    requires |frame| == FrameLength
    requires var rep := Decode(frame);
      !(KeysOf(rep) == d.prevKeys && ModifiersOf(rep.modifiers) == d.prevMods)
    requires forall k :: k in d.prevKeys + KeysOf(Decode(frame)) ==> k > 4
    requires forall id :: id in d.prevMods ==> 1 <= id <= 4
    requires d.error.None?
    ensures var rep := Decode(frame);
      var keys, mods := KeysOf(rep), ModifiersOf(rep.modifiers);
      var r := OnFrame(d, frame);
      |r.raw| == |d.raw| + 1 && r.raw[..|d.raw|] == d.raw &&
      var e := r.raw[|d.raw|];
      (forall x :: x in keys + mods <==> (x in d.prevKeys + d.prevMods && x !in e.released) || x in e.pressed) &&
      (forall x :: x in e.pressed ==> x !in e.released) &&
      (r.error.None? <==> forall c :: c in e.pressed + e.released ==> KeyName(c).Some?) &&
      (r.error.None? ==> r.prevKeys == keys && r.prevMods == mods && r.named == d.named + [r.named[|d.named|]]) &&
      (r.error.Some? ==> KeyName(r.error.value).None? && r.prevKeys == d.prevKeys &&
                         r.prevMods == d.prevMods && r.named == d.named)
  {
    var rep := Decode(frame);
    var keys, mods := KeysOf(rep), ModifiersOf(rep.modifiers);
    var p, q := Pressed(d.prevKeys, d.prevMods, keys, mods), Released(d.prevKeys, d.prevMods, keys, mods);
    DiffReplays(d.prevKeys, d.prevMods, keys, mods);
    var d1 := d.(raw := d.raw + [KeyEvent(p, q)]);
    var r := OnFrame(d, frame);
    match TranslateEvent(p, q)
    case KeyError(c) =>
      assert r == d1.(error := Some(c));
    case Ok(e) =>
      assert r == d1.(named := d.named + [e], prevKeys := keys, prevMods := mods);
  }

  /** A dispatch reports no press and no release exactly when the two key
      lists hold the same codes (in another order, or one of them twice)
      while the modifiers are unchanged. */
  lemma EmptyDispatchIff(d: Snapshot, frame: seq<Byte>)
    requires |frame| == FrameLength
    requires KeyStateOk(d)
    requires var rep := Decode(frame);
      !(KeysOf(rep) == d.prevKeys && ModifiersOf(rep.modifiers) == d.prevMods)
    ensures var rep := Decode(frame);
      var r := OnFrame(d, frame);
      r.raw[|d.raw|] == KeyEvent([], []) <==>
        KeysOf(rep) != d.prevKeys && ModifiersOf(rep.modifiers) == d.prevMods &&
        forall k :: k in KeysOf(rep) <==> k in d.prevKeys
  {
    var rep := Decode(frame);
    NothingToReport(d.prevKeys, d.prevMods, rep.modifiers, KeysOf(rep));
  }

  /** A frame that is not a duplicate and whose codes are all in the table
      is dispatched to both sinks and becomes the previous state. */
  lemma DispatchOk(d: Snapshot, frame: seq<Byte>, keys: seq<int>, mods: seq<int>,
                   p: seq<int>, q: seq<int>, e: NamedEvent)
    requires |frame| == FrameLength
    requires KeysOf(Decode(frame)) == keys && ModifiersOf(Decode(frame).modifiers) == mods
    requires !(keys == d.prevKeys && mods == d.prevMods)
    requires Pressed(d.prevKeys, d.prevMods, keys, mods) == p
    requires Released(d.prevKeys, d.prevMods, keys, mods) == q
    requires TranslateEvent(p, q) == Ok(e)
    ensures OnFrame(d, frame) ==
      d.(raw := d.raw + [KeyEvent(p, q)], named := d.named + [e], prevKeys := keys, prevMods := mods)
  {
  }

  /** A frame that is not a duplicate and holds a code missing from the
      table reaches the raw sink only, and ends the loop. */
  lemma DispatchFails(d: Snapshot, frame: seq<Byte>, keys: seq<int>, mods: seq<int>,
                      p: seq<int>, q: seq<int>, c: int)
    requires |frame| == FrameLength
    requires KeysOf(Decode(frame)) == keys && ModifiersOf(Decode(frame).modifiers) == mods
    requires !(keys == d.prevKeys && mods == d.prevMods)
    requires Pressed(d.prevKeys, d.prevMods, keys, mods) == p
    requires Released(d.prevKeys, d.prevMods, keys, mods) == q
    requires TranslateEvent(p, q) == KeyError(c)
    ensures OnFrame(d, frame) == d.(raw := d.raw + [KeyEvent(p, q)], error := Some(c))
    ensures KeyName(c).None?
  {
  }

  /** Two slots that swap their codes dispatch an empty event. */
  lemma SwappedSlotsExample(d: Snapshot)
    requires d.prevKeys == [55, 54] && d.prevMods == [] && d.error.None?
    ensures var r := OnFrame(d, Encode(Report(0, 54, 55), 0, 0, 0));
      r.raw == d.raw + [KeyEvent([], [])] && r.named == d.named + [NamedEvent([], [])] &&
      r.prevKeys == [54, 55] && r.error.None?
  {
    var f := Encode(Report(0, 54, 55), 0, 0, 0);
    assert Decode(f) == Report(0, 54, 55);
    assert KeysOf(Report(0, 54, 55)) == [54, 55];
    ModifiersOfUnfold(0);
    assert ModifiersOf(0) == [];
    SwappedDiff();
    assert [54, 55] != [55, 54] by { assert [54, 55][0] != [55, 54][0]; }
    assert Translate([]) == Ok([]);
    assert TranslateEvent([], []) == Ok(NamedEvent([], []));
    DispatchOk(d, f, [54, 55], [], [], [], NamedEvent([], []));
  }

  lemma SwappedDiff()
    ensures Pressed([55, 54], [], [54, 55], []) == []
    ensures Released([55, 54], [], [54, 55], []) == []
  {
    assert Missing([54, 55], [55, 54]) == [] by {
      assert [54, 55][..1] == [54];
      assert [54][..0] == [];
    }
    assert Missing([55, 54], [54, 55]) == [] by {
      assert [55, 54][..1] == [55];
      assert [55][..0] == [];
    }
    assert Missing([], []) == [];
  }

  /** A code held in both slots is listed twice. */
  lemma SameCodeInBothSlots(k: Byte)
    requires k != 0
    ensures KeysOf(Report(0, k, k)) == [k as int, k as int]
  {
  }

  /** Scan code 55 is the A key. */
  lemma NameOfA()
    ensures KeyName(55) == Some("KEY_A")
    ensures Translate([55]) == Ok(["KEY_A"])
  {
    assert ScanCodeName(55) == Some("KEY_A");
    TranslateOne(55);
  }

  /** From an empty state, pressing key 55 ("A"). */
  lemma FirstKeyPress(d: Snapshot)
    requires d.prevKeys == [] && d.prevMods == [] && d.error.None?
    ensures var r := OnFrame(d, Encode(Report(0, 55, 0), 0, 0, 0));
      r.raw == d.raw + [KeyEvent([55], [])] && r.named == d.named + [NamedEvent(["KEY_A"], [])] &&
      r.prevKeys == [55] && r.prevMods == [] && r.error.None?
  {
    var f := Encode(Report(0, 55, 0), 0, 0, 0);
    assert Decode(f) == Report(0, 55, 0);
    assert KeysOf(Report(0, 55, 0)) == [55];
    ModifiersOfUnfold(0);
    assert ModifiersOf(0) == [];
    assert Missing([55], []) == [55] by { assert [55][..0] == []; }
    assert Pressed([], [], [55], []) == [55];
    assert Released([], [], [55], []) == [];
    NameOfA();
    assert Translate([]) == Ok([]);
    assert TranslateEvent([55], []) == Ok(NamedEvent(["KEY_A"], []));
    DispatchOk(d, f, [55], [], [55], [], NamedEvent(["KEY_A"], []));
  }

  /** From key 55 held, releasing every key. */
  lemma ReleaseAll(d: Snapshot)
    requires d.prevKeys == [55] && d.prevMods == [] && d.error.None?
    ensures var r := OnFrame(d, Encode(Report(0, 0, 0), 0, 0, 0));
      r.raw == d.raw + [KeyEvent([], [55])] && r.named == d.named + [NamedEvent([], ["KEY_A"])] &&
      r.prevKeys == [] && r.error.None?
  {
    var f := Encode(Report(0, 0, 0), 0, 0, 0);
    assert Decode(f) == Report(0, 0, 0);
    assert KeysOf(Report(0, 0, 0)) == [];
    ModifiersOfUnfold(0);
    assert ModifiersOf(0) == [];
    assert Missing([55], []) == [55] by { assert [55][..0] == []; }
    assert Pressed([55], [], [], []) == [];
    assert Released([55], [], [], []) == [55];
    NameOfA();
    assert Translate([]) == Ok([]);
    assert TranslateEvent([], [55]) == Ok(NamedEvent([], ["KEY_A"]));
    DispatchOk(d, f, [], [], [], [55], NamedEvent([], ["KEY_A"]));
  }

  /** Setting mask bit 0 with the keys unchanged presses the shift id. */
  lemma ShiftPress(d: Snapshot)
    requires d.prevKeys == [] && d.prevMods == [] && d.error.None?
    ensures var r := OnFrame(d, Encode(Report(ShiftMask, 0, 0), 0, 0, 0));
      r.raw == d.raw + [KeyEvent([1], [])] && r.named == d.named + [NamedEvent(["KEY_LEFTSHIFT"], [])] &&
      r.prevMods == [1] && r.error.None?
  {
    var f := Encode(Report(ShiftMask, 0, 0), 0, 0, 0);
    assert Decode(f) == Report(ShiftMask, 0, 0);
    assert KeysOf(Report(ShiftMask, 0, 0)) == [];
    ModifiersOfUnfold(ShiftMask);
    assert ModifiersOf(ShiftMask) == [1];
    assert Missing([1], []) == [1] by { assert [1][..0] == []; }
    assert Pressed([], [], [], [1]) == [1];
    assert Released([], [], [], [1]) == [];
    TranslateOne(1);
    assert KeyName(1) == Some("KEY_LEFTSHIFT");
    assert Translate([]) == Ok([]);
    assert TranslateEvent([1], []) == Ok(NamedEvent(["KEY_LEFTSHIFT"], []));
    DispatchOk(d, f, [], [1], [1], [], NamedEvent(["KEY_LEFTSHIFT"], []));
  }

  /** Mask bits 0 and 3 together, from the empty state: the table walk
      lists the people id 4 before the shift id 1, in both sinks. */
  lemma MetaAndShiftPress(d: Snapshot)
    requires d.prevKeys == [] && d.prevMods == [] && d.error.None?
    ensures var r := OnFrame(d, Encode(Report(0x09, 0, 0), 0, 0, 0));
      r.raw == d.raw + [KeyEvent([4, 1], [])] &&
      r.named == d.named + [NamedEvent(["KEY_LEFTMETA", "KEY_LEFTSHIFT"], [])] &&
      r.prevKeys == [] && r.prevMods == [4, 1] && r.error.None?
  {
    var f := Encode(Report(0x09, 0, 0), 0, 0, 0);
    assert Decode(f) == Report(0x09, 0, 0);
    assert KeysOf(Report(0x09, 0, 0)) == [];
    MetaAndShiftModifiers();
    PressFromEmpty([], [4, 1]);
    MetaAndShiftNames();
    DispatchOk(d, f, [], [4, 1], [4, 1], [], NamedEvent(["KEY_LEFTMETA", "KEY_LEFTSHIFT"], []));
  }

  lemma MetaAndShiftModifiers()
    ensures ModifiersOf(0x09) == [4, 1]
  {
    ModifiersOfUnfold(0x09);
    assert BitSet(0x09, 3) && BitSet(0x09, 0) && !BitSet(0x09, 1) && !BitSet(0x09, 2);
  }

  lemma MetaAndShiftNames()
    ensures TranslateEvent([4, 1], []) == Ok(NamedEvent(["KEY_LEFTMETA", "KEY_LEFTSHIFT"], []))
  {
    var codes: seq<int> := [4, 1];
    assert codes[1..] == [1];
    TranslateOne(1);
    assert KeyName(4) == Some("KEY_LEFTMETA") && KeyName(1) == Some("KEY_LEFTSHIFT");
    var names: seq<string> := ["KEY_LEFTMETA"] + ["KEY_LEFTSHIFT"];
    assert names == ["KEY_LEFTMETA", "KEY_LEFTSHIFT"];
    assert Translate(codes) == Ok(names);
    assert Translate([]) == Ok([]);
  }

  /** With two unknown codes pressed and a third released, the KeyError
      names the first unknown code of the pressed list. */
  lemma FirstUnknownCodeReported()
    ensures TranslateEvent([5, 6], [7]) == KeyError(5)
  {
    assert KeyName(5).None?;
  }

  /** A scan code missing from the table (5) ends the loop with a KeyError:
      the raw sink has been called, the platform sink has not, and the
      previous state is unchanged. */
  lemma UnknownCodeExample(d: Snapshot)
    requires d.prevKeys == [] && d.prevMods == [] && d.error.None?
    ensures var r := OnFrame(d, Encode(Report(0, 5, 0), 0, 0, 0));
      r.raw == d.raw + [KeyEvent([5], [])] && r.named == d.named &&
      r.prevKeys == [] && r.error == Some(5)
  {
    var f := Encode(Report(0, 5, 0), 0, 0, 0);
    assert Decode(f) == Report(0, 5, 0);
    assert KeysOf(Report(0, 5, 0)) == [5];
    ModifiersOfUnfold(0);
    assert ModifiersOf(0) == [];
    assert Missing([5], []) == [5] by { assert [5][..0] == []; }
    assert Pressed([], [], [5], []) == [5];
    assert Released([], [], [5], []) == [];
    assert KeyName(5).None?;
    assert Translate([5]) == KeyError(5);
    assert TranslateEvent([5], []) == KeyError(5);
    assert OnFrame(d, f) == d.(raw := d.raw + [KeyEvent([5], [])], error := Some(5));
  }

  // ---- Keepalive ----

  /** Completed ticks of a run: every polling iteration that did not end
      in a KeyError. */
  function Ticks(d: Snapshot, arrivals: seq<seq<Byte>>): (n: nat)
    ensures n <= |arrivals|
    decreases |arrivals|
  {
    if arrivals == [] || d.error.Some? then 0
    else if Iterate(d, arrivals[0]).error.Some? then 0
    else 1 + Ticks(Iterate(d, arrivals[0]), arrivals[1..])
  }

  /** Over a run of polling iterations the only bytes written are awake
      messages, one each time the counter reaches the threshold; every
      iteration ticks unless a KeyError ended the run. */
  lemma {:induction false} RunKeepalive(d: Snapshot, arrivals: seq<seq<Byte>>)
    requires d.counter < CounterThreshold && d.error.None?
    ensures var r, n := Run(d, arrivals), Ticks(d, arrivals);
      r.tx == d.tx + Awakes(Wraps(d.counter, n)) &&
      r.counter == Phase(d.counter, n) &&
      (r.error.None? <==> n == |arrivals|)
    decreases |arrivals|
  {
    if arrivals == [] {
      assert Wraps(d.counter, 0) == 0 && Phase(d.counter, 0) == d.counter;
    } else {
      var d1 := Iterate(d, arrivals[0]);
      RunStep(d, arrivals);
      IterateOutcome(d, arrivals[0]);
      if d1.error.Some? {
        assert Wraps(d.counter, 0) == 0 && Phase(d.counter, 0) == d.counter;
      } else {
        var m := Ticks(d1, arrivals[1..]);
        RunKeepalive(d1, arrivals[1..]);
        KeepaliveCarry(d.tx, d.counter, d1.tx, d1.counter, m);
      }
    }
  }

  /** What one polling iteration does to the write log and the counter. */
  lemma IterateOutcome(d: Snapshot, arrival: seq<Byte>)
    requires d.counter < CounterThreshold && d.error.None?
    ensures var d1 := Iterate(d, arrival);
      (d1.error.Some? ==> d1.tx == d.tx && d1.counter == d.counter) &&
      (d1.error.None? && d.counter + 1 < CounterThreshold ==> d1.tx == d.tx && d1.counter == d.counter + 1) &&
      (d1.error.None? && d.counter + 1 == CounterThreshold ==> d1.tx == d.tx + AwakeMessage && d1.counter == 0)
  {
  }

  /** Awake messages owed after `n` ticks from counter `c`. */
  function Wraps(c: nat, n: nat): nat
  {
    (c + n) / CounterThreshold
  }

  /** The counter after `n` ticks from counter `c`. */
  function Phase(c: nat, n: nat): nat
  {
    (c + n) % CounterThreshold
  }

  lemma RunStep(d: Snapshot, arrivals: seq<seq<Byte>>)
    requires arrivals != [] && d.error.None?
    ensures Run(d, arrivals) == Run(Iterate(d, arrivals[0]), arrivals[1..])
    ensures Ticks(d, arrivals) ==
      if Iterate(d, arrivals[0]).error.Some? then 0 else 1 + Ticks(Iterate(d, arrivals[0]), arrivals[1..])
    ensures Iterate(d, arrivals[0]).error.Some? ==> Run(d, arrivals) == Iterate(d, arrivals[0])
  {
  }

  /** The counter arithmetic of one tick followed by `m` more. */
  lemma KeepaliveCarry(tx: seq<Byte>, c: nat, tx1: seq<Byte>, c1: nat, m: nat)
    requires c < CounterThreshold
    requires c + 1 < CounterThreshold ==> tx1 == tx && c1 == c + 1
    requires c + 1 == CounterThreshold ==> tx1 == tx + AwakeMessage && c1 == 0
    ensures tx1 + Awakes(Wraps(c1, m)) == tx + Awakes(Wraps(c, m + 1))
    ensures Phase(c1, m) == Phase(c, m + 1)
  {
    if c + 1 == CounterThreshold {
      assert Wraps(c, m + 1) == Wraps(0, m) + 1;
      assert Awakes(Wraps(0, m) + 1) == AwakeMessage + Awakes(Wraps(0, m));
    } else {
      assert c + m + 1 == c1 + m;
    }
  }

  /** A run whose arrivals are all empty, started with at most a frame's
      worth of bytes buffered, reads nothing and dispatches nothing. */
  lemma {:induction false} QuietRun(d: Snapshot, arrivals: seq<seq<Byte>>)
    requires |d.rx| <= FrameLength && d.error.None?
    requires forall i :: 0 <= i < |arrivals| ==> arrivals[i] == []
    ensures var r := Run(d, arrivals);
      r.rx == d.rx && r.raw == d.raw && r.named == d.named && r.error.None?
    decreases |arrivals|
  {
    if arrivals != [] {
      assert d.(rx := d.rx + arrivals[0]) == d;
      QuietRun(Iterate(d, arrivals[0]), arrivals[1..]);
    }
  }

  /** `listen` first writes the init message and then the awake message. */
  lemma ListenStartsWithInitAndAwake(d: Snapshot)
    requires d.tx == []
    ensures Listen(d, []).tx == [0x87, 0x02, 0x8C, 0x1F, 0xCC, 0x87, 0x02, 0x8C, 0x1B, 0xD0]
  {
  }

  /** Calling `listen` again after a KeyError left it runs a fresh loop:
      the earlier error has no effect on the new call. */
  lemma ListenAfterKeyError(d: Snapshot, arrivals: seq<seq<Byte>>)
    requires d.error.Some?
    ensures Listen(d, arrivals) == Listen(d.(error := None), arrivals)
    ensures Start(d).error.None?
  {
    assert Start(d) == Start(d.(error := None));
  }

  /** Ten quiet polling iterations after the start write exactly one more
      awake message and bring the counter back to 0. */
  lemma TenQuietIterations(d: Snapshot)
    requires |d.rx| <= FrameLength
    ensures var r := Listen(d, seq(10, i => []));
      r.tx == d.tx + InitMessage + AwakeMessage + AwakeMessage && r.counter == 0 &&
      r.raw == d.raw && r.named == d.named
  {
    var quiet: seq<seq<Byte>> := seq(10, i => []);
    QuietRun(Start(d), quiet);
    RunKeepalive(Start(d), quiet);
    assert Ticks(Start(d), quiet) == 10;
    assert Wraps(0, 10) == 1 && Phase(0, 10) == 0;
    assert Awakes(1) == AwakeMessage;
  }

  /** The state invariant holds between all iterations of `listen`. */
  lemma {:induction false} RunPreservesWellFormed(d: Snapshot, arrivals: seq<seq<Byte>>)
    requires WellFormed(d)
    ensures WellFormed(Run(d, arrivals))
    decreases |arrivals|
  {
    if arrivals != [] && d.error.None? {
      RunPreservesWellFormed(Iterate(d, arrivals[0]), arrivals[1..]);
    }
  }

  lemma ListenIsWellFormed(d: Snapshot, arrivals: seq<seq<Byte>>)
    ensures WellFormed(Listen(d, arrivals))
  {
    RunPreservesWellFormed(Start(d), arrivals);
  }
}
