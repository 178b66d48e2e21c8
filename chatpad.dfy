/** The driver object: the serial port's two directions, the sinks that
    receive what `listen` reports, and the state `listen` keeps between
    frames and iterations. Each method is proved to do to the object what
    the corresponding function of module Listener does to a snapshot. */
module Chatpad {
  import opened ChatpadProtocol
  import opened KeyState
  import opened Listener
  import opened ListenerProperties

  /** `pressed_keys` of a frame: the nonzero slots, slot 0 first. */
  method CurrentKeys(report: Report) returns (keys: seq<int>)
    ensures keys == KeysOf(report)
    ensures forall k :: k in keys <==> k != 0 && (k == report.key0 as int || k == report.key1 as int)
  {
    var key0, key1 := report.key0, report.key1;
    keys := [];
    if key0 != 0 {
      keys := keys + [key0 as int];
    }
    if key1 != 0 {
      keys := keys + [key1 as int];
    }
    if key0 == 0 && key1 == 0 {
      keys := [];
    }
  }

  /** `pressed_modifiers` of a frame: the modifier table walked in order,
      keeping the id of every mask fully set in `modifiers`. */
  method CurrentModifiers(modifiers: Byte) returns (mods: seq<int>)
    ensures mods == ModifiersOf(modifiers)
    ensures forall id :: id in mods <==> 1 <= id <= 4 && BitSet(modifiers, id - 1)
  {
    mods := [];
    var i := 0;
    while i < |ModDict|
      invariant 0 <= i <= |ModDict|
      invariant mods == Selected(modifiers, ModDict[..i])
    {
      var (mask, id) := ModDict[i];
      assert ModDict[..i + 1][..i] == ModDict[..i];
      if mask & modifiers == mask {
        mods := mods + [id];
      }
      i := i + 1;
    }
    assert ModDict[..i] == ModDict;
  }

  /** Appends to `acc`, in order, every element of `xs` that is not in `ys`. */
  method AppendMissing(acc: seq<int>, xs: seq<int>, ys: seq<int>) returns (r: seq<int>)
    ensures r == acc + Missing(xs, ys)
    ensures forall x :: x in r <==> x in acc || (x in xs && x !in ys)
  {
    r := acc;
    var j := 0;
    while j < |xs|
      invariant 0 <= j <= |xs|
      invariant r == acc + Missing(xs[..j], ys)
    {
      assert xs[..j + 1] == xs[..j] + [xs[j]];
      MissingSnoc(xs[..j], xs[j], ys);
      if xs[j] !in ys {
        r := r + [xs[j]];
      }
      j := j + 1;
    }
    assert xs[..j] == xs;
  }

  /** The pressed and released lists of driver.py's two pairs of loops. */
  method Diff(prevKeys: seq<int>, prevMods: seq<int>, keys: seq<int>, mods: seq<int>)
    returns (pressed: seq<int>, released: seq<int>)
    ensures pressed == Pressed(prevKeys, prevMods, keys, mods)
    ensures released == Released(prevKeys, prevMods, keys, mods)
  {
    pressed := AppendMissing(Missing(keys, prevKeys), mods, prevMods);
    released := AppendMissing(Missing(prevKeys, keys), prevMods, mods);
  }

  class Chatpad {
    var rx: seq<Byte>           // bytes the port has received and not yet handed out
    var tx: seq<Byte>           // every byte written to the port
    var counter: nat            // `counter` of listen
    var prevKeys: seq<int>      // `previous_keys` of listen
    var prevMods: seq<int>      // `previous_modifiers` of listen
    var raw: seq<KeyEvent>      // calls of keycode_callback
    var named: seq<NamedEvent>  // calls of ecode_callback
    var error: Option<int>      // the code of the KeyError that ended listen, if any

    ghost function View(): Snapshot
      reads this
    {
      Snapshot(rx, tx, counter, prevKeys, prevMods, raw, named, error)
    }

    /** A driver on a quiet port, with both sinks empty. */
    constructor()
      ensures View() == Snapshot([], [], 0, [], [], [], [], None)
    {
      rx, tx, counter := [], [], 0;
      prevKeys, prevMods := [], [];
      raw, named, error := [], [], None;
    }

    /** The device delivers bytes to the port. */
    method Receive(bytes: seq<Byte>)
      modifies this
      ensures View() == old(View()).(rx := old(rx) + bytes)
    {
      rx := rx + bytes;
    }

    /** `serial.inWaiting()`. */
    method InWaiting() returns (n: nat)
      ensures n == |rx|
    {
      n := |rx|;
    }

    /** `serial.read(n)`; listen only reads bytes already waiting. */
    method Read(n: nat) returns (data: seq<Byte>)
      requires n <= |rx|
      modifies this
      ensures data == old(rx)[..n]
      ensures View() == old(View()).(rx := old(rx)[n..])
    {
      data := rx[..n];
      rx := rx[n..];
    }

    /** `serial.write(bytes)`. */
    method Write(bytes: seq<Byte>)
      modifies this
      ensures View() == old(View()).(tx := old(tx) + bytes)
    {
      tx := tx + bytes;
    }

    method SendInitMessage()
      modifies this
      ensures View() == old(View()).(tx := old(tx) + InitMessage)
    {
      Write(InitMessage);
    }

    method SendAwakeMessage()
      modifies this
      ensures View() == old(View()).(tx := old(tx) + AwakeMessage)
    {
      Write(AwakeMessage);
    }

    /** One pass of the synchroniser: read one byte, and a second after the
        first marker, and six more after the second marker. */
    method Synchronise() returns (frame: Option<seq<Byte>>)
      requires |rx| > FrameLength
      modifies this
      ensures var s := Scan(old(rx));
        (frame.Some? <==> s.Assembled?) && (frame.Some? ==> frame.value == s.frame) &&
        View() == old(View()).(rx := old(rx)[Consumed(s)..])
    {
      ghost var s := Scan(rx);
      ghost var start := rx;
      var data := Read(1);
      if data[0] != SyncByte1 {
        return None;
      }
      var more := Read(1);
      data := data + more;
      if data[1] != SyncByte2 {
        assert rx == start[2..];
        return None;
      }
      more := Read(6);
      data := data + more;
      assert data == start[..FrameLength] && rx == start[FrameLength..];
      frame := Some(data);
    }

    /** A decoded frame: build the key and modifier lists, drop a duplicate,
        diff against the previous lists, call both sinks and keep the new
        lists as the previous ones. A code missing from the key table stops
        it after the raw sink has been called. */
    method ProcessFrame(data: seq<Byte>)
      requires |data| == FrameLength
      modifies this
      ensures View() == OnFrame(old(View()), data)
    {
      ghost var d := View();
      var report := Decode(data);
      var pressedKeys := CurrentKeys(report);
      var pressedModifiers := CurrentModifiers(report.modifiers);
      if prevKeys == pressedKeys && prevMods == pressedModifiers {
        DuplicateChangesNothing(d, data);
        return;
      }
      var pressed, released := Diff(prevKeys, prevMods, pressedKeys, pressedModifiers);
      Dispatch(data, pressedKeys, pressedModifiers, pressed, released);
    }

    /** A frame that is not a duplicate: call the raw sink, translate, and
        either record the KeyError or call the named sink and keep the new
        lists as the previous ones. */
    method Dispatch(ghost data: seq<Byte>, keys: seq<int>, mods: seq<int>, pressed: seq<int>, released: seq<int>)
      requires |data| == FrameLength
      requires KeysOf(Decode(data)) == keys && ModifiersOf(Decode(data).modifiers) == mods
      requires !(keys == prevKeys && mods == prevMods)
      requires pressed == Pressed(prevKeys, prevMods, keys, mods)
      requires released == Released(prevKeys, prevMods, keys, mods)
      modifies this
      ensures View() == OnFrame(old(View()), data)
    {
      ghost var d := View();
      raw := raw + [KeyEvent(pressed, released)];
      match TranslateEvent(pressed, released)
      case KeyError(c) =>
        error := Some(c);
        DispatchFails(d, data, keys, mods, pressed, released, c);
      case Ok(e) =>
        named := named + [e];
        prevKeys, prevMods := keys, mods;
        DispatchOk(d, data, keys, mods, pressed, released, e);
    }

    /** The inner loop of listen: while more than a frame's worth of bytes
        waits, synchronise and process; a KeyError leaves the loop. */
    method Drain()
      modifies this
      ensures View() == Listener.Drain(old(View()))
    {
      var waiting := InWaiting();
      while error.None? && waiting > FrameLength
        invariant waiting == |rx|
        invariant Listener.Drain(View()) == Listener.Drain(old(View()))
        decreases |rx|
      {
        DrainStep(View());
        var frame := Synchronise();
        if frame.Some? {
          ProcessFrame(frame.value);
        }
        waiting := InWaiting();
      }
    }

    /** The end of an outer iteration: count it, and at the threshold send
        an awake message and start counting again. */
    method Tick()
      modifies this
      ensures View() == Listener.Tick(old(View()))
    {
      counter := counter + 1;
      if counter == CounterThreshold {
        SendAwakeMessage();
        counter := 0;
      }
    }

    /** One outer iteration, after `arrival` has reached the port. */
    method Iterate(arrival: seq<Byte>)
      modifies this
      ensures View() == Listener.Iterate(old(View()), arrival)
    {
      Receive(arrival);
      Drain();
      if error.None? {
        Tick();
      }
    }

    /** `listen`, over a bounded run of arrivals. */
    method Listen(arrivals: seq<seq<Byte>>)
      modifies this
      ensures View() == Listener.Listen(old(View()), arrivals)
    {
      SendInitMessage();
      SendAwakeMessage();
      counter := 0;
      prevKeys, prevMods := [], [];
      error := None;
      var i := 0;
      while i < |arrivals| && error.None?
        invariant 0 <= i <= |arrivals|
        invariant Run(View(), arrivals[i..]) == Listener.Listen(old(View()), arrivals)
      {
        assert arrivals[i..][1..] == arrivals[i + 1..];
        Iterate(arrivals[i]);
        i := i + 1;
      }
    }
  }
}
