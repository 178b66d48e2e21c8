/** The behaviour of `Chatpad.listen` as functions on a snapshot of the
    driver's state: the serial receive buffer, the write log, the tick
    counter, the previous key and modifier lists and what each sink has
    been handed. The class in module Chatpad is proved against these. */
module Listener {
  import opened ChatpadProtocol
  import opened KeyState

  /** What the raw-code sink receives for one dispatch. */
  datatype KeyEvent = KeyEvent(pressed: seq<int>, released: seq<int>)

  datatype Snapshot = Snapshot(
    rx: seq<Byte>,           // bytes received and not yet read
    tx: seq<Byte>,           // every byte written to the port
    counter: nat,            // polling iterations since the last awake message
    prevKeys: seq<int>,
    prevMods: seq<int>,
    raw: seq<KeyEvent>,      // calls of the raw-code sink, in order
    named: seq<NamedEvent>,  // calls of the platform-key sink, in order
    error: Option<int>)      // Some(c): a KeyError for code c ended the loop

  predicate IsPrefix<T(==)>(a: seq<T>, b: seq<T>)
  {
    |a| <= |b| && b[..|a|] == a
  }

  lemma PrefixTransitive<T>(a: seq<T>, b: seq<T>, c: seq<T>)
    requires IsPrefix(a, b) && IsPrefix(b, c)
    ensures IsPrefix(a, c)
  {
    assert c[..|a|] == c[..|b|][..|a|];
  }

  predicate IsSuffix<T(==)>(a: seq<T>, b: seq<T>)
  {
    |a| <= |b| && b[|b| - |a|..] == a
  }

  lemma SuffixTransitive<T>(a: seq<T>, b: seq<T>, c: seq<T>)
    requires IsSuffix(a, b) && IsSuffix(b, c)
    ensures IsSuffix(a, c)
  {
    assert c[|c| - |a|..] == c[|c| - |b|..][|b| - |a|..];
  }

  /** The invariant of the diff engine's state between frames. */
  predicate KeyStateOk(d: Snapshot)
  {
    |d.prevKeys| <= 2 && 0 !in d.prevKeys &&
    InTableOrder(d.prevMods) && (forall id :: id in d.prevMods ==> 1 <= id <= 4)
  }

  /** The invariant between polling iterations. */
  predicate WellFormed(d: Snapshot)
  {
    KeyStateOk(d) && d.counter < CounterThreshold
  }

  /** The start of `listen`: init and awake messages, fresh local state.
      A KeyError that ended an earlier call has left that call, so the new
      loop starts without one. */
  function Start(d: Snapshot): (r: Snapshot)
    ensures r.tx == d.tx + InitMessage + AwakeMessage
    ensures WellFormed(r) && r.counter == 0 && r.error.None?
    ensures r.prevKeys == [] && r.prevMods == []
    ensures r.rx == d.rx && r.raw == d.raw && r.named == d.named
  {
    d.(tx := d.tx + InitMessage + AwakeMessage, counter := 0, prevKeys := [], prevMods := [], error := None)
  }

  /** One decoded frame: duplicate suppression, diff, both sinks, state
      update. The raw sink is called before the key names are looked up, so
      a KeyError leaves the raw call in place and the previous state as it was. */
  function OnFrame(d: Snapshot, frame: seq<Byte>): (r: Snapshot)
    requires |frame| == FrameLength
    ensures r.rx == d.rx && r.tx == d.tx && r.counter == d.counter
    ensures IsPrefix(d.raw, r.raw) && IsPrefix(d.named, r.named)
    ensures KeyStateOk(d) ==> KeyStateOk(r)
  {
    var report := Decode(frame);
    var keys := KeysOf(report);
    var mods := ModifiersOf(report.modifiers);
    if keys == d.prevKeys && mods == d.prevMods then d
    else
      var pressed := Pressed(d.prevKeys, d.prevMods, keys, mods);
      var released := Released(d.prevKeys, d.prevMods, keys, mods);
      var d1 := d.(raw := d.raw + [KeyEvent(pressed, released)]);
      match TranslateEvent(pressed, released)
      case KeyError(c) => d1.(error := Some(c))
      case Ok(e) => d1.(named := d.named + [e], prevKeys := keys, prevMods := mods)
  }

  /** One iteration of the inner loop, which runs only with more than a
      frame's worth of bytes buffered. */
  function SyncStep(d: Snapshot): (r: Snapshot)
    requires |d.rx| > FrameLength
    ensures |r.rx| < |d.rx| && IsSuffix(r.rx, d.rx)
    ensures r.tx == d.tx && r.counter == d.counter
    ensures IsPrefix(d.raw, r.raw) && IsPrefix(d.named, r.named)
    ensures KeyStateOk(d) ==> KeyStateOk(r)
  {
    var s := Scan(d.rx);
    var d1 := d.(rx := d.rx[Consumed(s)..]);
    match s
    case Discard(_) => d1
    case Assembled(frame) => OnFrame(d1, frame)
  }

  /** The inner loop: synchronise and process frames while more than a
      frame's worth of bytes is buffered; a KeyError ends it. */
  function Drain(d: Snapshot): (r: Snapshot)
    ensures r.tx == d.tx && r.counter == d.counter
    ensures d.error.Some? ==> r == d
    ensures r.error.Some? || |r.rx| <= FrameLength
    ensures IsSuffix(r.rx, d.rx)
    ensures IsPrefix(d.raw, r.raw) && IsPrefix(d.named, r.named)
    ensures KeyStateOk(d) ==> KeyStateOk(r)
    decreases |d.rx|
  {
    if d.error.Some? || |d.rx| <= FrameLength then d
    else
      var d1 := SyncStep(d);
      var r := Drain(d1);
      SuffixTransitive(r.rx, d1.rx, d.rx);
      PrefixTransitive(d.raw, d1.raw, r.raw);
      PrefixTransitive(d.named, d1.named, r.named);
      r
  }

  /** The end of a polling iteration: one tick, and at the threshold one
      awake message and a reset. */
  function Tick(d: Snapshot): (r: Snapshot)
    ensures d.counter < CounterThreshold ==> r.counter < CounterThreshold
    ensures d.counter + 1 < CounterThreshold ==> r == d.(counter := d.counter + 1)
    ensures d.counter + 1 == CounterThreshold ==> r == d.(tx := d.tx + AwakeMessage, counter := 0)
  {
    var c := d.counter + 1;
    if c == CounterThreshold then d.(tx := d.tx + AwakeMessage, counter := 0)
    else d.(counter := c)
  }

  /** One pass of the outer loop; `arrival` is what the port delivered
      since the previous pass. */
  function Iterate(d: Snapshot, arrival: seq<Byte>): (r: Snapshot)
    ensures r.tx == d.tx || r.tx == d.tx + AwakeMessage
    ensures IsPrefix(d.raw, r.raw) && IsPrefix(d.named, r.named)
    ensures WellFormed(d) ==> WellFormed(r)
  {
    var d1 := Drain(d.(rx := d.rx + arrival));
    if d1.error.Some? then d1 else Tick(d1)
  }

  /** The outer loop over a bounded run of arrivals; it stops at a KeyError. */
  function Run(d: Snapshot, arrivals: seq<seq<Byte>>): (r: Snapshot)
    ensures d.error.Some? ==> r == d
    ensures IsPrefix(d.tx, r.tx) && IsPrefix(d.raw, r.raw) && IsPrefix(d.named, r.named)
    decreases |arrivals|
  {
    if arrivals == [] || d.error.Some? then d
    else
      var d1 := Iterate(d, arrivals[0]);
      var r := Run(d1, arrivals[1..]);
      PrefixTransitive(d.tx, d1.tx, r.tx);
      PrefixTransitive(d.raw, d1.raw, r.raw);
      PrefixTransitive(d.named, d1.named, r.named);
      r
  }

  /** `listen` over a bounded run of arrivals. */
  function Listen(d: Snapshot, arrivals: seq<seq<Byte>>): (r: Snapshot)
    ensures IsPrefix(d.tx + InitMessage + AwakeMessage, r.tx)
    ensures IsPrefix(d.raw, r.raw) && IsPrefix(d.named, r.named)
  {
    Run(Start(d), arrivals)
  }

  /** `k` awake messages. */
  function Awakes(k: nat): (s: seq<Byte>)
    ensures |s| == k * |AwakeMessage|
  {
    if k == 0 then [] else AwakeMessage + Awakes(k - 1)
  }
}
