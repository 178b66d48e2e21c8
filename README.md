# Xbox Chatpad serial driver — a verified model

This project models the core of a Python driver for the Xbox 360 Chatpad.
The Chatpad is a small keyboard that talks over a 19200-baud serial line.
The model covers four things:

- The host-to-device messages: the init message sent once and the awake
  keepalive.
- The synchroniser that finds 8-byte frames (`B4 C5 ...`) in the byte
  stream.
- The decoder that reads the modifier mask and two key slots out of a
  frame.
- The key-state diff engine. It suppresses duplicate frames, computes the
  pressed and released lists, and hands them to two sinks:
  - a sink that receives raw codes;
  - a sink that receives platform key names, looked up in the key table.

Module layout:

- `ChatpadProtocol` (`chatpad_protocol.dfy`) holds the wire protocol:
  - the constants;
  - the modifier table;
  - the key table, written as a function from scan code to name;
  - frame decoding;
  - one synchroniser step as a pure function, `Scan`.
- `KeyState` (`key_state.dfy`) holds the pure parts of the diff engine:
  - the current key list and current modifier list;
  - the `not in` filter;
  - translation through the key table, which fails with the missing code.
- `Listener` (`listener.dfy`) states the behaviour of `listen` as
  functions on a `Snapshot` of the driver state. A `Snapshot` holds:
  - the receive buffer;
  - the write log;
  - the tick counter;
  - the previous key and modifier lists;
  - the calls each sink received;
  - the KeyError, if any, that ended the loop.
- `ListenerProperties` (`listener_properties.dfy`) proves what those
  functions promise:
  - resynchronisation;
  - duplicate suppression;
  - what a dispatch reports;
  - the KeyError path;
  - the keepalive cadence.
- `Chatpad` (`chatpad.dfy`) is the driver object.
  - It is a class whose fields are the port's two directions, the two sinks
    as logs, and the state of `listen`.
  - It has a method for each step of `listen`. The steps are written with
    the source's own loops: the byte-by-byte synchroniser, the walk over the
    modifier table, the loops that append modifiers, and the two nested
    `while` loops.
  - Each method is proved to change the object exactly as the matching
    `Listener` function changes a snapshot.

The model follows the code as written, including where it behaves in ways
a reader of the driver would not expect:

- **Empty dispatches.** A dispatch can have both lists empty. The duplicate
  check compares the key *lists*, not the sets of codes they hold, so two
  kinds of frame that change nothing still reach both sinks with
  `pressed = []` and `released = []`:
  - a frame with the two slots swapped;
  - a frame that moves between one slot and the same code in both slots.

  `EmptyDispatchIff` states exactly when this happens, and
  `SwappedSlotsExample` gives an instance.
- **Same code in both slots.** When `key0 == key1` is nonzero, the current
  key list holds that code twice (`SameCodeInBothSlots`).
- **Stray first marker.** After a stray `B4`, the next frame's own `B4` is
  consumed as the rejected second byte. That frame is then lost:
  `StrayMarkerHidesNextFrame`, `StrayMarkerExample`.
- **KeyError.** A code missing from the key table raises `KeyError` while
  the platform sink's arguments are built.
  - By then the raw sink has already been called.
  - The exception leaves `listen`, so the previous lists are not updated
    and the loop ends. The model records this as `error := Some(code)`, and
    every later step of that call leaves the state alone.
  - A caller that catches the exception and calls `listen` again gets a
    fresh loop: `Start` clears the error along with the counter and the
    previous lists (`ListenAfterKeyError`).
- **Modifier order.** The driver runs only on Python 2: `bytearray(data[0])[0]`
  reads a byte only when `data` is a Python 2 `str`. The modifier list is
  built by walking `mod_dict.keys()`. CPython 2.7 keeps a four-entry dict
  in an 8-slot table, with each small integer key at slot `key & 7`. The
  masks 1, 2, 4 and 8 therefore come out as 8, 1, 2, 4, and the modifier
  ids as 4, 1, 2, 3.
  - `ModDict` lists the table in that order.
  - `ModifiersOf` states that order (`InTableOrder`).
  - `MetaAndShiftPress` shows mask `0x09`, from the empty state, pressing
    `[4, 1]` and naming `KEY_LEFTMETA` before `KEY_LEFTSHIFT`.
- **Frame gating.** The synchroniser runs only while *more than* 8 bytes
  are waiting. Even one complete frame is not read until a ninth byte
  arrives (`CompleteFrameWaits`). So every read the synchroniser makes is
  of bytes already buffered.

## Model

| member | source | states |
|---|---|---|
| ChatpadProtocol.Encode | driver.py:73-96 | the frame a device sends for a report starts with both sync markers and is 8 bytes long |
| ChatpadProtocol.DecodeEncode | driver.py:94-96 | decoding the frame built from a report gives back that report, whatever the reserved bytes hold |
| ChatpadProtocol.Decode | driver.py:94-96 | a frame with both markers is the encoding of its decoded report plus its reserved bytes 2, 6 and 7, so decoding loses only those bytes |
| ChatpadProtocol.DecodeIgnoresReserved | driver.py:90-96 | two frames that agree on bytes 3 to 5 decode alike: no checksum and no reserved byte is checked |
| ChatpadProtocol.ScanCodeName | driver.py:25 | every scan code in the table lies in 17..119, so none collides with the modifier ids 1 to 4, and every name starts with `KEY_` |
| ChatpadProtocol.KeyName | driver.py:25-26 | the table after `update`: ids 1 to 4 are always present, every other code maps exactly as the scan-code table does, and every name is a `KEY_...` name |
| ChatpadProtocol.Scan | driver.py:75-88 | one synchroniser pass consumes 1 to 8 bytes. It assembles a frame exactly when the first two bytes are B4 C5, and the frame is then the first 8 bytes with both markers. Otherwise it drops exactly one byte when the first is not B4, and exactly two when B4 is followed by a wrong byte, so scanning resumes right after the rejected byte |
| KeyState.KeysOf | driver.py:92-105 | the current key list holds exactly the nonzero slots, slot 0 first. It is empty exactly when both slots are 0, and has two entries exactly when both slots are nonzero, so a code held in both slots is listed twice |
| KeyState.Selected | driver.py:106-108 | the ids picked from a mask table are no more than the table's entries, and each comes from an entry whose mask is fully set |
| KeyState.ModifiersOfUnfold | driver.py:18-23 | walking the modifier table in CPython 2's slot order yields id 4 for mask bit 3 first, then ids 1, 2, 3 for mask bits 0, 1, 2 |
| KeyState.ModifiersOf | driver.py:106-108 | the modifier list holds exactly the ids k+1 whose mask bit k (k < 4) is set. It lists them in table-walk order (4, 1, 2, 3) and has at most 4 entries |
| KeyState.ModifiersIgnoreHighBits | driver.py:106-108 | mask bits 4 to 7 never affect the modifier list |
| KeyState.ModifiersDetermineMask | driver.py:106-108 | two masks with the same modifier list agree on their low four bits |
| KeyState.Missing | driver.py:112 | the filter `[x for x in xs if x not in ys]` keeps exactly the elements of xs that are not in ys and never grows the list |
| KeyState.MissingOne | driver.py:112 | helper, the one-element case of the filter: the element is kept exactly when it is not in ys. With MissingAppend it fixes the filter's result on every list |
| KeyState.MissingAppend | driver.py:112 | the filter distributes over concatenation, so the survivors keep the order of xs and each one stays in its place |
| KeyState.MissingCount | driver.py:112 | each survivor occurs in the result exactly as often as in xs, and a value in ys not at all |
| KeyState.MissingInTableOrder | driver.py:113-121 | a modifier list in table order stays in table order after filtering, against any ys |
| KeyState.MissingDisjoint | driver.py:112 | when no element of xs is in ys, the filter returns xs unchanged |
| KeyState.Pressed | driver.py:112-116 | the pressed list holds exactly the current keys not held before and the current modifiers not held before. When the scan codes lie above 4 and the modifier ids within 1..4, no scan code comes after a modifier id |
| KeyState.Released | driver.py:117-121 | the released list holds exactly the previous keys no longer held and the previous modifiers no longer held. When the scan codes lie above 4 and the modifier ids within 1..4, no scan code comes after a modifier id |
| KeyState.PressFromEmpty | driver.py:112-121 | from the empty state everything held is pressed, keys before modifiers, in their own order, and nothing is released |
| KeyState.ModifierEventsInTableOrder | driver.py:113-121 | the modifier parts of the pressed and released lists follow the table walk |
| KeyState.DiffAccountsForChange | driver.py:112-121 | every current key was either held before and not released, or pressed. Every previous key is either still held or released. Both differences are empty exactly when the two lists hold the same elements |
| KeyState.DiffReplays | driver.py:112-121 | if scan codes differ from the modifier ids, the current keys and modifiers are the previous ones minus released plus pressed, and no code is both pressed and released |
| KeyState.NothingToReport | driver.py:109-121 | pressed and released are both empty exactly when the key lists hold the same codes and the modifier lists are equal |
| KeyState.TableOrderSameElements | driver.py:106-109 | two modifier lists in table order with the same elements are equal, so modifier lists that hold the same ids pass the duplicate test |
| KeyState.Translate | driver.py:124 | the lookup succeeds exactly when every code is in the key table. A success maps each code to its name, position by position. A failure names a code that is in the list and missing from the table, with every earlier code found |
| KeyState.TranslateOne | driver.py:124 | translating a single known code yields its name |
| KeyState.TranslateEvent | driver.py:124 | the platform sink's arguments exist exactly when every pressed and released code is in the table. A failure names the first missing code of the pressed list, and only when that list has none, the first missing code of the released list |
| KeyState.ModifierNames | driver.py:25-26 | every modifier list translates; ids 1 to 4 name KEY_LEFTSHIFT, KEY_LEFTCTRL, KEY_RIGHTALT and KEY_LEFTMETA |
| Listener.Start | driver.py:64-71 | the start of listen writes the init message and then the awake message, resets the counter and the previous lists, and starts without an error; the port and the sink logs are untouched |
| Listener.OnFrame | driver.py:92-127 | processing a frame never touches the port or the counter. It only appends to the sink logs and keeps the invariant of the previous lists: at most two keys, none 0, and modifier ids within 1..4 in table-walk order |
| Listener.SyncStep | driver.py:73-88 | one inner iteration consumes at least one byte from the front of the buffer. It writes nothing, only appends to the sink logs and keeps the previous-list invariant |
| Listener.Drain | driver.py:73-127 | the inner loop writes nothing and leaves the counter alone. It stops with at most 8 bytes waiting unless a KeyError ended it, and does nothing once a KeyError has occurred. It consumes from the front and only appends to the logs |
| Listener.Tick | driver.py:128-132 | the counter stays below 10. Below the threshold only the counter moves. On reaching 10 one awake message is written and the counter resets to 0 |
| Listener.Iterate | driver.py:72-132 | one outer iteration writes nothing or exactly one awake message, only appends to the sink logs, and keeps the counter below 10 and the previous-list invariant |
| Listener.Run | driver.py:72-132 | the outer loop only appends to the write log and the sink logs, and does nothing once a KeyError has occurred |
| Listener.Listen | driver.py:63-132 | listen's writes begin with the init message and then the awake message, and the sink logs only grow |
| Listener.Awakes | driver.py:130-131 | k awake messages are k times five bytes |
| ListenerProperties.DrainStep | driver.py:73 | with more than 8 bytes waiting and no error, the inner loop runs one synchroniser pass and continues |
| ListenerProperties.AssembleFrame | driver.py:81-88 | a frame at the head of the buffer, with bytes behind it, is read whole and processed |
| ListenerProperties.SkipNonMarker | driver.py:75-80 | a first byte other than B4 is dropped alone |
| ListenerProperties.CompleteFrameWaits | driver.py:73 | a buffer holding exactly one complete frame is left untouched |
| ListenerProperties.NoiseIsSkipped | driver.py:75-80 | bytes free of B4, followed by at least 8 more bytes, are discarded without a trace |
| ListenerProperties.FrameAfterNoise | driver.py:73-88 | after B4-free noise, a frame followed by one more byte is processed exactly as if the noise had not been there |
| ListenerProperties.StrayMarkerHidesNextFrame | driver.py:75-87 | after a stray B4, the next frame's B4 is consumed as a wrong second byte |
| ListenerProperties.StrayMarkerExample | driver.py:75-87 | the bytes B4 B4 C5 0 0 55 0 0 0 dispatch nothing and leave the last seven bytes waiting |
| ListenerProperties.DuplicateChangesNothing | driver.py:109-110 | a frame whose key and modifier lists equal the previous ones changes nothing |
| ListenerProperties.RepeatedFrameIsIdempotent | driver.py:109-127 | processing the same frame twice in a row is processing it once |
| ListenerProperties.RepeatedFrameDispatchesOnce | driver.py:73-127 | a frame sent twice back to back, then one more byte, is dispatched at most once |
| ListenerProperties.DispatchReplaysChange | driver.py:109-127 | a non-duplicate frame produces exactly one raw-sink call. Replaying that event on the previous state gives the current keys and modifiers, and nothing is both pressed and released. The platform sink is called and the state advances exactly when every code is in the table; otherwise the error names a missing code and the state stays |
| ListenerProperties.DispatchOk | driver.py:122-127 | a non-duplicate frame whose codes are all in the table reaches both sinks and becomes the previous state |
| ListenerProperties.DispatchFails | driver.py:122-124 | a non-duplicate frame whose event holds an unknown code reaches only the raw sink, and records that code as the error |
| ListenerProperties.EmptyDispatchIff | driver.py:109-123 | a dispatch has both lists empty exactly when the modifiers are unchanged and the key lists differ while holding the same codes |
| ListenerProperties.SwappedSlotsExample | driver.py:97-127 | keys 55, 54 then the swapped frame 54, 55 dispatch an empty event to both sinks |
| ListenerProperties.SwappedDiff | driver.py:112-121 | swapping two held codes presses and releases nothing |
| ListenerProperties.SameCodeInBothSlots | driver.py:97-102 | a code held in both slots is listed twice |
| ListenerProperties.FirstKeyPress | driver.py:92-127 | from the empty state, key 55 gives pressed [55], released [] and the name KEY_A |
| ListenerProperties.ReleaseAll | driver.py:103-127 | from key 55 held, a frame of zeros releases 55 |
| ListenerProperties.ShiftPress | driver.py:106-127 | mask bit 0 with no keys presses id 1, named KEY_LEFTSHIFT |
| ListenerProperties.OnFrameIgnoresRx | driver.py:92-127 | processing a frame does not depend on, or change, the bytes still waiting |
| ListenerProperties.NameOfA | driver.py:25 | scan code 55 names KEY_A |
| ListenerProperties.MetaAndShiftPress | driver.py:106-127 | mask 0x09 from the empty state presses [4, 1]: the people id before the shift id. Both sinks see that order: KEY_LEFTMETA, then KEY_LEFTSHIFT |
| ListenerProperties.MetaAndShiftModifiers | driver.py:106-108 | mask 0x09 gives the modifier list [4, 1] |
| ListenerProperties.MetaAndShiftNames | driver.py:124 | the event ([4, 1], []) is named (KEY_LEFTMETA, KEY_LEFTSHIFT), () |
| ListenerProperties.FirstUnknownCodeReported | driver.py:124 | with 5 and 6 pressed and 7 released, none of them in the table, the KeyError names 5 |
| ListenerProperties.UnknownCodeExample | driver.py:123-124 | scan code 5 reaches only the raw sink and ends the loop with a KeyError for 5 |
| ListenerProperties.Ticks | driver.py:128-129 | a run completes at most one tick per polling iteration |
| ListenerProperties.RunKeepalive | driver.py:128-132 | over a run only awake messages are written, one each time the counter reaches 10. The counter ends at its start plus the ticks, modulo 10. Every iteration ticks unless a KeyError ended the run |
| ListenerProperties.IterateOutcome | driver.py:72-132 | one polling iteration writes nothing and advances the counter by one, except at the threshold, where it writes one awake message and resets the counter; after a KeyError it writes nothing and keeps the counter |
| ListenerProperties.RunStep | driver.py:72-132 | a run is one iteration followed by the rest, and it stops at a KeyError |
| ListenerProperties.KeepaliveCarry | driver.py:129-132 | one tick followed by m more owes as many awake messages, and leaves the same counter, as m + 1 ticks from the start |
| ListenerProperties.QuietRun | driver.py:72-73 | quiet iterations with at most 8 bytes waiting read nothing and dispatch nothing |
| ListenerProperties.ListenStartsWithInitAndAwake | driver.py:63-65 | listen first writes the init message and then the awake message |
| ListenerProperties.ListenAfterKeyError | driver.py:63-71 | calling listen again after a KeyError left it runs exactly as a call on a state with no error |
| ListenerProperties.TenQuietIterations | driver.py:128-132 | ten quiet iterations after the start write exactly one more awake message and bring the counter back to 0 |
| ListenerProperties.RunPreservesWellFormed | driver.py:72-132 | the counter stays in 0..9 between iterations, and the previous-list invariant holds |
| ListenerProperties.ListenIsWellFormed | driver.py:63-71 | listen keeps the counter in 0..9 and the previous lists well formed |
| Chatpad.CurrentKeys | driver.py:92-105 | the source's appends build exactly the current key list of the report |
| Chatpad.CurrentModifiers | driver.py:106-108 | the loop over the modifier table, in CPython 2's order 8, 1, 2, 4, builds exactly the modifier list of the mask |
| Chatpad.AppendMissing | driver.py:113-121 | the loop appends, in order, exactly the elements of xs not in ys |
| Chatpad.Diff | driver.py:112-121 | the two pairs of loops build exactly the pressed and released lists |
| Chatpad.Chatpad.constructor | driver.py:28-40 | a new driver has an empty port, empty sinks and no error |
| Chatpad.Chatpad.Receive | driver.py:73 | bytes the device delivers join the back of the receive buffer |
| Chatpad.Chatpad.InWaiting | driver.py:73 | reports how many bytes wait |
| Chatpad.Chatpad.Read | driver.py:75 | returns and removes the first n waiting bytes |
| Chatpad.Chatpad.Write | driver.py:44 | appends the bytes to the write log |
| Chatpad.Chatpad.SendInitMessage | driver.py:42-44 | writes 87 02 8C 1F CC |
| Chatpad.Chatpad.SendAwakeMessage | driver.py:46-48 | writes 87 02 8C 1B D0 |
| Chatpad.Chatpad.Synchronise | driver.py:75-88 | the byte-by-byte reads consume what Scan consumes and return the frame when Scan assembles one |
| Chatpad.Chatpad.Dispatch | driver.py:122-127 | a frame that is not a duplicate calls the raw sink, then either records the KeyError or calls the named sink and keeps the new lists, as frame processing does |
| Chatpad.Chatpad.ProcessFrame | driver.py:92-127 | the frame's effect on the object is OnFrame's effect on the snapshot |
| Chatpad.Chatpad.Drain | driver.py:73-127 | the inner loop's effect is Drain's |
| Chatpad.Chatpad.Tick | driver.py:128-132 | the end of an outer iteration has Tick's effect |
| Chatpad.Chatpad.Iterate | driver.py:72-132 | one outer iteration has Iterate's effect |
| Chatpad.Chatpad.Listen | driver.py:63-132 | listen over a run of arrivals has the effect of Listen: it writes init and awake, starts a fresh loop with the counter, the previous lists and any earlier KeyError cleared, and then runs one outer iteration per arrival until a KeyError |

## Left out

- Serial I/O. The port is a receive buffer and a write log. Bytes arrive
  through `Receive`, and the device's behaviour is the caller's choice.
  Opening the port at 19200 baud, write failures and timeouts are not
  modelled.
- Chatpad.Chatpad.Read: requires the bytes to be waiting. The real
  `serial.read` blocks until they arrive, but `listen` only reads while
  more than 8 bytes wait, so it never blocks there.
- The evdev sink (`uinput_callback`, `UInput`) and the defaulting of
  missing callbacks to no-ops. Both sinks are logs of their calls. The
  platform sink receives the key names, in the order of the
  `ecode_callback` arguments.
- `sleep`. Each polling iteration is one discrete tick; real time is not
  modelled.
- `test_chatpad_on_serial`. It only returns `NotImplementedError`.
- The infinite `while True`. `listen` runs over a finite list of
  arrivals, one per outer iteration, each delivered just before that
  iteration's inner loop. The code has no stop signal. Among the paths
  modelled, a KeyError is the only way out of `listen`.
- Exceptions from the port and the callbacks. An exception raised by
  `inWaiting`, `read` or `write`, or by either callback, would also end
  `listen`. The model's port and sinks never fail.
- `read_keys.py`. It is a separate interactive tool for recording scan
  codes, not part of the driver.
- Python dict semantics of `key_dict`. It is a total function returning
  `None` for a code the table lacks. The `update` with the modifier ids is
  one more match arm.
- ListenerProperties.DispatchReplaysChange: assumes scan codes are above 4.
  This keeps them distinct from the modifier ids 1 to 4. A device that sent
  scan codes 1 to 4 would mix the two lists, and the code does nothing to
  keep them apart.
- The driver's name, port path and `__main__` block. They are
  configuration with no behaviour to model.
