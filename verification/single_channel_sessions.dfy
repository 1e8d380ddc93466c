/** The session handling of the window in program.cs: every device id maps to
    the same placeholder handle, one cancellation source and one device
    window are kept in fields, and closing the window uninitialises a fixed
    list of eight handles. */
module SingleChannelSessions {
  import opened Wrappers
  import opened Channels

  /** `GetCanHandleFromDeviceId`: a placeholder that answers USBBUS1 whatever
      the device. */
  function CanHandleFromDeviceId(device: DeviceId): (h: Handle)
    ensures h == Slots[0] && h.n == 1
  {
    Slot(0)
  }

  /** Two different adapters are always sent to the same channel. */
  lemma PlaceholderMapsAllDevicesTogether(d1: DeviceId, d2: DeviceId)
    ensures CanHandleFromDeviceId(d1) == CanHandleFromDeviceId(d2)
  {
  }

  /** The device-list entries made from the ids the device query returns:
      absent (`None`) and empty ids are skipped, the order is kept. */
  function ListDevices(found: seq<Option<DeviceId>>): (items: seq<DeviceId>)
    ensures forall d :: d in items <==> d != "" && Some(d) in found
    ensures |items| <= |found|
    decreases |found|
  {
    if found == [] then []
    else
      var rest := ListDevices(found[1..]);
      assert forall x :: x in found[1..] ==> x in found;
      assert forall x :: x in found ==> x == found[0] || x in found[1..];
      if found[0].Some? && found[0].value != "" then [found[0].value] + rest else rest
  }

  /** The list of a concatenation of query results is the concatenation of
      their lists: entries keep the order the query returned them in. */
  lemma {:induction false} ListDevicesAppend(a: seq<Option<DeviceId>>, b: seq<Option<DeviceId>>)
    ensures ListDevices(a + b) == ListDevices(a) + ListDevices(b)
    decreases |a|
  {
    if a == [] {
      assert a + b == b;
    } else {
      assert (a + b)[1..] == a[1..] + b;
      ListDevicesAppend(a[1..], b);
    }
  }

  /** One query result gives one entry exactly when it is a non-empty id. */
  lemma ListDevicesSingle(x: Option<DeviceId>)
    ensures ListDevices([x]) == (if x.Some? && x.value != "" then [x.value] else [])
  {
    assert [x][1..] == [];
  }

  /** The text of the list entry for a device. */
  function ItemText(d: DeviceId): string
  {
    "PCAN Device " + d
  }

  /** `FindStringExact` from index `from`: the first entry whose text `same`
      declares equal to the target (the combo box compares case-insensitively;
      the comparison is a parameter here), or -1. A missing target never
      matches. */
  function FindStringExact(texts: seq<string>, target: Option<string>, same: (string, string) -> bool, from: nat): (r: int)
    requires from <= |texts|
    ensures r == -1 || from <= r < |texts|
    ensures r == -1 <==> target.None? || forall i :: from <= i < |texts| ==> !same(texts[i], target.value)
    ensures r != -1 ==> same(texts[r], target.value) && forall i :: from <= i < r ==> !same(texts[i], target.value)
    decreases |texts| - from
  {
    if target.None? || from == |texts| then -1
    else if same(texts[from], target.value) then from
    else FindStringExact(texts, target, same, from + 1)
  }

  /** The selected index after `LoadAvailableDevices`: the entry matching
      the previously selected text if there is one, else the first entry, and
      -1 for an empty list. */
  function RefreshSelection(items: seq<DeviceId>, previous: Option<string>, same: (string, string) -> bool): (index: int)
    ensures |items| == 0 <==> index == -1
    ensures |items| > 0 ==> 0 <= index < |items|
    ensures |items| > 0 && previous.Some? && (exists i :: 0 <= i < |items| && same(ItemText(items[i]), previous.value)) ==>
      same(ItemText(items[index]), previous.value)
      && forall i :: 0 <= i < index ==> !same(ItemText(items[i]), previous.value)
    ensures |items| > 0 && (previous.None? || forall i :: 0 <= i < |items| ==> !same(ItemText(items[i]), previous.value)) ==>
      index == 0
  {
    if |items| == 0 then -1
    else
      var texts := seq(|items|, i requires 0 <= i < |items| => ItemText(items[i]));
      assert forall i :: 0 <= i < |items| ==> texts[i] == ItemText(items[i]);
      var found := FindStringExact(texts, previous, same, 0);
      if found != -1 then found else 0
  }

  datatype State = State(
    selectedCanHandle: Option<Handle>,
    source: Option<nat>,
    cancelled: set<nat>,
    nextSource: nat,
    deviceForm: Option<Handle>)

  /** The window as constructed: handle 0, no cancellation source, no device
      window. */
  const Initial: State := State(None, None, {}, 0, None)

  /** Tokens are issued from the counter `nextSource`: every token the state
      knows of, current or cancelled, was issued before it. */
  predicate TokensFresh(s: State)
  {
    && (s.source.Some? ==> s.source.value < s.nextSource)
    && forall t :: t in s.cancelled ==> t < s.nextSource
  }

  datatype StartOutcome = NoDevice | NoBaudrate | InitFailed(handle: Handle) | Started(handle: Handle)

  datatype StartResult = StartResult(state: State, outcome: StartOutcome)

  /** `StartButton_Click`: the selected handle becomes the placeholder
      handle, then `Initialize` (status `initializeOk`) decides whether a new
      cancellation source and device window are made. */
  function Start(s: State, device: Option<DeviceId>, baud: Option<Baud>, initializeOk: bool): (r: StartResult)
    ensures device.None? ==> r == StartResult(s, NoDevice)
    ensures device.Some? && baud.None? ==> r == StartResult(s, NoBaudrate)
    ensures device.Some? && baud.Some? ==>
      && r.state.selectedCanHandle == Some(CanHandleFromDeviceId(device.value))
      && r.outcome == (if initializeOk then Started(Slots[0]) else InitFailed(Slots[0]))
    ensures r.outcome.InitFailed? ==> r.state == s.(selectedCanHandle := Some(Slots[0]))
    ensures r.outcome.Started? ==>
      && r.state.deviceForm == Some(Slots[0]) && r.state.cancelled == s.cancelled
      && r.state.source == Some(s.nextSource) && r.state.nextSource == s.nextSource + 1
    ensures !r.outcome.Started? ==> r.state.nextSource == s.nextSource && r.state.source == s.source
    ensures TokensFresh(s) ==> TokensFresh(r.state)
    ensures TokensFresh(s) && r.outcome.Started? ==> r.state.source.value !in r.state.cancelled
  {
    if device.None? then StartResult(s, NoDevice)
    else if baud.None? then StartResult(s, NoBaudrate)
    else
      var h := CanHandleFromDeviceId(device.value);
      var s1 := s.(selectedCanHandle := Some(h));
      if initializeOk then
        StartResult(s1.(source := Some(s.nextSource), nextSource := s.nextSource + 1, deviceForm := Some(h)), Started(h))
      else StartResult(s1, InitFailed(h))
  }

  datatype StopOutcome = Failed | Uninitialized(handle: Handle)

  /** What `StopButton_Click` does: new state, the handles passed to
      `Uninitialize` in call order, and the reported outcome. */
  datatype StopResult = StopResult(state: State, uninitializeCalls: seq<Handle>, outcome: StopOutcome)

  /** `StopButton_Click`: the current source is cancelled if there is one;
      `Uninitialize` is called only for a non-zero selected handle, and only
      when it answers OK (status `uninitializeOk`) is the device window
      closed, whose own closing handler uninitialises its handle again. */
  function Stop(s: State, uninitializeOk: bool): (r: StopResult)
    ensures s.source.Some? ==> r.state.cancelled == s.cancelled + {s.source.value}
    ensures s.source.None? ==> r.state.cancelled == s.cancelled
    ensures r.state.selectedCanHandle == s.selectedCanHandle && r.state.source == s.source
    ensures s.selectedCanHandle.None? ==> r.uninitializeCalls == [] && r.outcome == Failed
    ensures s.selectedCanHandle.Some? ==> |r.uninitializeCalls| >= 1 && r.uninitializeCalls[0] == s.selectedCanHandle.value
    ensures r.outcome.Uninitialized? <==> s.selectedCanHandle.Some? && uninitializeOk
    ensures r.outcome.Uninitialized? ==>
      && r.state.deviceForm.None?
      && r.uninitializeCalls == [s.selectedCanHandle.value] + (if s.deviceForm.Some? then [s.deviceForm.value] else [])
    ensures r.outcome == Failed ==> r.state.deviceForm == s.deviceForm && |r.uninitializeCalls| <= 1
    ensures r.state.nextSource == s.nextSource
    ensures TokensFresh(s) ==> TokensFresh(r.state)
  {
    var cancelled := if s.source.Some? then s.cancelled + {s.source.value} else s.cancelled;
    var s1 := s.(cancelled := cancelled);
    if s.selectedCanHandle.None? then StopResult(s1, [], Failed)
    else
      var h := s.selectedCanHandle.value;
      if !uninitializeOk then StopResult(s1, [h], Failed)
      else
        var closing := if s.deviceForm.Some? then [s.deviceForm.value] else [];
        StopResult(s1.(deviceForm := None), [h] + closing, Uninitialized(h))
  }

  /** `OnFormClosing`: `Uninitialize` on USBBUS1..USBBUS8, in that order,
      whatever was started. */
  function Shutdown(): (calls: seq<Handle>)
    ensures |calls| == 8
    ensures forall i :: 0 <= i < 8 ==> calls[i] == UsbBus(i + 1)
    ensures forall i, j :: 0 <= i < j < |calls| ==> calls[i].n < calls[j].n
  {
    Slots[..8]
  }

  /** The only handle this window ever initialises is among those shut
      down; slots 9 to 16 are never uninitialised at closing. */
  lemma ShutdownCoversStartedHandle(s: State, d: DeviceId, b: Baud)
    ensures Start(s, Some(d), Some(b), true).outcome.handle in Shutdown()
    ensures forall h :: h in Shutdown() ==> IsSlot(h) && h.n <= 8
  {
    assert Shutdown()[0] == UsbBus(1);
  }

  /** A second start replaces the cancellation source without cancelling the
      previous one, so the next stop cancels only the new source and the
      previous monitor keeps running. */
  lemma RestartOrphansMonitor(s: State, d: DeviceId, b: Baud, uninitializeOk: bool)
    requires TokensFresh(s)
    requires s.source.Some? && s.source.value !in s.cancelled
    ensures
      var s1 := Start(s, Some(d), Some(b), true).state;
      && s1.source != s.source
      && s.source.value !in s1.cancelled
      && s.source.value !in Stop(s1, uninitializeOk).state.cancelled
  {
  }

  /** The monitor a start launches runs until the next stop, which cancels
      its token. */
  lemma StopCancelsLatestMonitor(s: State, device: Option<DeviceId>, baud: Option<Baud>, uninitializeOk: bool)
    requires TokensFresh(s)
    requires Start(s, device, baud, true).outcome.Started?
    ensures
      var s1 := Start(s, device, baud, true).state;
      s1.source.value !in s1.cancelled
    ensures
      var s1 := Start(s, device, baud, true).state;
      s1.source.value in Stop(s1, uninitializeOk).state.cancelled
  {
  }
}
