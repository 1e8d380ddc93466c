/** The session bookkeeping of the window in MainForm.cs: device ids are bound
    to channel handles through `deviceHandleMap`, initialised channels are the
    keys of `activeDevices`, and the configuration remembers the last baud
    rate per device. */
module MappedSessions {
  import opened Wrappers
  import opened Channels

  /** `activeDevices` (handle to cancellation source) and `deviceForms`
      (handle to device window) are dictionaries; only their key sets matter
      here. */
  datatype State = State(
    deviceHandleMap: map<DeviceId, Handle>,
    activeDevices: set<Handle>,
    deviceForms: set<Handle>,
    deviceBaudRates: map<DeviceId, Baud>)

  /** The state when the window opens, with the saved baud-rate preferences. */
  function Initial(saved: map<DeviceId, Baud>): State
  {
    State(map[], {}, {}, saved)
  }

  /** No two devices share a handle. */
  ghost predicate Injective(m: map<DeviceId, Handle>)
  {
    forall d1, d2 :: d1 in m && d2 in m && d1 != d2 ==> m[d1] != m[d2]
  }

  /** The bookkeeping invariant: mapped handles are distinct slots, every
      active handle has a device window, and every window belongs to a mapped
      device. */
  ghost predicate Inv(s: State)
  {
    && Injective(s.deviceHandleMap)
    && (forall d :: d in s.deviceHandleMap ==> IsSlot(s.deviceHandleMap[d]))
    && s.activeDevices <= s.deviceForms
    && s.deviceForms <= s.deviceHandleMap.Values
  }

  /** The ascending scan of `GetNextAvailableHandle`, from slot index `k`. */
  function ScanFrom(used: set<Handle>, k: nat): (r: Option<Handle>)
    requires k <= SlotCount
    ensures r.Some? ==> IsSlot(r.value) && k < r.value.n && r.value !in used
    ensures r.Some? ==> forall n :: k < n < r.value.n ==> UsbBus(n) in used
    ensures r.None? ==> forall n :: k < n <= SlotCount ==> UsbBus(n) in used
    decreases SlotCount - k
  {
    if k == SlotCount then None
    else if Slot(k) !in used then Some(Slot(k))
    else ScanFrom(used, k + 1)
  }

  /** `GetNextAvailableHandle`: the lowest of USBBUS1..16 that no device is
      mapped to, or `None` where the code throws because all sixteen are
      taken. */
  function NextAvailableHandle(m: map<DeviceId, Handle>): (r: Option<Handle>)
    ensures r.Some? ==> IsSlot(r.value) && r.value !in m.Values
    ensures r.Some? ==> forall n :: 1 <= n < r.value.n ==> UsbBus(n) in m.Values
    ensures r.None? <==> forall n :: 1 <= n <= SlotCount ==> UsbBus(n) in m.Values
  {
    ScanFrom(m.Values, 0)
  }

  /** `GetCanHandleFromDeviceId`: the mapped handle, or USBBUS1 for an
      unmapped device. `Start` overwrites its result on both branches, so it
      never decides a handle. */
  function CanHandleFromDeviceId(m: map<DeviceId, Handle>, device: DeviceId): (h: Handle)
    ensures device in m ==> h == m[device]
    ensures device !in m ==> h == Slots[0]
  {
    if device in m then m[device] else Slots[0]
  }

  datatype StartOutcome =
    | NoDevice
    | NoBaudrate
    | NoFreeHandle
    | InitFailed(handle: Handle)
    | Started(handle: Handle)

  datatype StartResult = StartResult(state: State, outcome: StartOutcome)

  /** `StartButton_Click`. `device` and `baud` are the combo-box selections;
      `initializeOk` is the status `Initialize` returns for the chosen handle
      and baud rate. The mapping is recorded before `Initialize` and survives
      its failure. */
  function Start(s: State, device: Option<DeviceId>, baud: Option<Baud>, initializeOk: bool): (r: StartResult)
    ensures device.None? ==> r == StartResult(s, NoDevice)
    ensures device.Some? && baud.None? ==> r == StartResult(s, NoBaudrate)
    ensures r.outcome.NoFreeHandle? <==>
      device.Some? && baud.Some? && device.value !in s.deviceHandleMap && NextAvailableHandle(s.deviceHandleMap).None?
    ensures r.outcome.NoFreeHandle? ==> r.state == s
    ensures r.outcome.Started? <==>
      device.Some? && baud.Some? && initializeOk && !r.outcome.NoFreeHandle?
    ensures r.outcome.InitFailed? <==>
      device.Some? && baud.Some? && !initializeOk && !r.outcome.NoFreeHandle?
    ensures (r.outcome.InitFailed? || r.outcome.Started?) && device.value !in s.deviceHandleMap ==>
      NextAvailableHandle(s.deviceHandleMap) == Some(r.outcome.handle)
    ensures r.outcome.InitFailed? || r.outcome.Started? ==>
      && device.Some?
      && (device.value in s.deviceHandleMap ==> r.outcome.handle == s.deviceHandleMap[device.value])
      && (device.value !in s.deviceHandleMap ==>
            IsSlot(r.outcome.handle) && r.outcome.handle !in s.deviceHandleMap.Values)
      && r.state.deviceHandleMap == s.deviceHandleMap[device.value := r.outcome.handle]
    ensures r.outcome.Started? ==>
      && r.state.activeDevices == s.activeDevices + {r.outcome.handle}
      && r.state.deviceForms == s.deviceForms + {r.outcome.handle}
      && r.state.deviceBaudRates == s.deviceBaudRates[device.value := baud.value]
    ensures r.outcome.InitFailed? ==>
      && r.state.activeDevices == s.activeDevices && r.state.deviceForms == s.deviceForms
      && r.state.deviceBaudRates == s.deviceBaudRates
  {
    if device.None? then StartResult(s, NoDevice)
    else if baud.None? then StartResult(s, NoBaudrate)
    else
      var d := device.value;
      var b := baud.value;
      var handle :=
        if d !in s.deviceHandleMap then NextAvailableHandle(s.deviceHandleMap)
        else Some(s.deviceHandleMap[d]);
      if handle.None? then StartResult(s, NoFreeHandle)
      else
        var h := handle.value;
        var mapped := s.(deviceHandleMap := s.deviceHandleMap[d := h]);
        if initializeOk then
          StartResult(
            mapped.(activeDevices := s.activeDevices + {h}, deviceForms := s.deviceForms + {h},
                    deviceBaudRates := s.deviceBaudRates[d := b]),
            Started(h))
        else StartResult(mapped, InitFailed(h))
  }

  datatype StopOutcome =
    | NothingSelected
    | NotMapped
    | NotActive
    | UninitFailed(handle: Handle)
    | Stopped(handle: Handle)

  /** What `StopButton_Click` does: the new state, the handles passed to
      `Uninitialize` in call order, and the outcome reported. */
  datatype StopResult = StopResult(state: State, uninitializeCalls: seq<Handle>, outcome: StopOutcome)

  /** `StopButton_Click`. `uninitializeOk` is the status `Uninitialize`
      returns. The handle leaves `activeDevices` (its token is cancelled)
      before `Uninitialize`, whatever that returns; only when it returns OK
      are the device window closed (its closing handler calls `Uninitialize`
      once more) and the device mapping removed. */
  function Stop(s: State, device: Option<DeviceId>, uninitializeOk: bool): (r: StopResult)
    ensures device.None? ==> r == StopResult(s, [], NothingSelected)
    ensures device.Some? && device.value !in s.deviceHandleMap ==> r == StopResult(s, [], NotMapped)
    ensures (device.Some? && device.value in s.deviceHandleMap
             && s.deviceHandleMap[device.value] !in s.activeDevices) ==> r == StopResult(s, [], NotActive)
    ensures (device.Some? && device.value in s.deviceHandleMap
             && s.deviceHandleMap[device.value] in s.activeDevices) ==> r.outcome.Stopped? || r.outcome.UninitFailed?
    ensures r.outcome.UninitFailed? || r.outcome.Stopped? ==>
      && device.Some? && device.value in s.deviceHandleMap
      && r.outcome.handle == s.deviceHandleMap[device.value]
      && r.outcome.handle in s.activeDevices
      && r.state.activeDevices == s.activeDevices - {r.outcome.handle}
      && r.state.deviceBaudRates == s.deviceBaudRates
    ensures r.outcome.Stopped? <==> (r.outcome.Stopped? || r.outcome.UninitFailed?) && uninitializeOk
    ensures r.outcome.Stopped? ==>
      && r.state.deviceHandleMap == s.deviceHandleMap - {device.value}
      && r.state.deviceForms == s.deviceForms - {r.outcome.handle}
      && r.uninitializeCalls == [r.outcome.handle] + (if r.outcome.handle in s.deviceForms then [r.outcome.handle] else [])
    ensures r.outcome.UninitFailed? ==>
      && r.state.deviceHandleMap == s.deviceHandleMap && r.state.deviceForms == s.deviceForms
      && r.uninitializeCalls == [r.outcome.handle]
  {
    if device.None? then StopResult(s, [], NothingSelected)
    else if device.value !in s.deviceHandleMap then StopResult(s, [], NotMapped)
    else
      var d := device.value;
      var h := s.deviceHandleMap[d];
      if h !in s.activeDevices then StopResult(s, [], NotActive)
      else
        var cancelled := s.(activeDevices := s.activeDevices - {h});
        if uninitializeOk then
          var closing := if h in s.deviceForms then [h] else [];
          StopResult(
            cancelled.(deviceHandleMap := s.deviceHandleMap - {d}, deviceForms := s.deviceForms - {h}),
            [h] + closing, Stopped(h))
        else StopResult(cancelled, [h], UninitFailed(h))
  }

  /** `MainForm_FormClosing`: the handles passed to `Uninitialize`, one call
      per key of `activeDevices` (dictionary order is not modelled). */
  function Shutdown(s: State): (calls: set<Handle>)
    ensures forall h :: h in calls <==> h in s.activeDevices
  {
    s.activeDevices
  }

  /** The baud rate shown after the device selection changes, or after a
      reload of the device list once the window is open: the one remembered
      for the selected device, else the one already shown. The first load,
      which runs before the baud list is filled, is not covered. */
  function RecallBaud(s: State, device: Option<DeviceId>, shown: Option<Baud>): (b: Option<Baud>)
    ensures device.Some? && device.value in s.deviceBaudRates ==> b == Some(s.deviceBaudRates[device.value])
    ensures device.None? || device.value !in s.deviceBaudRates ==> b == shown
  {
    if device.Some? && device.value in s.deviceBaudRates then Some(s.deviceBaudRates[device.value]) else shown
  }

  /** A device started at some baud rate has that rate recalled on its next
      selection, also after it was stopped. */
  lemma StartedBaudIsRecalled(s: State, d: DeviceId, b: Baud, shown: Option<Baud>, stopOk: bool)
    requires Start(s, Some(d), Some(b), true).outcome.Started?
    ensures
      var s1 := Start(s, Some(d), Some(b), true).state;
      && RecallBaud(s1, Some(d), shown) == Some(b)
      && RecallBaud(Stop(s1, Some(d), stopOk).state, Some(d), shown) == Some(b)
  {
  }

  /** A started handle is released at closing until the device is stopped;
      a stop takes it out of the closing list whatever `Uninitialize` says. */
  lemma StartedHandleReleasedAtShutdown(s: State, d: DeviceId, b: Baud, uninitializeOk: bool)
    requires Start(s, Some(d), Some(b), true).outcome.Started?
    ensures
      var r := Start(s, Some(d), Some(b), true);
      && r.outcome.handle in Shutdown(r.state)
      && r.outcome.handle !in Shutdown(Stop(r.state, Some(d), uninitializeOk).state)
      && Shutdown(Stop(r.state, Some(d), uninitializeOk).state) == Shutdown(r.state) - {r.outcome.handle}
  {
  }

  /** `Start` decides the handle itself: a mapped device starts on the handle
      the lookup returns, while an unmapped one starts on the lowest free slot,
      which is not the lookup's USBBUS1 fallback once USBBUS1 is taken. */
  lemma StartHandleVersusLookup(s: State, d: DeviceId, b: Baud, initializeOk: bool)
    ensures
      var r := Start(s, Some(d), Some(b), initializeOk);
      d in s.deviceHandleMap ==> r.outcome.handle == CanHandleFromDeviceId(s.deviceHandleMap, d)
    ensures
      var r := Start(s, Some(d), Some(b), initializeOk);
      (d !in s.deviceHandleMap && Slots[0] in s.deviceHandleMap.Values && !r.outcome.NoFreeHandle?) ==>
        r.outcome.handle != CanHandleFromDeviceId(s.deviceHandleMap, d)
  {
  }

  /** `Start` keeps the bookkeeping invariant. */
  lemma StartPreservesInv(s: State, device: Option<DeviceId>, baud: Option<Baud>, initializeOk: bool)
    requires Inv(s)
    ensures Inv(Start(s, device, baud, initializeOk).state)
  {
    var r := Start(s, device, baud, initializeOk);
    if r.outcome.InitFailed? || r.outcome.Started? {
      var m, m', h, d := s.deviceHandleMap, r.state.deviceHandleMap, r.outcome.handle, device.value;
      forall d1, d2 | d1 in m' && d2 in m' && d1 != d2
        ensures m'[d1] != m'[d2]
      {
        if d1 != d && d2 != d {
          assert m'[d1] == m[d1] && m'[d2] == m[d2];
        } else if d in m {
          assert h == m[d];
        } else if d1 == d {
          assert m'[d2] == m[d2] && m[d2] in m.Values;
        } else {
          assert m'[d1] == m[d1] && m[d1] in m.Values;
        }
      }
      forall x | x in r.state.deviceForms
        ensures x in m'.Values
      {
        if x == h {
          assert m'[d] == h;
        } else {
          var e :| e in m && m[e] == x;
          assert e != d;
          assert m'[e] == x;
        }
      }
    }
  }

  /** `Stop` keeps the bookkeeping invariant. */
  lemma StopPreservesInv(s: State, device: Option<DeviceId>, uninitializeOk: bool)
    requires Inv(s)
    ensures Inv(Stop(s, device, uninitializeOk).state)
  {
    var r := Stop(s, device, uninitializeOk);
    if r.outcome.Stopped? {
      var m, m', h, d := s.deviceHandleMap, r.state.deviceHandleMap, r.outcome.handle, device.value;
      forall x | x in r.state.deviceForms
        ensures x in m'.Values
      {
        var e :| e in m && m[e] == x;
        assert e != d;
        assert m'[e] == x;
      }
    }
  }

  /** At shutdown every uninitialised handle is a slot held by exactly one
      device, so no channel is released on behalf of two devices. */
  lemma ShutdownReleasesOwnedHandles(s: State)
    requires Inv(s)
    ensures forall h :: h in Shutdown(s) ==> IsSlot(h) && h in s.deviceHandleMap.Values
    ensures forall d1, d2 ::
      (d1 in s.deviceHandleMap && d2 in s.deviceHandleMap && s.deviceHandleMap[d1] in Shutdown(s)
       && s.deviceHandleMap[d1] == s.deviceHandleMap[d2]) ==> d1 == d2
  {
  }

  /** A device whose `Uninitialize` failed keeps its mapping, so starting it
      again reuses the same handle. */
  lemma FailedStopThenStartReusesHandle(s: State, d: DeviceId, b: Baud, initializeOk: bool)
    requires Stop(s, Some(d), false).outcome.UninitFailed?
    ensures
      var h := Stop(s, Some(d), false).outcome.handle;
      var r := Start(Stop(s, Some(d), false).state, Some(d), Some(b), initializeOk);
      (r.outcome.Started? || r.outcome.InitFailed?) && r.outcome.handle == h
  {
  }

  /** A successful stop frees the handle; if it was the lowest used slot, the
      next start of any unmapped device gets it back. */
  lemma StartStopStartScenario(saved: map<DeviceId, Baud>)
    ensures
      var s0 := Initial(saved);
      var r1 := Start(s0, Some("D1"), Some(Baud500K), true);
      var r2 := Stop(r1.state, Some("D1"), true);
      var r3 := Start(r2.state, Some("D1"), Some(Baud500K), true);
      && r1.outcome == Started(Slots[0])
      && r1.state.deviceBaudRates["D1"] == Baud500K
      && r2.outcome == Stopped(Slots[0])
      && r2.state.activeDevices == {}
      && r3.outcome == Started(Slots[0])
  {
    var s0 := Initial(saved);
    assert NextAvailableHandle(s0.deviceHandleMap) == Some(Slots[0]);
    var r1 := Start(s0, Some("D1"), Some(Baud500K), true);
    var r2 := Stop(r1.state, Some("D1"), true);
    assert r2.state.deviceHandleMap == map[];
    assert NextAvailableHandle(r2.state.deviceHandleMap) == Some(Slots[0]);
  }

  /** Allocation is exhausted only when sixteen distinct devices hold all
      sixteen slots. */
  lemma ExhaustedMeansAllSlotsMapped(s: State, d: DeviceId, b: Baud, initializeOk: bool)
    requires Start(s, Some(d), Some(b), initializeOk).outcome.NoFreeHandle?
    ensures forall i :: 0 <= i < |Slots| ==> Slots[i] in s.deviceHandleMap.Values
  {
    forall i | 0 <= i < |Slots|
      ensures Slots[i] in s.deviceHandleMap.Values
    {
      assert Slots[i] == UsbBus(i + 1);
    }
  }
}
