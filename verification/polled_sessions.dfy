/** The session bookkeeping of the window in Program.cs: the device list holds
    channel handles found by polling all sixteen slots with `GetValue`, and
    started channels are the keys of `activeDeviceForms`. */
module PolledSessions {
  import opened Wrappers
  import opened Channels

  /** Cancellation sources. `current` is the `cancellationTokenSource` field
      (the source made by the latest successful start), `monitor` the token
      each started handle's loop polls, `cancelled` the cancelled tokens and
      `next` the number of sources made so far. */
  datatype Tokens = Tokens(current: Option<nat>, monitor: map<Handle, nat>, cancelled: set<nat>, next: nat)

  datatype State = State(
    devices: seq<Handle>,
    selected: Option<Handle>,
    selectedCanHandle: Option<Handle>,
    activeDeviceForms: set<Handle>,
    tokens: Tokens)

  predicate NoDuplicates(s: seq<Handle>)
  {
    forall i, j :: 0 <= i < j < |s| ==> s[i] != s[j]
  }

  /** The slots whose `GetValue(PCAN_DEVICE_ID)` call answered OK. */
  function Polled(responding: set<Handle>): set<Handle>
  {
    set h | h in responding && IsSlot(h)
  }

  /** The first loop of `LoadAvailableDevices`: scanning the slots from
      index `k` on, a slot that responds and is not listed yet is appended. */
  function AddResponding(items: seq<Handle>, responding: set<Handle>, k: nat): seq<Handle>
    requires k <= SlotCount
    decreases SlotCount - k
  {
    if k == SlotCount then items
    else
      var h := Slot(k);
      AddResponding(if h in responding && h !in items then items + [h] else items, responding, k + 1)
  }

  /** The slots after index `k` that respond and are not in `items`, in slot
      order: what the first loop appends. */
  function Fresh(items: seq<Handle>, responding: set<Handle>, k: nat): seq<Handle>
    requires k <= SlotCount
    decreases SlotCount - k
  {
    if k == SlotCount then []
    else (if Slot(k) in responding && Slot(k) !in items then [Slot(k)] else []) + Fresh(items, responding, k + 1)
  }

  /** `Fresh` holds exactly the responding unlisted slots after `k`, in
      ascending order. */
  lemma {:induction false} FreshProperties(items: seq<Handle>, responding: set<Handle>, k: nat)
    requires k <= SlotCount
    ensures forall h :: h in Fresh(items, responding, k) <==> IsSlot(h) && k < h.n && h in responding && h !in items
    ensures forall i :: 0 <= i < |Fresh(items, responding, k)| ==> k < Fresh(items, responding, k)[i].n
    ensures forall i, j :: 0 <= i < j < |Fresh(items, responding, k)| ==>
      Fresh(items, responding, k)[i].n < Fresh(items, responding, k)[j].n
    decreases SlotCount - k
  {
    if k < SlotCount {
      FreshProperties(items, responding, k + 1);
      var rest := Fresh(items, responding, k + 1);
      var head := if Slot(k) in responding && Slot(k) !in items then [Slot(k)] else [];
      assert Fresh(items, responding, k) == head + rest;
      forall h | IsSlot(h) && k < h.n && h in responding && h !in items
        ensures h in Fresh(items, responding, k)
      {
        if h.n == k + 1 {
          assert h == Slot(k);
          assert h in head;
        } else {
          assert h in rest;
        }
      }
    }
  }

  /** A handle listed before slot `k` makes no difference to the later scan. */
  lemma {:induction false} FreshIgnoresEarlier(items: seq<Handle>, x: Handle, responding: set<Handle>, k: nat)
    requires k <= SlotCount && x.n <= k
    ensures Fresh(items + [x], responding, k) == Fresh(items, responding, k)
    decreases SlotCount - k
  {
    if k < SlotCount {
      assert Slot(k) in items + [x] <==> Slot(k) in items by {
        InAppend(items, x, Slot(k));
        assert Slot(k) != x;
      }
      FreshIgnoresEarlier(items, x, responding, k + 1);
      FreshSameHead(items + [x], items, responding, k);
    }
  }

  lemma InAppend(a: seq<Handle>, x: Handle, h: Handle)
    ensures h in a + [x] <==> h in a || h == x
  {
    assert (a + [x])[|a|] == x;
    if h in a {
      var i :| 0 <= i < |a| && a[i] == h;
      assert (a + [x])[i] == h;
    }
  }

  /** Two lists that agree on slot `k` and on the scan after it agree on the
      scan from `k`. */
  lemma FreshSameHead(a: seq<Handle>, b: seq<Handle>, responding: set<Handle>, k: nat)
    requires k < SlotCount
    requires Slot(k) in a <==> Slot(k) in b
    requires Fresh(a, responding, k + 1) == Fresh(b, responding, k + 1)
    ensures Fresh(a, responding, k) == Fresh(b, responding, k)
  {
  }

  /** The first loop appends exactly `Fresh`. */
  lemma {:induction false} AddRespondingAppendsFresh(items: seq<Handle>, responding: set<Handle>, k: nat)
    requires k <= SlotCount
    ensures AddResponding(items, responding, k) == items + Fresh(items, responding, k)
    decreases SlotCount - k
  {
    if k == SlotCount {
      assert items + [] == items;
    } else if Slot(k) in responding && Slot(k) !in items {
      AddRespondingAppendsFresh(items + [Slot(k)], responding, k + 1);
      FreshIgnoresEarlier(items, Slot(k), responding, k + 1);
      AppendStep(items, responding, k);
    } else {
      AddRespondingAppendsFresh(items, responding, k + 1);
      SkipStep(items, responding, k);
    }
  }

  /** The step of the scan that passes over slot `k`. */
  lemma SkipStep(items: seq<Handle>, responding: set<Handle>, k: nat)
    requires k < SlotCount && !(Slot(k) in responding && Slot(k) !in items)
    requires AddResponding(items, responding, k + 1) == items + Fresh(items, responding, k + 1)
    ensures AddResponding(items, responding, k) == items + Fresh(items, responding, k)
  {
    assert Fresh(items, responding, k) == [] + Fresh(items, responding, k + 1);
  }

  /** The step of the scan that appends slot `k`. */
  lemma AppendStep(items: seq<Handle>, responding: set<Handle>, k: nat)
    requires k < SlotCount && Slot(k) in responding && Slot(k) !in items
    requires AddResponding(items + [Slot(k)], responding, k + 1)
             == (items + [Slot(k)]) + Fresh(items, responding, k + 1)
    ensures AddResponding(items, responding, k) == items + Fresh(items, responding, k)
  {
    var h := Slot(k);
    var rest := Fresh(items, responding, k + 1);
    AddRespondingUnfold(items, responding, k);
    FreshUnfold(items, responding, k);
    ConsAssociative(items, h, rest);
  }

  /** One step of the scan over slot `k` when it is appended. */
  lemma AddRespondingUnfold(items: seq<Handle>, responding: set<Handle>, k: nat)
    requires k < SlotCount && Slot(k) in responding && Slot(k) !in items
    ensures AddResponding(items, responding, k) == AddResponding(items + [Slot(k)], responding, k + 1)
  {
  }

  /** One step of `Fresh` over slot `k` when it is new. */
  lemma FreshUnfold(items: seq<Handle>, responding: set<Handle>, k: nat)
    requires k < SlotCount && Slot(k) in responding && Slot(k) !in items
    ensures Fresh(items, responding, k) == [Slot(k)] + Fresh(items, responding, k + 1)
  {
  }

  lemma ConsAssociative(a: seq<Handle>, h: Handle, b: seq<Handle>)
    ensures (a + [h]) + b == a + ([h] + b)
  {
  }

  /** The second loop of `LoadAvailableDevices`: entries that did not answer
      are removed, the others keep their order. */
  function KeepPolled(items: seq<Handle>, current: set<Handle>): (r: seq<Handle>)
    ensures forall h :: h in r <==> h in items && h in current
    ensures |r| <= |items|
    ensures NoDuplicates(items) ==> NoDuplicates(r)
    decreases |items|
  {
    if items == [] then []
    else
      var rest := KeepPolled(items[1..], current);
      assert forall h :: h in items[1..] ==> h in items;
      if items[0] in current then
        assert NoDuplicates(items) ==> items[0] !in items[1..];
        [items[0]] + rest
      else rest
  }

  /** `LoadAvailableDevices` on the device list. */
  function Reconcile(items: seq<Handle>, responding: set<Handle>): (r: seq<Handle>)
    ensures forall h :: h in r <==> IsSlot(h) && h in responding
    ensures NoDuplicates(items) ==> NoDuplicates(r)
  {
    ReconcileMembers(items, responding);
    ReconcileNoDuplicates(items, responding);
    KeepPolled(AddResponding(items, responding, 0), Polled(responding))
  }

  /** Order after a refresh: the entries that still answer keep their
      relative order at the front; after them come the newly answering slots
      in ascending order, none of which was listed before. */
  lemma ReconcileOrder(items: seq<Handle>, responding: set<Handle>)
    ensures
      var r := Reconcile(items, responding);
      var survivors := KeepPolled(items, Polled(responding));
      && |survivors| <= |r| && r[..|survivors|] == survivors
      && (forall i :: |survivors| <= i < |r| ==> r[i] !in items)
      && (forall i, j :: |survivors| <= i < j < |r| ==> r[i].n < r[j].n)
  {
    ReconcileSplit(items, responding);
    ConcatShape(KeepPolled(items, Polled(responding)), KeepPolled(Fresh(items, responding, 0), Polled(responding)), items);
  }

  lemma ConcatShape(survivors: seq<Handle>, arrivals: seq<Handle>, items: seq<Handle>)
    requires forall i :: 0 <= i < |arrivals| ==> arrivals[i] !in items
    requires forall i, j :: 0 <= i < j < |arrivals| ==> arrivals[i].n < arrivals[j].n
    ensures
      var r := survivors + arrivals;
      && r[..|survivors|] == survivors
      && (forall i :: |survivors| <= i < |r| ==> r[i] !in items)
      && (forall i, j :: |survivors| <= i < j < |r| ==> r[i].n < r[j].n)
  {
    var r := survivors + arrivals;
    assert forall i :: |survivors| <= i < |r| ==> r[i] == arrivals[i - |survivors|];
  }

  /** The list after both loops: the surviving old entries, then the new
      responders that survive, in slot order and none of them listed before. */
  lemma ReconcileSplit(items: seq<Handle>, responding: set<Handle>)
    ensures KeepPolled(AddResponding(items, responding, 0), Polled(responding))
         == KeepPolled(items, Polled(responding)) + KeepPolled(Fresh(items, responding, 0), Polled(responding))
    ensures
      var arrivals := KeepPolled(Fresh(items, responding, 0), Polled(responding));
      && (forall i :: 0 <= i < |arrivals| ==> arrivals[i] !in items)
      && (forall i, j :: 0 <= i < j < |arrivals| ==> arrivals[i].n < arrivals[j].n)
  {
    var newcomers := Fresh(items, responding, 0);
    FreshProperties(items, responding, 0);
    AddRespondingAppendsFresh(items, responding, 0);
    KeepPolledAppend(items, newcomers, Polled(responding));
    KeepPolledAllIn(newcomers, Polled(responding), items);
  }

  /** The reconciled list holds exactly the responding slots. */
  lemma ReconcileMembers(items: seq<Handle>, responding: set<Handle>)
    ensures forall h :: h in KeepPolled(AddResponding(items, responding, 0), Polled(responding))
                        <==> IsSlot(h) && h in responding
  {
    var newcomers := Fresh(items, responding, 0);
    FreshProperties(items, responding, 0);
    AddRespondingAppendsFresh(items, responding, 0);
    assert forall h :: h in items + newcomers <==> h in items || h in newcomers;
  }

  /** Reconciling a list without duplicates gives a list without duplicates. */
  lemma ReconcileNoDuplicates(items: seq<Handle>, responding: set<Handle>)
    ensures NoDuplicates(items) ==> NoDuplicates(KeepPolled(AddResponding(items, responding, 0), Polled(responding)))
  {
    if NoDuplicates(items) {
      var newcomers := Fresh(items, responding, 0);
      FreshProperties(items, responding, 0);
      AddRespondingAppendsFresh(items, responding, 0);
      AppendNoDuplicates(items, newcomers);
    }
  }

  /** Appending an ascending run of handles not yet listed keeps a list free
      of duplicates. */
  lemma AppendNoDuplicates(a: seq<Handle>, b: seq<Handle>)
    requires NoDuplicates(a)
    requires forall i, j :: 0 <= i < j < |b| ==> b[i].n < b[j].n
    requires forall x :: x in b ==> x !in a
    ensures NoDuplicates(a + b)
  {
    forall i, j | 0 <= i < j < |a + b|
      ensures (a + b)[i] != (a + b)[j]
    {
      if j < |a| {
        assert (a + b)[i] == a[i] && (a + b)[j] == a[j];
      } else if i < |a| {
        assert (a + b)[j] == b[j - |a|];
        assert (a + b)[j] in b;
        assert (a + b)[i] in a;
      } else {
        assert (a + b)[i] == b[i - |a|] && (a + b)[j] == b[j - |a|];
      }
    }
  }

  lemma {:induction false} KeepPolledAppend(a: seq<Handle>, b: seq<Handle>, current: set<Handle>)
    ensures KeepPolled(a + b, current) == KeepPolled(a, current) + KeepPolled(b, current)
    decreases |a|
  {
    if a == [] {
      assert a + b == b;
    } else {
      assert (a + b)[0] == a[0];
      assert (a + b)[1..] == a[1..] + b;
      KeepPolledAppend(a[1..], b, current);
    }
  }

  /** Filtering an ascending run of handles outside `items` keeps it an
      ascending run outside `items`. */
  lemma {:induction false} KeepPolledAllIn(b: seq<Handle>, current: set<Handle>, items: seq<Handle>)
    requires forall i :: 0 <= i < |b| ==> b[i] !in items
    requires forall i, j :: 0 <= i < j < |b| ==> b[i].n < b[j].n
    ensures forall i :: 0 <= i < |KeepPolled(b, current)| ==> KeepPolled(b, current)[i] !in items
    ensures forall i, j :: 0 <= i < j < |KeepPolled(b, current)| ==>
      KeepPolled(b, current)[i].n < KeepPolled(b, current)[j].n
    decreases |b|
  {
    if b != [] {
      KeepPolledAllIn(b[1..], current, items);
      var rest := KeepPolled(b[1..], current);
      forall x | x in rest
        ensures b[0].n < x.n
      {
        assert x in b[1..];
        var j :| 0 <= j < |b[1..]| && b[1..][j] == x;
        assert b[j + 1] == x;
      }
    }
  }

  /** Reconciling twice with the same answers changes nothing more. */
  lemma ReconcileIdempotent(items: seq<Handle>, responding: set<Handle>)
    ensures Reconcile(Reconcile(items, responding), responding) == Reconcile(items, responding)
  {
    var r := Reconcile(items, responding);
    AddRespondingNothingNew(r, responding, 0);
    KeepPolledKeepsAll(r, Polled(responding));
  }

  lemma {:induction false} AddRespondingNothingNew(items: seq<Handle>, responding: set<Handle>, k: nat)
    requires k <= SlotCount
    requires forall h :: h in responding && IsSlot(h) && k < h.n ==> h in items
    ensures AddResponding(items, responding, k) == items
    decreases SlotCount - k
  {
    if k < SlotCount {
      AddRespondingNothingNew(items, responding, k + 1);
    }
  }

  lemma {:induction false} KeepPolledKeepsAll(items: seq<Handle>, current: set<Handle>)
    requires forall h :: h in items ==> h in current
    ensures KeepPolled(items, current) == items
    decreases |items|
  {
    if items != [] {
      var rest := items[1..];
      forall h | h in rest
        ensures h in current
      {
        assert h in items;
      }
      KeepPolledKeepsAll(rest, current);
      assert items[0] in items;
      KeepPolledCons(items, current);
      assert [items[0]] + rest == items;
    }
  }

  /** One entry is kept exactly when it answered; with `KeepPolledAppend`
      this pins `KeepPolled` down as the order-keeping filter. */
  lemma KeepPolledSingle(h: Handle, current: set<Handle>)
    ensures KeepPolled([h], current) == (if h in current then [h] else [])
  {
    assert [h][1..] == [];
  }

  /** One unfolding of `KeepPolled` on a kept head. */
  lemma KeepPolledCons(items: seq<Handle>, current: set<Handle>)
    requires items != [] && items[0] in current
    ensures KeepPolled(items, current) == [items[0]] + KeepPolled(items[1..], current)
  {
  }

  /** The selection after a refresh: the selected item survives if it is
      still listed (a removed selection is cleared), and an empty selection
      falls on the first entry when the list is not empty. */
  function RefreshSelection(devices: seq<Handle>, previous: Option<Handle>): (r: Option<Handle>)
    ensures r.Some? ==> r.value in devices
    ensures |devices| > 0 ==> r.Some?
    ensures previous.Some? && previous.value in devices ==> r == previous
    ensures (previous.None? || previous.value !in devices) && |devices| > 0 ==> r == Some(devices[0])
  {
    if previous.Some? && previous.value in devices then previous
    else if |devices| > 0 then Some(devices[0])
    else None
  }

  /** `LoadAvailableDevices` on the whole state; `responding` is the set of
      handles whose `GetValue` answered OK on this poll. */
  function LoadAvailableDevices(s: State, responding: set<Handle>): (r: State)
    ensures r.devices == Reconcile(s.devices, responding)
    ensures NoDuplicates(s.devices) ==> NoDuplicates(r.devices)
    ensures forall h :: h in r.devices <==> IsSlot(h) && h in responding
    ensures r.selected.Some? ==> r.selected.value in r.devices
    ensures |r.devices| > 0 ==> r.selected.Some?
    ensures s.selected.Some? && s.selected.value in r.devices ==> r.selected == s.selected
    ensures (s.selected.None? || s.selected.value !in r.devices) && |r.devices| > 0 ==> r.selected == Some(r.devices[0])
    ensures r.selectedCanHandle == s.selectedCanHandle
    ensures r.activeDeviceForms == s.activeDeviceForms && r.tokens == s.tokens
  {
    var devices := Reconcile(s.devices, responding);
    s.(devices := devices, selected := RefreshSelection(devices, s.selected))
  }

  /** Tokens are issued from the counter `next`: the current token, every
      monitor's token and every cancelled token were issued before it. */
  predicate TokensFresh(t: Tokens)
  {
    && (t.current.Some? ==> t.current.value < t.next)
    && (forall h :: h in t.monitor ==> t.monitor[h] < t.next)
    && (forall c :: c in t.cancelled ==> c < t.next)
  }

  datatype StartOutcome = NotSelected | InitFailed(handle: Handle) | Started(handle: Handle)

  datatype StartResult = StartResult(state: State, outcome: StartOutcome)

  /** `StartButton_Click` with the baud-rate selection `baud`;
      `initializeOk` is the status `Initialize` returns. On success a new
      cancellation source replaces the field, the monitor of the handle polls
      it, and the handle becomes a key of `activeDeviceForms`. */
  function Start(s: State, baud: Option<Baud>, initializeOk: bool): (r: StartResult)
    ensures s.selected.None? || baud.None? ==> r == StartResult(s, NotSelected)
    ensures r.outcome.Started? <==> s.selected.Some? && baud.Some? && initializeOk
    ensures r.outcome.InitFailed? <==> s.selected.Some? && baud.Some? && !initializeOk
    ensures r.outcome.InitFailed? || r.outcome.Started? ==>
      && s.selected.Some? && r.outcome.handle == s.selected.value
      && r.state.selectedCanHandle == s.selected
      && r.state.devices == s.devices && r.state.selected == s.selected
    ensures r.outcome.InitFailed? ==>
      r.state.activeDeviceForms == s.activeDeviceForms && r.state.tokens == s.tokens
    ensures r.outcome.Started? ==>
      && r.state.activeDeviceForms == s.activeDeviceForms + {r.outcome.handle}
      && r.state.tokens.current == Some(s.tokens.next)
      && r.state.tokens.monitor == s.tokens.monitor[r.outcome.handle := s.tokens.next]
      && r.state.tokens.cancelled == s.tokens.cancelled
      && r.state.tokens.next == s.tokens.next + 1
    ensures TokensFresh(s.tokens) ==> TokensFresh(r.state.tokens)
    ensures TokensFresh(s.tokens) && r.outcome.Started? ==>
      r.state.tokens.monitor[r.outcome.handle] !in r.state.tokens.cancelled
  {
    if s.selected.None? || baud.None? then StartResult(s, NotSelected)
    else
      var h := s.selected.value;
      var s1 := s.(selectedCanHandle := Some(h));
      if !initializeOk then StartResult(s1, InitFailed(h))
      else
        var t := s.tokens;
        var tokens := Tokens(Some(t.next), t.monitor[h := t.next], t.cancelled, t.next + 1);
        StartResult(s1.(activeDeviceForms := s.activeDeviceForms + {h}, tokens := tokens), Started(h))
  }

  /** The closing handler attached in `StartDeviceMonitoring`: when the
      form's own token is not yet cancelled, it cancels the source held in
      the `cancellationTokenSource` field, which is the latest one. */
  function CloseForm(t: Tokens, h: Handle): (r: Tokens)
    ensures r.current == t.current && r.monitor == t.monitor && r.next == t.next
    ensures h in t.monitor && t.monitor[h] !in t.cancelled && t.current.Some? ==>
      r.cancelled == t.cancelled + {t.current.value}
    ensures !(h in t.monitor && t.monitor[h] !in t.cancelled && t.current.Some?) ==> r == t
    ensures TokensFresh(t) ==> TokensFresh(r)
  {
    if h in t.monitor && t.monitor[h] !in t.cancelled && t.current.Some?
    then t.(cancelled := t.cancelled + {t.current.value})
    else t
  }

  /** The closing handler as evidently intended: cancel the token the
      form's own monitor polls. */
  function CloseFormIntended(t: Tokens, h: Handle): (r: Tokens)
    ensures r.current == t.current && r.monitor == t.monitor && r.next == t.next
    ensures h in t.monitor ==> t.monitor[h] in r.cancelled
    ensures h in t.monitor ==> r.cancelled == t.cancelled + {t.monitor[h]}
    ensures forall g :: h in t.monitor && g in t.monitor && t.monitor[g] != t.monitor[h] ==>
      (t.monitor[g] in r.cancelled <==> t.monitor[g] in t.cancelled)
    ensures h !in t.monitor ==> r == t
    ensures TokensFresh(t) ==> TokensFresh(r)
  {
    if h in t.monitor then t.(cancelled := t.cancelled + {t.monitor[h]}) else t
  }

  datatype StopOutcome = NothingSelected | UninitFailed(handle: Handle) | Uninitialized(handle: Handle)

  /** What `StopButton_Click` does: the new state, the handles passed to
      `Uninitialize` in call order, and the outcome reported. */
  datatype StopResult = StopResult(state: State, uninitializeCalls: seq<Handle>, outcome: StopOutcome)

  /** `StopButton_Click` with the attached closing handler `handler`. If the
      selected handle has a device window, closing it runs two closing
      handlers, each calling `Uninitialize` (the window's own and the one
      attached at start, which also cancels a token), and the handle leaves
      `activeDeviceForms`; then `Uninitialize` is called once more and its
      status `uninitializeOk` is reported. */
  function StopClosing(s: State, uninitializeOk: bool, handler: (Tokens, Handle) -> Tokens): (r: StopResult)
    ensures s.selected.None? ==> r == StopResult(s, [], NothingSelected)
    ensures s.selected.Some? ==>
      var h := s.selected.value;
      && r.state.activeDeviceForms == s.activeDeviceForms - {h}
      && r.state.devices == s.devices && r.state.selected == s.selected
      && r.state.selectedCanHandle == s.selectedCanHandle
      && (h in s.activeDeviceForms ==> r.uninitializeCalls == [h, h, h] && r.state.tokens == handler(s.tokens, h))
      && (h !in s.activeDeviceForms ==> r.uninitializeCalls == [h] && r.state.tokens == s.tokens)
      && r.outcome == (if uninitializeOk then Uninitialized(h) else UninitFailed(h))
  {
    if s.selected.None? then StopResult(s, [], NothingSelected)
    else
      var h := s.selected.value;
      var closed :=
        if h in s.activeDeviceForms
        then s.(activeDeviceForms := s.activeDeviceForms - {h}, tokens := handler(s.tokens, h))
        else s;
      var calls := if h in s.activeDeviceForms then [h, h, h] else [h];
      StopResult(closed, calls, if uninitializeOk then Uninitialized(h) else UninitFailed(h))
  }

  /** `StopButton_Click` as written: the window's attached handler is
      `CloseForm`, which cancels the latest source. */
  function Stop(s: State, uninitializeOk: bool): (r: StopResult)
    ensures s.selected.None? ==> r == StopResult(s, [], NothingSelected)
    ensures s.selected.Some? ==>
      var h := s.selected.value;
      && r.state.activeDeviceForms == s.activeDeviceForms - {h}
      && r.state.devices == s.devices && r.state.selected == s.selected
      && r.state.selectedCanHandle == s.selectedCanHandle
      && (h in s.activeDeviceForms ==> r.uninitializeCalls == [h, h, h] && r.state.tokens == CloseForm(s.tokens, h))
      && (h !in s.activeDeviceForms ==> r.uninitializeCalls == [h] && r.state.tokens == s.tokens)
      && r.outcome == (if uninitializeOk then Uninitialized(h) else UninitFailed(h))
    ensures TokensFresh(s.tokens) ==> TokensFresh(r.state.tokens)
  {
    StopClosing(s, uninitializeOk, CloseForm)
  }

  /** `StopButton_Click` with the corrected handler `CloseFormIntended`. */
  function StopIntended(s: State, uninitializeOk: bool): (r: StopResult)
    ensures s.selected.None? ==> r == StopResult(s, [], NothingSelected)
    ensures s.selected.Some? ==>
      var h := s.selected.value;
      && r.state.activeDeviceForms == s.activeDeviceForms - {h}
      && r.state.devices == s.devices && r.state.selected == s.selected
      && r.state.selectedCanHandle == s.selectedCanHandle
      && (h in s.activeDeviceForms ==> r.uninitializeCalls == [h, h, h] && r.state.tokens == CloseFormIntended(s.tokens, h))
      && (h !in s.activeDeviceForms ==> r.uninitializeCalls == [h] && r.state.tokens == s.tokens)
      && r.outcome == (if uninitializeOk then Uninitialized(h) else UninitFailed(h))
    ensures TokensFresh(s.tokens) ==> TokensFresh(r.state.tokens)
    ensures s.selected.Some? && s.selected.value in s.activeDeviceForms && s.selected.value in s.tokens.monitor ==>
      s.tokens.monitor[s.selected.value] in r.state.tokens.cancelled
  {
    StopClosing(s, uninitializeOk, CloseFormIntended)
  }

  /** `MainForm_FormClosing`: one `Uninitialize` per key of
      `activeDeviceForms` (dictionary order is not modelled). */
  function Shutdown(s: State): (calls: set<Handle>)
    ensures forall h :: h in calls <==> h in s.activeDeviceForms
  {
    s.activeDeviceForms
  }

  /** A started handle is uninitialised at shutdown until it is stopped. */
  lemma StartedHandleReleasedAtShutdown(s: State, baud: Option<Baud>, uninitializeOk: bool)
    requires Start(s, baud, true).outcome.Started?
    ensures Start(s, baud, true).outcome.handle in Shutdown(Start(s, baud, true).state)
    ensures Start(s, baud, true).outcome.handle !in Shutdown(Stop(Start(s, baud, true).state, uninitializeOk).state)
  {
  }

  /** The code as written: with two started channels, stopping the first
      cancels the second channel's monitor and leaves the first one's
      monitor polling a channel that has been uninitialised. */
  lemma CloseFormCancelsWrongMonitor()
    ensures
      var a := UsbBus(1);
      var b := UsbBus(2);
      var t := Tokens(Some(1), map[a := 0, b := 1], {}, 2);
      var r := CloseForm(t, a);
      r.monitor[a] !in r.cancelled && r.monitor[b] in r.cancelled
  {
  }

  /** Starting two handles one after the other and stopping the first: as
      written, the second channel's monitor is cancelled and the first one's
      keeps polling an uninitialised channel; with the corrected handler only
      the first channel's monitor is cancelled. */
  lemma StartStartStopScenario(baud: Baud, uninitializeOk: bool)
    ensures
      var a := UsbBus(1);
      var b := UsbBus(2);
      var s0 := State([a, b], Some(a), None, {}, Tokens(None, map[], {}, 0));
      var s1 := Start(s0, Some(baud), true).state;
      var s2 := Start(s1.(selected := Some(b)), Some(baud), true).state;
      var asWritten := Stop(s2.(selected := Some(a)), uninitializeOk).state;
      var intended := StopIntended(s2.(selected := Some(a)), uninitializeOk).state;
      && asWritten.tokens.monitor[a] !in asWritten.tokens.cancelled
      && asWritten.tokens.monitor[b] in asWritten.tokens.cancelled
      && intended.tokens.monitor[a] in intended.tokens.cancelled
      && intended.tokens.monitor[b] !in intended.tokens.cancelled
  {
  }

  /** Starting a handle that is already started replaces its monitor token
      without cancelling the old one: the old monitor keeps polling and no
      later stop of that handle reaches it. */
  lemma RestartOrphansMonitor(s: State, baud: Baud)
    requires TokensFresh(s.tokens)
    requires s.selected.Some? && s.selected.value in s.tokens.monitor
    ensures
      var h := s.selected.value;
      var previous := s.tokens.monitor[h];
      var r := Start(s, Some(baud), true).state;
      && r.tokens.monitor[h] != previous
      && (previous in r.tokens.cancelled <==> previous in s.tokens.cancelled)
      && (r.tokens.current.Some? && r.tokens.current.value != previous)
  {
  }

  /** The intended handler stops exactly the form's own monitor. */
  lemma CloseFormIntendedCancelsOwnMonitor()
    ensures
      var a := UsbBus(1);
      var b := UsbBus(2);
      var t := Tokens(Some(1), map[a := 0, b := 1], {}, 2);
      var r := CloseFormIntended(t, a);
      r.monitor[a] in r.cancelled && r.monitor[b] !in r.cancelled
  {
  }
}
