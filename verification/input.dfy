/**
 * The event-loop side of minui/events.c: waiting for readiness, dispatching
 * callbacks, reading one event with key remapping applied, and reporting the
 * keys already held down.
 */
module EventInput {
  import opened Options
  import opened InputCodes
  import opened RemapTable
  import opened Device
  import opened FdRegistry

  /** What `poll` reports: its return value and the revents of every slot. */
  datatype PollResult = PollResult(ready: int, revents: seq<bv16>)

  /**
   * `ev_wait`: -1 on error or timeout, 0 when some descriptor is ready. The
   * kernel writes every slot's `revents` back, whatever `poll` returns.
   */
  function Wait(reg: Registry, poll: PollResult): (o: Outcome)
    requires |poll.revents| == |reg.entries|
    ensures o.status == 0 || o.status == -1
    ensures o.status == -1 <==> poll.ready <= 0
    ensures o.reg.devCount == reg.devCount && o.reg.miscCount == reg.miscCount
    ensures |o.reg.entries| == |reg.entries|
    ensures forall n :: 0 <= n < |reg.entries| ==> o.reg.entries[n] == reg.entries[n].(revents := poll.revents[n])
  {
    var entries := seq(|reg.entries|, n requires 0 <= n < |reg.entries| => reg.entries[n].(revents := poll.revents[n]));
    Outcome(if poll.ready <= 0 then -1 else 0, reg.(entries := entries))
  }

  function CountNonZero(revents: seq<bv16>): (c: nat)
    ensures c <= |revents|
  {
    if |revents| == 0 then 0 else (if revents[0] != 0 then 1 else 0) + CountNonZero(revents[1..])
  }

  /** The kernel's side of `poll`: the number of slots with events, or an error that reports none. */
  predicate KernelConsistent(poll: PollResult) {
    poll.ready == CountNonZero(poll.revents) || (poll.ready == -1 && CountNonZero(poll.revents) == 0)
  }

  lemma {:induction false} CountNonZeroPositive(revents: seq<bv16>)
    ensures CountNonZero(revents) > 0 <==> exists n :: 0 <= n < |revents| && revents[n] != 0
  {
    if |revents| > 0 {
      CountNonZeroPositive(revents[1..]);
      if exists n :: 0 <= n < |revents| && revents[n] != 0 {
        var n :| 0 <= n < |revents| && revents[n] != 0;
        if n > 0 {
          assert revents[1..][n - 1] != 0;
        }
      }
      if exists n :: 0 <= n < |revents[1..]| && revents[1..][n] != 0 {
        var n :| 0 <= n < |revents[1..]| && revents[1..][n] != 0;
        assert revents[n + 1] != 0;
      }
    }
  }

  /**
   * When the kernel is consistent, `ev_wait` succeeds exactly when some slot
   * has events, and then those events are what the registry holds.
   */
  lemma WaitSucceedsIffReady(reg: Registry, poll: PollResult)
    requires |poll.revents| == |reg.entries| && KernelConsistent(poll)
    ensures Wait(reg, poll).status == 0 <==> exists n :: 0 <= n < |poll.revents| && poll.revents[n] != 0
    ensures Wait(reg, poll).status == -1 ==> forall n :: 0 <= n < |reg.entries| ==> Wait(reg, poll).reg.entries[n].revents == 0
  {
    CountNonZeroPositive(poll.revents);
  }

  /** `ev_wait` keeps the registry well formed. */
  lemma WaitKeepsValid(reg: Registry, poll: PollResult)
    requires Valid(reg) && |poll.revents| == |reg.entries|
    ensures Valid(Wait(reg, poll).reg)
  {
    var o := Wait(reg, poll);
    assert forall n :: 0 <= n < |reg.entries| ==> o.reg.entries[n].events == reg.entries[n].events;
    assert forall n :: 0 <= n < |reg.entries| ==> o.reg.entries[n].table == reg.entries[n].table;
  }

  /** One callback invocation made by `ev_dispatch`. */
  datatype Invocation = Invocation(handler: nat, fd: int, revents: bv16, data: nat)

  /** A slot whose callback `ev_dispatch` calls: it has one, and a requested event occurred. */
  predicate Fires(e: Entry) {
    e.cb.Handler? && e.revents & e.events != 0
  }

  function InvocationOf(e: Entry): Invocation
    requires e.cb.Handler?
  {
    Invocation(e.cb.id, e.fd, e.revents, e.data)
  }

  /** The indices of the slots that fire, in increasing order. */
  function Firing(es: seq<Entry>): (ix: seq<nat>)
    ensures forall k :: 0 <= k < |ix| ==> ix[k] < |es| && Fires(es[ix[k]])
    ensures forall j, k :: 0 <= j < k < |ix| ==> ix[j] < ix[k]
    ensures forall n :: 0 <= n < |es| && Fires(es[n]) ==> n in ix
  {
    if |es| == 0 then []
    else
      var last := |es| - 1;
      var front := Firing(es[..last]);
      assert forall k :: 0 <= k < |front| ==> es[..last][front[k]] == es[front[k]];
      assert forall n :: 0 <= n < last ==> es[..last][n] == es[n];
      front + (if Fires(es[last]) then [last] else [])
  }

  /** `ev_dispatch`: calls the callback of every slot that fires, in slot order. */
  method Dispatch(reg: Registry) returns (calls: seq<Invocation>)
    ensures |calls| == |Firing(reg.entries)|
    ensures forall k :: 0 <= k < |calls| ==> calls[k] == InvocationOf(reg.entries[Firing(reg.entries)[k]])
  {
    var es := reg.entries;
    calls := [];
    var n := 0;
    while n < |es|
      invariant n <= |es|
      invariant |calls| == |Firing(es[..n])|
      invariant forall k :: 0 <= k < |calls| ==> calls[k] == InvocationOf(es[Firing(es[..n])[k]])
    {
      assert es[..n + 1][..n] == es[..n];
      if Fires(es[n]) {
        calls := calls + [InvocationOf(es[n])];
      }
      n := n + 1;
    }
    assert es[..n] == es;
  }

  /** The first slot registered for `fd`. */
  function FirstWithFd(es: seq<Entry>, fd: int, from: nat): (r: Option<nat>)
    ensures r.Some? ==> from <= r.value < |es| && es[r.value].fd == fd
    ensures r.Some? ==> forall m :: from <= m < r.value ==> es[m].fd != fd
    ensures r.None? ==> forall m :: from <= m < |es| ==> es[m].fd != fd
    decreases |es| - from
  {
    if from >= |es| then None
    else if es[from].fd == fd then Some(from)
    else FirstWithFd(es, fd, from + 1)
  }

  /** The code a key event is remapped to: from the table of the first slot for `fd`, for key codes up to KEY_MAX only. */
  function OverrideFor(es: seq<Entry>, fd: int, ev: InputEvent): (r: Option<int>)
    ensures r.Some? ==> ev.evType == EV_KEY && ev.code <= KEY_MAX
    ensures r.Some? ==> exists n :: 0 <= n < |es| && es[n].fd == fd && es[n].table.Some?
                          && (forall m :: 0 <= m < n ==> es[m].fd != fd)
                          && RemapLookup(es[n].table.value, ev.code) == r
  {
    if ev.evType != EV_KEY || ev.code > KEY_MAX then None
    else match FirstWithFd(es, fd, 0)
      case None => None
      case Some(n) =>
        match es[n].table
        case None => None
        case Some(t) => RemapLookup(t, ev.code)
  }

  /**
   * `_check_ev_remap` as intended: a key event from a descriptor whose table
   * maps its code gets the override, truncated to the 16-bit code field; every
   * other event is left alone.
   */
  function CheckRemap(es: seq<Entry>, fd: int, ev: InputEvent): (r: InputEvent)
    ensures r.evType == ev.evType && r.value == ev.value
    ensures r.code != ev.code ==> OverrideFor(es, fd, ev).Some?
    ensures OverrideFor(es, fd, ev).Some? ==> r.code == OverrideFor(es, fd, ev).value % 0x1_0000
  {
    match OverrideFor(es, fd, ev)
    case None => ev
    case Some(v) => ev.(code := v % 0x1_0000)
  }

  /**
   * `_check_ev_remap` as written: the override is compared with the code
   * instead of being assigned to it, so the event never changes.
   */
  function CheckRemapAsWritten(es: seq<Entry>, fd: int, ev: InputEvent): (r: InputEvent)
    ensures r == ev
  {
    ev
  }

  /** Motion and other non-key events pass through untouched. */
  lemma NonKeyEventsUnchanged(es: seq<Entry>, fd: int, ev: InputEvent)
    requires ev.evType != EV_KEY
    ensures CheckRemap(es, fd, ev) == ev
  {
  }

  /** Slots registered after the first one for `fd` do not affect remapping. */
  lemma LaterSlotsIgnored(es: seq<Entry>, extra: seq<Entry>, fd: int, ev: InputEvent)
    requires FirstWithFd(es, fd, 0).Some?
    ensures CheckRemap(es + extra, fd, ev) == CheckRemap(es, fd, ev)
  {
    FirstWithFdPrefix(es, extra, fd, 0);
  }

  lemma {:induction false} FirstWithFdPrefix(es: seq<Entry>, extra: seq<Entry>, fd: int, from: nat)
    requires FirstWithFd(es, fd, from).Some?
    ensures FirstWithFd(es + extra, fd, from) == FirstWithFd(es, fd, from)
    decreases |es| - from
  {
    assert (es + extra)[from] == es[from];
    if es[from].fd != fd {
      FirstWithFdPrefix(es, extra, fd, from + 1);
    }
  }

  /** A table that maps a code is applied to a key event carrying that code. */
  lemma RemapApplied(es: seq<Entry>, n: nat, ev: InputEvent, v: int)
    requires n < |es| && (forall m :: 0 <= m < n ==> es[m].fd != es[n].fd)
    requires ev.evType == EV_KEY && ev.code <= KEY_MAX
    requires es[n].table.Some? && RemapLookup(es[n].table.value, ev.code) == Some(v)
    ensures CheckRemap(es, es[n].fd, ev) == ev.(code := v % 0x1_0000)
  {
    var r := FirstWithFd(es, es[n].fd, 0);
    assert r == Some(n);
  }

  /** The slot of a device whose table sends code 72 to KEY_BACK. */
  function BackKeySlot(fd: int): Entry {
    Entry(fd, POLLIN, 0, Handler(0), 0, Some([RemapKey(72, KEY_BACK)]))
  }

  /**
   * With that table, the intended check turns a press of code 72 into
   * KEY_BACK; as written, the press arrives as code 72.
   */
  lemma RemapNeverAppliedAsWritten(fd: int)
    ensures CheckRemap([BackKeySlot(fd)], fd, InputEvent(EV_KEY, 72, 1)).code == KEY_BACK
    ensures CheckRemapAsWritten([BackKeySlot(fd)], fd, InputEvent(EV_KEY, 72, 1)).code == 72
  {
    var t := [RemapKey(72, KEY_BACK)];
    assert LookupFrom(t, 72, 0) == Some(0);
    RemapApplied([BackKeySlot(fd)], 0, InputEvent(EV_KEY, 72, 1), KEY_BACK);
  }

  /** What one `read` of an event record yields: a whole record, or less (or an error). */
  datatype ReadResult = Record(ev: InputEvent) | ShortRead

  datatype Received = Received(status: int, ev: Option<InputEvent>)

  /**
   * `ev_get_input`: reads one event when the descriptor is readable and the
   * read delivers a whole record, then applies the remap check.
   */
  function GetInput(reg: Registry, fd: int, revents: bv16, read: ReadResult): (r: Received)
    ensures r.status == 0 || r.status == -1
    ensures r.status == 0 <==> revents & POLLIN != 0 && read.Record?
    ensures r.status == -1 ==> r.ev.None?
    ensures r.status == 0 ==> r.ev == Some(CheckRemap(reg.entries, fd, read.ev))
  {
    if revents & POLLIN != 0 && read.Record? then Received(0, Some(CheckRemap(reg.entries, fd, read.ev)))
    else Received(-1, None)
  }

  /** One `set_key_cb(code, 1, data)` call made by `ev_sync_key_state`. */
  datatype KeyReport = KeyReport(code: int, pressed: int, data: nat)

  /** The codes from `code` to KEY_MAX that are in `keys`, in increasing order. */
  function PressedFrom(keys: set<int>, code: int): (cs: seq<int>)
    requires 0 <= code <= KEY_MAX + 1
    ensures forall k :: 0 <= k < |cs| ==> code <= cs[k] <= KEY_MAX && cs[k] in keys
    ensures forall j, k :: 0 <= j < k < |cs| ==> cs[j] < cs[k]
    ensures forall c :: code <= c <= KEY_MAX && c in keys ==> c in cs
    decreases KEY_MAX + 1 - code
  {
    if code > KEY_MAX then []
    else (if code in keys then [code] else []) + PressedFrom(keys, code + 1)
  }

  /** The reports for one device slot: none when either query fails or the device has no keys. */
  function DeviceReports(d: Device, data: nat): (rs: seq<KeyReport>)
    ensures Supports(d, EV_KEY) && d.keyBits.Some? ==> |rs| == |PressedFrom(d.keyBits.value, 0)|
    ensures Supports(d, EV_KEY) && d.keyBits.Some? ==>
              forall k :: 0 <= k < |rs| ==> rs[k] == KeyReport(PressedFrom(d.keyBits.value, 0)[k], 1, data)
    ensures !(Supports(d, EV_KEY) && d.keyBits.Some?) ==> rs == []
  {
    if !Supports(d, EV_KEY) || d.keyBits.None? then []
    else
      var cs := PressedFrom(d.keyBits.value, 0);
      seq(|cs|, k requires 0 <= k < |cs| => KeyReport(cs[k], 1, data))
  }

  /** The reports for a run of slots, slot by slot. */
  function SlotReports(es: seq<Entry>, devices: Devices, data: nat): (rs: seq<KeyReport>)
    ensures forall k :: 0 <= k < |rs| ==> rs[k].pressed == 1 && rs[k].data == data && 0 <= rs[k].code <= KEY_MAX
  {
    if |es| == 0 then []
    else SlotReports(es[..|es| - 1], devices, data) + DeviceReports(DeviceAt(devices, es[|es| - 1].fd), data)
  }

  /** A key held down on the device behind a slot. */
  predicate HeldOn(devices: Devices, e: Entry, code: int) {
    var d := DeviceAt(devices, e.fd);
    Supports(d, EV_KEY) && d.keyBits.Some? && code in d.keyBits.value
  }

  /** Every key reported is held down on one of the slots walked. */
  lemma {:induction false} ReportsAreHeldKeys(es: seq<Entry>, devices: Devices, data: nat, k: nat)
    requires k < |SlotReports(es, devices, data)|
    ensures exists i :: 0 <= i < |es| && HeldOn(devices, es[i], SlotReports(es, devices, data)[k].code)
  {
    var front := SlotReports(es[..|es| - 1], devices, data);
    if k < |front| {
      ReportsAreHeldKeys(es[..|es| - 1], devices, data, k);
      var i :| 0 <= i < |es[..|es| - 1]| && HeldOn(devices, es[..|es| - 1][i], front[k].code);
      assert es[..|es| - 1][i] == es[i];
    } else {
      var d := DeviceAt(devices, es[|es| - 1].fd);
      assert SlotReports(es, devices, data)[k] == DeviceReports(d, data)[k - |front|];
      assert HeldOn(devices, es[|es| - 1], SlotReports(es, devices, data)[k].code);
    }
  }

  /** Every key held down on one of the slots walked is reported, as a press with the cookie. */
  lemma {:induction false} HeldKeysReported(es: seq<Entry>, devices: Devices, data: nat, i: nat, code: int)
    requires i < |es| && 0 <= code <= KEY_MAX && HeldOn(devices, es[i], code)
    ensures KeyReport(code, 1, data) in SlotReports(es, devices, data)
  {
    var last := |es| - 1;
    if i == last {
      var d := DeviceAt(devices, es[last].fd);
      var cs := PressedFrom(d.keyBits.value, 0);
      var k :| 0 <= k < |cs| && cs[k] == code;
      assert DeviceReports(d, data)[k] == KeyReport(code, 1, data);
    } else {
      assert es[..last][i] == es[i];
      HeldKeysReported(es[..last], devices, data, i, code);
    }
  }

  datatype Synced = Synced(status: int, reports: seq<KeyReport>)

  /**
   * `ev_sync_key_state`: for each of the first `ev_dev_count` slots, reports
   * every key currently held down on that device, in increasing code order.
   */
  function SyncKeyState(reg: Registry, devices: Devices, data: nat): (s: Synced)
    requires Valid(reg)
    ensures s.status == 0
    ensures forall k :: 0 <= k < |s.reports| ==> s.reports[k].pressed == 1 && s.reports[k].data == data
    ensures forall k :: 0 <= k < |s.reports| ==>
              exists i :: 0 <= i < reg.devCount && HeldOn(devices, reg.entries[i], s.reports[k].code)
    ensures forall i, code :: 0 <= i < reg.devCount && 0 <= code <= KEY_MAX && HeldOn(devices, reg.entries[i], code) ==>
              KeyReport(code, 1, data) in s.reports
  {
    var es := reg.entries[..reg.devCount];
    var rs := SlotReports(es, devices, data);
    assert forall k :: 0 <= k < |rs| ==> exists i :: 0 <= i < reg.devCount && HeldOn(devices, reg.entries[i], rs[k].code) by {
      forall k | 0 <= k < |rs|
        ensures exists i :: 0 <= i < reg.devCount && HeldOn(devices, reg.entries[i], rs[k].code)
      {
        ReportsAreHeldKeys(es, devices, data, k);
        var i :| 0 <= i < |es| && HeldOn(devices, es[i], rs[k].code);
        assert es[i] == reg.entries[i];
      }
    }
    assert forall i, code :: 0 <= i < reg.devCount && 0 <= code <= KEY_MAX && HeldOn(devices, reg.entries[i], code) ==>
             KeyReport(code, 1, data) in rs by {
      forall i, code | 0 <= i < reg.devCount && 0 <= code <= KEY_MAX && HeldOn(devices, reg.entries[i], code)
        ensures KeyReport(code, 1, data) in rs
      {
        assert es[i] == reg.entries[i];
        HeldKeysReported(es, devices, data, i, code);
      }
    }
    Synced(0, rs)
  }

  /** Only the first `ev_dev_count` slots are walked: whatever follows them does not matter. */
  lemma SyncIgnoresLaterSlots(reg: Registry, other: Registry, devices: Devices, data: nat)
    requires Valid(reg) && Valid(other)
    requires other.devCount == reg.devCount && other.entries[..other.devCount] == reg.entries[..reg.devCount]
    ensures SyncKeyState(other, devices, data) == SyncKeyState(reg, devices, data)
  {
  }

  /** One slot's reports follow the previous slots' reports. */
  lemma SlotReportsSnoc(es: seq<Entry>, e: Entry, devices: Devices, data: nat)
    ensures SlotReports(es + [e], devices, data) == SlotReports(es, devices, data) + DeviceReports(DeviceAt(devices, e.fd), data)
  {
    assert (es + [e])[..|es|] == es;
  }
}
