/**
 * The descriptor registry of minui/events.c: the parallel `ev_fds` /
 * `ev_fdinfo` arrays with their counters, and the operations that fill and
 * empty them (`ev_init`, `ev_add_fd`, `ev_exit`).
 */
module FdRegistry {
  import opened Options
  import opened Seqs
  import opened Text
  import opened InputCodes
  import opened RemapTable
  import opened RemapLoad
  import opened Device
  import opened RemapFind
  import opened CmdLine

  const MAX_DEVICES: nat := 16
  const MAX_MISC_FDS: nat := 16

  /** An `ev_callback`: an opaque handler, or NULL. */
  datatype Callback = NoCallback | Handler(id: nat)

  /** One slot: the `pollfd` and the `fd_info` at the same index. */
  datatype Entry = Entry(
    fd: int,
    events: bv16,           // requested poll events
    revents: bv16,          // poll events last reported
    cb: Callback,
    data: nat,              // the opaque cookie handed back to the callback
    table: Option<Table>)   // the remap table found for the descriptor, if any

  /** Slots in use, in registration order, with the per-kind counters. */
  datatype Registry = Registry(entries: seq<Entry>, devCount: nat, miscCount: nat)

  const Empty: Registry := Registry([], 0, 0)

  /** What every operation keeps: counters agree with the slots and stay in bounds. */
  predicate Valid(r: Registry) {
    && |r.entries| == r.devCount + r.miscCount
    && r.devCount <= MAX_DEVICES
    && r.miscCount <= MAX_MISC_FDS
    && (forall n :: 0 <= n < |r.entries| ==> r.entries[n].events == POLLIN)
    && (forall n :: 0 <= n < |r.entries| ==> r.entries[n].table.Some? ==> WellFormed(r.entries[n].table.value))
  }

  /** The descriptors of a run of slots, in order. */
  function Fds(es: seq<Entry>): (fds: seq<int>)
    ensures |fds| == |es|
    ensures forall k :: 0 <= k < |es| ==> fds[k] == es[k].fd
  {
    seq(|es|, k requires 0 <= k < |es| => es[k].fd)
  }

  /**
   * What opening one /dev/input entry gives: the descriptor `openat` returns
   * and what the ioctl queries answer on it while it is open. The answers are
   * kept per entry, not per descriptor, because a descriptor closed after a
   * rejected entry is handed out again for the next one.
   */
  datatype Opened = Opened(fd: int, device: Device)

  /** The outside world `ev_init` consults. */
  datatype Host = Host(
    cmdline: Option<string>,          // the kernel command line; None when it cannot be read
    listing: Option<seq<string>>,     // the entries of /dev/input in readdir order; None when it cannot be opened
    opens: map<string, Opened>,       // what opening each entry gives; a missing name fails to open
    files: FileSystem)                // the remap files

  function Listing(host: Host): seq<string> {
    host.listing.GetOr([])
  }

  /** How `ev_init` treats one directory entry. */
  datatype Probe =
    | Skipped             // not named event*, or failed to open
    | Rejected(fd: int)   // opened, but the capability query failed or reports none of EV_KEY, EV_REL, EV_ABS
    | Accepted(fd: int, device: Device)   // opened and reports at least one of them

  /** An entry `ev_init` keeps: named event*, opened to `fd`, and reporting key, relative or absolute events. */
  predicate IsInputDevice(host: Host, name: string, fd: int) {
    && StartsWith(name, "event")
    && name in host.opens && host.opens[name].fd == fd && fd >= 0
    && var d := host.opens[name].device;
       Supports(d, EV_KEY) || Supports(d, EV_REL) || Supports(d, EV_ABS)
  }

  /**
   * An entry is skipped unless it is named event* and opens; an opened entry
   * is accepted exactly when it is an input device, and rejected otherwise.
   */
  function ProbeEntry(host: Host, name: string): (p: Probe)
    ensures p.Skipped? <==> !StartsWith(name, "event") || name !in host.opens || host.opens[name].fd < 0
    ensures !p.Skipped? ==> p.fd == host.opens[name].fd
    ensures p.Accepted? ==> p.device == host.opens[name].device
    ensures p.Accepted? <==> name in host.opens && IsInputDevice(host, name, host.opens[name].fd)
  {
    if !StartsWith(name, "event") || name !in host.opens || host.opens[name].fd < 0 then Skipped
    else
      var Opened(fd, d) := host.opens[name];
      if Supports(d, EV_KEY) || Supports(d, EV_REL) || Supports(d, EV_ABS) then Accepted(fd, d) else Rejected(fd)
  }

  /** The probe outcome of every directory entry, in listing order. */
  function Probes(host: Host): (ps: seq<Probe>)
    ensures |ps| == |Listing(host)|
    ensures forall i :: 0 <= i < |ps| ==> ps[i] == ProbeEntry(host, Listing(host)[i])
  {
    var names := Listing(host);
    seq(|names|, i requires 0 <= i < |names| => ProbeEntry(host, names[i]))
  }

  function AcceptedFd(p: Probe): Option<int> {
    if p.Accepted? then Some(p.fd) else None
  }

  function RejectedFd(p: Probe): Option<int> {
    if p.Rejected? then Some(p.fd) else None
  }

  /** The remap search `ev_init` runs for each device it registers, with the device tag of the command line. */
  function TagSearch(files: FileSystem, tag: Option<string>): (search: Device -> Option<Table>)
    ensures forall d :: search(d).Some? ==> WellFormed(search(d).value)
  {
    d => Find(files, tag, d).table
  }

  /**
   * The slot an accepted probe fills, its table searched with the answers of
   * that probe's own device; other probes fill none.
   */
  function SlotOf(search: Device -> Option<Table>, p: Probe, cb: Callback, data: nat): (e: Option<Entry>)
    ensures e.Some? <==> p.Accepted?
    ensures e.Some? ==> e.value == Entry(p.fd, POLLIN, 0, cb, data, search(p.device))
  {
    if p.Accepted? then Some(Entry(p.fd, POLLIN, 0, cb, data, search(p.device))) else None
  }

  lemma FdsConcat(a: seq<Entry>, b: seq<Entry>)
    ensures Fds(a + b) == Fds(a) + Fds(b)
  {
  }

  /** The slots `ev_init` fills for the accepted probes, in order. */
  function Slots(search: Device -> Option<Table>, ps: seq<Probe>, cb: Callback, data: nat): (es: seq<Entry>)
    requires forall d :: search(d).Some? ==> WellFormed(search(d).value)
    ensures |es| <= |ps|
    ensures forall k :: 0 <= k < |es| ==> es[k].events == POLLIN && (es[k].table.Some? ==> WellFormed(es[k].table.value))
  {
    if |ps| == 0 then []
    else (match SlotOf(search, ps[0], cb, data) case Some(e) => [e] case None => []) + Slots(search, ps[1..], cb, data)
  }

  /** The slots hold the accepted descriptors, in listing order. */
  lemma {:induction false} SlotsFds(search: Device -> Option<Table>, ps: seq<Probe>, cb: Callback, data: nat)
    requires forall d :: search(d).Some? ==> WellFormed(search(d).value)
    ensures Fds(Slots(search, ps, cb, data)) == FilterMap(AcceptedFd, ps)
  {
    if |ps| > 0 {
      var head := match SlotOf(search, ps[0], cb, data) case Some(e) => [e] case None => [];
      assert Fds(head) == match AcceptedFd(ps[0]) case Some(y) => [y] case None => [];
      SlotsFds(search, ps[1..], cb, data);
      FdsConcat(head, Slots(search, ps[1..], cb, data));
    }
  }

  /** Every slot is the one an accepted probe fills, so its table is searched with that probe's answers. */
  lemma {:induction false} SlotsFromProbes(search: Device -> Option<Table>, ps: seq<Probe>, cb: Callback, data: nat, k: nat)
    requires forall d :: search(d).Some? ==> WellFormed(search(d).value)
    requires k < |Slots(search, ps, cb, data)|
    ensures exists i :: 0 <= i < |ps| && ps[i].Accepted?
              && Slots(search, ps, cb, data)[k] == Entry(ps[i].fd, POLLIN, 0, cb, data, search(ps[i].device))
  {
    var rest := Slots(search, ps[1..], cb, data);
    var head := match SlotOf(search, ps[0], cb, data) case Some(e) => [e] case None => [];
    assert Slots(search, ps, cb, data) == head + rest;
    if k < |head| {
      assert Slots(search, ps, cb, data)[k] == Entry(ps[0].fd, POLLIN, 0, cb, data, search(ps[0].device));
    } else {
      assert Slots(search, ps, cb, data)[k] == rest[k - |head|];
      SlotsFromProbes(search, ps[1..], cb, data, k - |head|);
      var i :| 0 <= i < |ps[1..]| && ps[1..][i].Accepted?
               && rest[k - |head|] == Entry(ps[1..][i].fd, POLLIN, 0, cb, data, search(ps[1..][i].device));
      assert ps[i + 1] == ps[1..][i];
    }
  }

  /** Appending well-formed slots keeps the registry well formed when the counters agree. */
  lemma AppendKeepsValid(reg: Registry, added: seq<Entry>, r: Registry)
    requires Valid(reg) && r.entries == reg.entries + added
    requires |r.entries| == r.devCount + r.miscCount && r.devCount <= MAX_DEVICES && r.miscCount <= MAX_MISC_FDS
    requires forall k :: 0 <= k < |added| ==> added[k].events == POLLIN && (added[k].table.Some? ==> WellFormed(added[k].table.value))
    ensures Valid(r)
  {
    assert forall n :: 0 <= n < |r.entries| ==> r.entries[n] == if n < |reg.entries| then reg.entries[n] else added[n - |reg.entries|];
  }

  /**
   * `ev_init`: reads the device tag, then registers the input devices of
   * /dev/input in listing order until the device slots are full, closing the
   * descriptors it opened but rejected. `scanned` counts the directory entries
   * read; `closed` lists the descriptors closed, in order.
   */
  method Init(reg: Registry, host: Host, cb: Callback, data: nat)
    returns (status: int, r: Registry, closed: seq<int>, scanned: nat)
    requires Valid(reg) && reg.devCount < MAX_DEVICES
    ensures status == 0
    ensures Valid(r) && r.miscCount == reg.miscCount
    ensures |reg.entries| <= |r.entries| && r.entries[..|reg.entries|] == reg.entries
    ensures r.devCount == reg.devCount + (|r.entries| - |reg.entries|)
    ensures scanned <= |Listing(host)|
    ensures Fds(r.entries[|reg.entries|..]) == FilterMap(AcceptedFd, Probes(host)[..scanned])
    ensures Fds(r.entries[|reg.entries|..]) == Take(FilterMap(AcceptedFd, Probes(host)), MAX_DEVICES - reg.devCount)
    ensures closed == FilterMap(RejectedFd, Probes(host)[..scanned])
    ensures scanned < |Listing(host)| ==> r.devCount == MAX_DEVICES
    ensures 0 < scanned ==> reg.devCount + |FilterMap(AcceptedFd, Probes(host)[..scanned - 1])| < MAX_DEVICES
    ensures r.entries[|reg.entries|..] == Slots(TagSearch(host.files, DeviceTag(host.cmdline)), Probes(host)[..scanned], cb, data)
  {
    var tag := ScanDeviceTag(host.cmdline);
    var probes := Probes(host);
    var fds;
    fds, scanned := CollectUpTo(AcceptedFd, probes, MAX_DEVICES - reg.devCount);
    closed := FilterMap(RejectedFd, probes[..scanned]);
    var added := Slots(TagSearch(host.files, tag), probes[..scanned], cb, data);
    SlotsFds(TagSearch(host.files, tag), probes[..scanned], cb, data);
    r := Registry(reg.entries + added, reg.devCount + |added|, reg.miscCount);
    AppendKeepsValid(reg, added, r);
    assert r.entries[..|reg.entries|] == reg.entries;
    assert r.entries[|reg.entries|..] == added;
    status := 0;
  }

  /** Every descriptor `ev_init` may register is an input device of the listing. */
  lemma AcceptedAreInputDevices(host: Host, k: nat)
    requires k < |FilterMap(AcceptedFd, Probes(host))|
    ensures exists i :: 0 <= i < |Listing(host)| && IsInputDevice(host, Listing(host)[i], FilterMap(AcceptedFd, Probes(host))[k])
  {
    FilterMapOrigin(AcceptedFd, Probes(host), k);
  }

  /** Every descriptor `ev_init` closes was opened from an event* entry that is not an input device. */
  lemma RejectedAreNotInputDevices(host: Host, k: nat)
    requires k < |FilterMap(RejectedFd, Probes(host))|
    ensures exists i :: 0 <= i < |Listing(host)| && StartsWith(Listing(host)[i], "event")
              && Listing(host)[i] in host.opens
              && host.opens[Listing(host)[i]].fd == FilterMap(RejectedFd, Probes(host))[k]
              && !IsInputDevice(host, Listing(host)[i], FilterMap(RejectedFd, Probes(host))[k])
  {
    FilterMapOrigin(RejectedFd, Probes(host), k);
  }

  /**
   * A descriptor closed after a rejected entry may come back for the next
   * entry: each entry is judged by its own answers.
   */
  lemma DescriptorReuseExample(keyboard: Device)
    requires Supports(keyboard, EV_KEY)
    ensures var host := Host(None, Some(["event0", "event1"]),
                             map["event0" := Opened(5, Unresponsive), "event1" := Opened(5, keyboard)], map[]);
            Probes(host) == [Rejected(5), Accepted(5, keyboard)]
  {
    var host := Host(None, Some(["event0", "event1"]),
                     map["event0" := Opened(5, Unresponsive), "event1" := Opened(5, keyboard)], map[]);
    assert StartsWith("event0", "event") && StartsWith("event1", "event");
    assert ProbeEntry(host, "event0") == Rejected(5);
    assert ProbeEntry(host, "event1") == Accepted(5, keyboard);
  }

  /** The result of an operation that reports a status and leaves a registry. */
  datatype Outcome = Outcome(status: int, reg: Registry)

  /** The slot `ev_add_fd` fills: no device tag is used for the remap search. */
  function MiscEntry(files: FileSystem, devices: Devices, fd: int, cb: Callback, data: nat): Entry {
    Entry(fd, POLLIN, 0, cb, data, Find(files, None, DeviceAt(devices, fd)).table)
  }

  /**
   * `ev_add_fd`: registers one extra descriptor with its callback; refused
   * without a callback or once the sixteen extra slots are used.
   */
  function AddFd(reg: Registry, files: FileSystem, devices: Devices, fd: int, cb: Callback, data: nat): (o: Outcome)
    requires Valid(reg)
    ensures o.status == 0 || o.status == -1
    ensures o.status == -1 <==> reg.miscCount == MAX_MISC_FDS || cb.NoCallback?
    ensures o.status == -1 ==> o.reg == reg
    ensures o.status == 0 ==> o.reg.entries == reg.entries + [MiscEntry(files, devices, fd, cb, data)]
    ensures o.status == 0 ==> o.reg.devCount == reg.devCount && o.reg.miscCount == reg.miscCount + 1
    ensures Valid(o.reg)
  {
    if reg.miscCount == MAX_MISC_FDS || cb.NoCallback? then Outcome(-1, reg)
    else Outcome(0, Registry(reg.entries + [MiscEntry(files, devices, fd, cb, data)], reg.devCount, reg.miscCount + 1))
  }

  /** One `ev_add_fd` call. */
  datatype Request = Request(fd: int, cb: Callback, data: nat)

  /** The registry after a series of `ev_add_fd` calls. */
  function AddAll(reg: Registry, files: FileSystem, devices: Devices, reqs: seq<Request>): (r: Registry)
    requires Valid(reg)
    ensures Valid(r)
    decreases |reqs|
  {
    if |reqs| == 0 then reg
    else AddAll(AddFd(reg, files, devices, reqs[0].fd, reqs[0].cb, reqs[0].data).reg, files, devices, reqs[1..])
  }

  function WithCallback(reqs: seq<Request>): nat {
    if |reqs| == 0 then 0 else (if reqs[0].cb.Handler? then 1 else 0) + WithCallback(reqs[1..])
  }

  function Min(a: nat, b: nat): nat {
    if a <= b then a else b
  }

  /**
   * A series of `ev_add_fd` calls registers every request that has a callback
   * until the extra slots run out, and nothing after that.
   */
  lemma {:induction false} AddAllCapacity(reg: Registry, files: FileSystem, devices: Devices, reqs: seq<Request>)
    requires Valid(reg)
    ensures AddAll(reg, files, devices, reqs).miscCount == reg.miscCount + Min(MAX_MISC_FDS - reg.miscCount, WithCallback(reqs))
    ensures AddAll(reg, files, devices, reqs).devCount == reg.devCount
    decreases |reqs|
  {
    if |reqs| > 0 {
      AddAllCapacity(AddFd(reg, files, devices, reqs[0].fd, reqs[0].cb, reqs[0].data).reg, files, devices, reqs[1..]);
    }
  }

  /**
   * `ev_exit`: closes every registered descriptor, last slot first, releases
   * every remap table and resets the counters. `released` lists the slots
   * whose table is released, in the order they are visited.
   */
  method Exit(reg: Registry) returns (r: Registry, closed: seq<int>, released: seq<nat>)
    ensures r == Empty
    ensures |closed| == |reg.entries|
    ensures forall k :: 0 <= k < |closed| ==> closed[k] == reg.entries[|reg.entries| - 1 - k].fd
    ensures forall k :: 0 <= k < |released| ==> released[k] < |reg.entries| && reg.entries[released[k]].table.Some?
    ensures forall j, k :: 0 <= j < k < |released| ==> released[j] > released[k]
    ensures forall n :: 0 <= n < |reg.entries| && reg.entries[n].table.Some? ==> n in released
  {
    var count: nat := |reg.entries|;
    closed := [];
    released := [];
    while count > 0
      invariant count <= |reg.entries|
      invariant |closed| == |reg.entries| - count
      invariant forall k :: 0 <= k < |closed| ==> closed[k] == reg.entries[|reg.entries| - 1 - k].fd
      invariant forall k :: 0 <= k < |released| ==> count <= released[k] < |reg.entries| && reg.entries[released[k]].table.Some?
      invariant forall j, k :: 0 <= j < k < |released| ==> released[j] > released[k]
      invariant forall n :: count <= n < |reg.entries| && reg.entries[n].table.Some? ==> n in released
    {
      count := count - 1;
      if reg.entries[count].table.Some? {
        released := released + [count];
      }
      closed := closed + [reg.entries[count].fd];
    }
    r := Empty;
  }

  /**
   * The slots `ev_exit` tests for a table as written: it looks at index
   * `ev_count` before decrementing it, so it visits count, count-1, .., 1.
   */
  function ExitInspectedAsWritten(count: nat): (slots: seq<nat>)
    ensures |slots| == count
    ensures forall k :: 0 <= k < count ==> slots[k] == count - k
  {
    if count == 0 then [] else [count] + ExitInspectedAsWritten(count - 1)
  }

  /**
   * As written, `ev_exit` tests the slot just past the live ones and never the
   * first slot: a registry whose only device has a table keeps it.
   */
  lemma ExitLeaksFirstTable(reg: Registry)
    requires |reg.entries| > 0 && reg.entries[0].table.Some?
    ensures |reg.entries| in ExitInspectedAsWritten(|reg.entries|)
    ensures 0 !in ExitInspectedAsWritten(|reg.entries|)
  {
    var s := ExitInspectedAsWritten(|reg.entries|);
    assert s[0] == |reg.entries|;
  }
}
