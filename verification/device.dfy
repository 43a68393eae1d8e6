/**
 * The ioctl queries the core makes on an open input descriptor, as an oracle:
 * for each descriptor, what EVIOCGBIT, EVIOCGKEY, EVIOCGNAME and EVIOCGID
 * answer. `None` stands for a query that fails. Bitmaps are sets of bit numbers.
 */
module Device {
  import opened Options
  import opened InputCodes

  /** The vendor, product and version fields of `struct input_id`. */
  datatype Identity = Identity(vendor: u16, product: u16, version: u16)

  datatype Device = Device(
    evBits: Option<set<int>>,   // event types the device supports
    keyBits: Option<set<int>>,  // key codes currently held down
    name: Option<string>,       // device name
    id: Option<Identity>)       // bus identity

  /** What every query on a descriptor the kernel knows nothing about answers. */
  const Unresponsive: Device := Device(None, None, None, None)

  type Devices = map<int, Device>

  function DeviceAt(devices: Devices, fd: int): Device {
    if fd in devices then devices[fd] else Unresponsive
  }

  /** The name used for the file search: empty when the name query fails. */
  function NameOf(d: Device): (n: string)
    ensures d.name.None? ==> n == ""
    ensures d.name.Some? ==> n == d.name.value
  {
    d.name.GetOr("")
  }

  /** The identity used for the file search: all zero when the id query fails. */
  function IdentityOf(d: Device): (id: Identity)
    ensures d.id.None? ==> id == Identity(0, 0, 0)
    ensures d.id.Some? ==> id == d.id.value
  {
    d.id.GetOr(Identity(0, 0, 0))
  }

  /** The capability query succeeds and reports event type `t`. */
  predicate Supports(d: Device, t: int) {
    d.evBits.Some? && t in d.evBits.value
  }
}
