/**
 * The Linux input-subsystem and poll(2) constants the core relies on, with
 * their values from the kernel headers, and the event record.
 */
module InputCodes {

  /** The kernel's `__u16`. */
  type u16 = x: int | 0 <= x < 0x1_0000

  const EV_KEY: int := 1
  const EV_REL: int := 2
  const EV_ABS: int := 3

  const KEY_MAX: int := 0x2ff

  const KEY_RESERVED: int := 0
  const KEY_ENTER: int := 28
  const KEY_UP: int := 103
  const KEY_LEFT: int := 105
  const KEY_RIGHT: int := 106
  const KEY_DOWN: int := 108
  const KEY_BACK: int := 158

  /** poll(2) condition "data to read"; `events` and `revents` are C `short`s. */
  const POLLIN: bv16 := 0x0001

  /** `struct input_event` without its timestamp: type, code and value. */
  datatype InputEvent = InputEvent(evType: u16, code: u16, value: int)
}
