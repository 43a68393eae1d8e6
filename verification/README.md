# minui input events, modelled in Dafny

This project models the input layer of the recovery UI library `minui`. The
layer does five things:

- It discovers input devices under `/dev/input` and registers them in a
  registry of at most 16 devices and 16 extra descriptors (`ev_init`,
  `ev_add_fd`, `ev_exit`).
- It polls the registered descriptors and calls their callbacks
  (`ev_wait`, `ev_dispatch`).
- It reads one event record at a time (`ev_get_input`).
- It reports the keys that are already held down (`ev_sync_key_state`).
- It finds and applies optional per-device key remap tables. A table is read
  from a `.keys` file (`events_remap_load`). The file is chosen from an
  ordered list of candidate paths (`events_remap_find`), which depends on the
  `DEVICE=` tag of the kernel command line and on the device's name and
  vendor/product/version identity.

The model is functional. Each registry operation takes a `Registry` value and
returns a new one. The outside world is passed in as plain data:

- the kernel command line;
- the `/dev/input` listing and what opening each entry returns;
- for each `/dev/input` entry, the descriptor opening it returns and what the ioctl queries on it answer while `ev_init` holds it open (`FdRegistry.Opened`);
- for descriptors that stay open, what the ioctl queries answer, keyed by descriptor (`Device.Devices`), as `ev_add_fd` and `ev_sync_key_state` see them;
- the `.keys` files, as a map from path to the lines `fgets` returns;
- what `poll` and `read` return.

Side effects come back as values: descriptors closed, slots released,
callback invocations, key reports, and files tried.

Modules, one per file:

| file | module | models |
|---|---|---|
| options.dfy | `Options` | optional values |
| seqs.dfy | `Seqs` | filter-map over sequences; a bounded collecting loop |
| text.dfy | `Text` | characters, decimal and `%04hx` formatting, reading digits |
| input_codes.dfy | `InputCodes` | the `linux/input.h` constants and the event record |
| remap_table.dfy | `RemapTable` | the 16-slot remap table and its sentinel scan |
| remap_load.dfy | `RemapLoad` | `events_remap_load` |
| device.dfy | `Device` | answers to EVIOCGBIT / EVIOCGKEY / EVIOCGNAME / EVIOCGID |
| remap_find.dfy | `RemapFind` | `events_remap_find` |
| cmdline.dfy | `CmdLine` | the `DEVICE=` tag of the kernel command line |
| registry.dfy | `FdRegistry` | `ev_init`, `ev_add_fd`, `ev_exit` |
| input.dfy | `EventInput` | `ev_wait`, `ev_dispatch`, `_check_ev_remap`, `ev_get_input`, `ev_sync_key_state` |

The remap feature (`USE_EVENTS_REMAP`) is modelled as compiled in.

## Model

| member | source | states |
|---|---|---|
| Text.DecimalRoundTrip | minui/events_remap.c:84-89 | The digits of a natural number read back as that number. `%d` and `atoi` therefore recover what was written. |
| Text.Hex4 | minui/events_remap.c:174-180 | `%04hx` of a 16-bit id is always exactly four lower-case hex digits. |
| Text.Hex4RoundTrip | minui/events_remap.c:174-180 | The four hex digits of an id parse back to the id. |
| Text.Hex4Injective | minui/events_remap.c:174-180 | Two ids give the same four digits exactly when they are equal. |
| Text.Hex4Examples | minui/events_remap.c:174-175 | Concrete `%04hx` outputs: 0x1234 gives `1234`, 0 gives `0000`, 0xbeef gives `beef`. |
| RemapTable.VisibleLength | minui/events.c:196 | The scan reaches every leading pair with a non-negative id. It stops at the end, at 16 pairs, or at the first negative id. |
| RemapTable.LookupFrom | minui/events.c:196-201 | The scan stops at the first visible pair whose id equals the code, and at no earlier one. |
| RemapTable.RemapLookup | minui/events.c:196-201 | No override exactly when no visible pair has the code. Otherwise the result is the override of a visible pair with that id. |
| RemapTable.FirstMatchWins | minui/events.c:196-200 | When several visible pairs share an id, the first one's override is used. |
| RemapTable.NonNegativeIdsAllVisible | minui/events_remap.h:4-11 | A table of at most 16 pairs with non-negative ids is scanned in full. |
| RemapTable.NegativeIdEndsTable | minui/events.c:196 | A negative id in the table ends the visible prefix: neither that pair nor any later one is matched. |
| RemapTable.SentinelScanAgrees | minui/events_remap.c:119-121 | Take the raw 16-slot array holding the pairs, plus the `-1` sentinel when there is room. Scanning it finds exactly what the table lookup finds, whatever the uninitialised slots hold. |
| Text.StripNewline | minui/events_remap.c:72-74 | Exactly one trailing newline is removed when the line ends in one. Otherwise the line is unchanged. |
| RemapLoad.LeadingNumber | minui/events_remap.c:88-89 | `atoi` of a token reads its leading digits: 0 when there are none, and less than 10 to the power of their count. |
| RemapLoad.ScanInt | minui/events_remap.c:84 | `%d` consumes at least one character, and stops at a character that is not a digit. |
| RemapLoad.ScanIntRestIsSuffix | minui/events_remap.c:84 | What `%d` leaves unread is the tail of the line. |
| RemapLoad.ScanPair | minui/events_remap.c:84 | When `%d %32s` matches both items, the word is 1 to 32 characters with no blank. |
| RemapLoad.ScanWord | minui/events_remap.c:84 | `%32s` yields between 1 and 32 characters. |
| RemapLoad.ResolveSymbol | minui/events_remap.c:86-106 | A token resolves exactly when it starts with a digit or is one of NONE, UP, DOWN, LEFT, RIGHT, BACK, ENTER. A resolved override is never negative. |
| RemapLoad.ParseLine | minui/events_remap.c:69-111 | Blank and `#` lines contribute nothing. Any pair a line yields has a non-negative override. |
| RemapLoad.Load | minui/events_remap.c:63-133 | A loaded table has 1 to 16 pairs. It comes from an openable file. It is a prefix of the pairs the file's lines yield, in file order. |
| RemapLoad.LoadLines | minui/events_remap.c:67-117 | The reading loop keeps the first 16 pairs. Every line it reads is accounted for. It stops reading exactly once 16 pairs are held. |
| RemapLoad.LoadNoneIff | minui/events_remap.c:125-128 | There is no table exactly when the file cannot be opened or no line yields a pair. |
| RemapLoad.LoadIgnoresTail | minui/events_remap.c:113-116 | Once 16 pairs are held, later lines cannot change the table. |
| RemapLoad.IgnoredLineAnywhere | minui/events_remap.c:76-82 | A line that yields no pair may be inserted anywhere without changing the result. |
| RemapLoad.ParseRuleLine | minui/events_remap.c:84-110 | The line `<id> <token>`, optionally followed by a blank and any further text, yields `(id, override)` exactly when the token resolves. This holds for any id and any token of 1 to 32 non-blank characters. Only the first two items are read. |
| RemapLoad.CommentedRuleExample | minui/events_remap.c:7-10 | The documented rule `72 BACK # remap key with code 72 to KEY_BACK` yields `(72, KEY_BACK)`: the comment after the rule is ignored. |
| RemapLoad.FormatKeyParses | minui/events_remap.c:84-89 | A pair with a 16-bit override, written as `<id> <number>`, parses back to itself. |
| RemapLoad.LoadFormatRoundTrip | minui/events_remap.c:51-134 | Write a well-formed table out one rule per line, then load the file: the result is the table. |
| RemapLoad.SymbolNamesAreWords | minui/events_remap.c:90-103 | Each symbol name is a single word of at most 32 characters that does not start with a digit. |
| RemapLoad.SingleSymbolRule | minui/events_remap.c:84-110 | A file holding the single rule `<id> <NAME>` (for example `42 DOWN`) loads to the single pair `(id, code of NAME)`. |
| RemapLoad.SinglePairLookup | minui/events.c:196-200 | A one-pair table maps its id, and no other code, to its override. A negative id matches nothing. |
| Device.NameOf | minui/events_remap.c:150-157 | A failed name query gives the empty name. Otherwise the name is the one reported. |
| Device.IdentityOf | minui/events_remap.c:159-163 | A failed id query gives vendor, product and version 0. Otherwise the identity is the one reported. |
| RemapFind.DirPlan | minui/events_remap.c:173-199 | The candidates for one search directory are exactly the enabled ones, in the source's order. |
| RemapFind.Plan | minui/events_remap.c:165-201 | The candidate list holds exactly the enabled candidates, strictly in search order. The tag file comes first, then the five per-directory forms for each directory. |
| RemapFind.PathOf | minui/events_remap.c:166-197 | Every candidate path ends in `.keys`. The tag file lies in `/sdcard/devices/<tag>/`; every other candidate lies in its search directory. |
| RemapFind.VendorPathsDistinct | minui/events_remap.c:174-175 | In one directory, the Vendor/Product/Version paths of two identities are equal exactly when the identities are. |
| RemapFind.FirstLoad | minui/events_remap.c:167-203 | Files are tried in order, and the first one that loads ends the search. Every earlier file failed. When nothing loads, every file was tried. |
| RemapFind.Find | minui/events_remap.c:145-204 | The files tried are a prefix of the candidate list. The table is the load of the last file tried. Every candidate tried before the one that loaded failed. There is no table exactly when no candidate loads. |
| RemapFind.FirstLoadNoneIff | minui/events_remap.c:203 | The search finds nothing exactly when no candidate file loads. |
| RemapFind.NoVendorNoVendorFiles | minui/events_remap.c:159-163 | A device whose id query fails or reports vendor 0 gets no vendor-qualified candidates. |
| RemapFind.TagFileShortCircuits | minui/events_remap.c:165-169 | With a device tag, a loadable `/sdcard/devices/<tag>/<name>.keys` is the only file opened. |
| RemapFind.VendorExamplePlan | minui/events_remap.c:173-182 | Vendor 0x1234 with version 0 still tries the Version-qualified file first, then the Product file. |
| CmdLine.ReadCmdline | minui/events.c:66-77 | When the file cannot be read, the line is empty. Otherwise it is the first 1024 characters with a trailing newline removed, and never longer than 1024. The source counts bytes; see Left out. |
| CmdLine.TokenRun | minui/events.c:79-84 | A token runs up to the first blank or the end of the line. |
| CmdLine.Tokens | minui/events.c:79-84 | Every token is non-empty and contains no blank. |
| CmdLine.LastDeviceToken | minui/events.c:80-85 | Picks a token starting with `DEVICE=` such that no later token does. There is no result exactly when no token starts with it. |
| CmdLine.DeviceTag | minui/events.c:79-85 | There is no tag exactly when no token starts with `DEVICE=`. Otherwise the tag is the rest of a `DEVICE=` token that no later token matches. |
| CmdLine.ScanDeviceTag | minui/events.c:79-85 | The forward loop, which overwrites the tag at every `DEVICE=` token, returns the value of the last one. There is no tag exactly when no token has the prefix. |
| CmdLine.TokensOfJoin | minui/events.c:79-84 | Splitting blank-joined tokens returns exactly those tokens. |
| CmdLine.LeadingBlanksIgnored | minui/events.c:79 | A leading blank does not change the tokens. |
| CmdLine.RepeatedBlanksIgnored | minui/events.c:79-84 | Two blanks anywhere in the line split it into the same tokens as one blank. |
| FdRegistry.ProbeEntry | minui/events.c:94-108 | An entry is skipped unless its name starts with `event` and it opens. An opened entry is accepted exactly when the answers for that entry make it an input device, and rejected otherwise. An accepted probe carries that entry's descriptor and answers. |
| FdRegistry.Init | minui/events.c:56-125 | Existing slots are kept and the result is well formed. New slots hold the first `16 - devCount` accepted devices, in listing order. Each new slot's table comes from the tag-based remap search. Rejected descriptors are closed. Scanning stops right after the entry that fills the device slots, and never earlier. |
| FdRegistry.SlotsFds | minui/events.c:111-119 | The slots filled hold exactly the accepted descriptors, in listing order. |
| FdRegistry.SlotsFromProbes | minui/events.c:111-116 | Every filled slot comes from an accepted entry. Its table is searched with that entry's own answers, even when an earlier entry had the same descriptor number. |
| FdRegistry.DescriptorReuseExample | minui/events.c:95-108 | An entry rejected and closed as descriptor 5 does not affect the next entry, which reopens as descriptor 5: that entry is judged by its own answers and accepted. |
| FdRegistry.AcceptedAreInputDevices | minui/events.c:94-109 | Every descriptor `ev_init` may register was opened from an `event*` entry that reports EV_KEY, EV_REL or EV_ABS. |
| FdRegistry.RejectedAreNotInputDevices | minui/events.c:99-108 | Every descriptor `ev_init` closes was opened from an `event*` entry and is not an input device. |
| FdRegistry.AddFd | minui/events.c:127-142 | Returns -1 with the registry unchanged exactly when the extra slots are full or there is no callback. Otherwise returns 0 with one slot appended, searched without a tag. The result stays well formed. |
| FdRegistry.AddAll | minui/events.c:127-142 | Any series of `ev_add_fd` calls leaves a well-formed registry. |
| FdRegistry.AddAllCapacity | minui/events.c:129-130 | A series of calls registers min(remaining extra slots, number of requests with a callback) descriptors. Device slots are untouched. |
| FdRegistry.Exit | minui/events.c:144-157 | Every descriptor is closed, last slot first. Every slot holding a table is released exactly once, in descending order. The registry ends empty. This is the corrected release of every table; see Findings for the loop as written. |
| FdRegistry.ExitInspectedAsWritten | minui/events.c:146-153 | As written, the table test visits slots count, count-1, down to 1. |
| FdRegistry.ExitLeaksFirstTable | minui/events.c:148-153 | As written, the table of the first slot is never looked at, and the slot past the live range is. |
| EventInput.Wait | minui/events.c:159-167 | Returns -1 exactly when poll reports an error or a timeout. Descriptors, callbacks and tables are kept. Every slot's reported events are stored, whatever poll returns. |
| EventInput.CountNonZeroPositive | minui/events.c:163-166 | The count of slots with events is positive exactly when some slot has events. |
| EventInput.WaitSucceedsIffReady | minui/events.c:163-166 | When the kernel's count is consistent, `ev_wait` succeeds exactly when some slot has events. On failure every slot's stored events are cleared. |
| EventInput.WaitKeepsValid | minui/events.c:163 | Waiting keeps the registry well formed. |
| EventInput.Firing | minui/events.c:174-178 | Lists exactly the slots that have a callback and a requested event, in increasing order. |
| EventInput.Dispatch | minui/events.c:169-179 | One callback call per firing slot, in slot order, with that slot's descriptor, events and cookie. |
| EventInput.FirstWithFd | minui/events.c:192-194 | Finds the first slot registered for the descriptor, or reports that there is none. |
| EventInput.OverrideFor | minui/events.c:187-205 | There is an override only for key events with code at most KEY_MAX. It comes from the table of the first slot for the descriptor. |
| EventInput.CheckRemap | minui/events.c:182-206 | Type and value never change. The code changes only when an override exists, and then becomes that override truncated to 16 bits. |
| EventInput.CheckRemapAsWritten | minui/events.c:198 | As written, the event is returned unchanged. |
| EventInput.NonKeyEventsUnchanged | minui/events.c:187-188 | Non-key events pass through untouched. |
| EventInput.LaterSlotsIgnored | minui/events.c:192-204 | Slots after the first one for the descriptor do not affect remapping. |
| EventInput.RemapApplied | minui/events.c:192-199 | A key event whose code the first slot's table maps gets that override. |
| EventInput.RemapNeverAppliedAsWritten | minui/events.c:198 | With the table `72 BACK`, the intended check turns code 72 into KEY_BACK. As written, the code stays 72. |
| EventInput.GetInput | minui/events.c:209-223 | Returns 0 exactly when POLLIN is set and a whole record was read, and then yields the event remapped by the corrected `CheckRemap`. As written, line 198 leaves the event unchanged; see Findings. Otherwise returns -1 with no event. |
| EventInput.PressedFrom | minui/events.c:246-249 | Lists exactly the held codes between the start and KEY_MAX, strictly increasing. |
| EventInput.DeviceReports | minui/events.c:238-249 | A device is skipped when either query fails or it lacks EV_KEY. Otherwise there is one `(code, 1, data)` report per held key, in code order. |
| EventInput.SlotReports | minui/events.c:232-250 | Every report says pressed, carries the cookie, and has a code in 0..KEY_MAX. |
| EventInput.ReportsAreHeldKeys | minui/events.c:232-250 | Every reported code is held on the device behind one of the slots walked. |
| EventInput.HeldKeysReported | minui/events.c:238-249 | Every key in 0..KEY_MAX held on a walked slot that answers both queries and has EV_KEY is reported as a press with the cookie. |
| EventInput.SyncKeyState | minui/events.c:225-253 | Returns 0. Reports exactly the keys in 0..KEY_MAX held on the first `ev_dev_count` slots, each as a press with the cookie. |
| EventInput.SyncIgnoresLaterSlots | minui/events.c:232 | Slots past `ev_dev_count` do not affect the reports. |
| EventInput.SlotReportsSnoc | minui/events.c:232-250 | Slots are reported in order: one more slot appends that device's reports. |

## Left out

- Real I/O is not modelled. `open`, `read`, `opendir`/`readdir`, `fopen`/`fgets`, `ioctl`, `poll` and `close` are replaced by the values they return, passed in as parameters.
- Memory management is not modelled: `malloc` and `free` of tables. `Exit` reports the slots whose tables are released.
- The callbacks' own behaviour is left out. Only the calls made to them are recorded.
- `poll`'s timeout and blocking are left out; the result of `poll` is an input.
- The debug and info `printf` macros of `events_remap.h` are left out.
- Strings are sequences of characters, while the source counts bytes. The byte limits therefore agree with the model only for ASCII text: the 1024-byte command line read, `%32s`, `evname[64]` and the 128-byte `fgets` buffer.
- `fgets` splits lines longer than 127 characters into several chunks; the model takes the file's lines as given.
- An embedded NUL character in a line or in the command line is not modelled.
- `%d` and `atoi` overflow of `int` is not modelled: values are unbounded integers.
- Writing more than 1023 characters of command line puts the terminator one byte past `cmdline[1024]`. The model keeps the first 1024 characters.
- `%32s` stores 33 bytes into `key_name[32]`; this overflow is not modelled.
- The length of the `EVIOCGNAME` answer is not modelled. The buffer `evname[64]` is not terminated by the source when a name fills all 64 bytes, and the `sprintf` calls that use it would then read past it. The oracle's name is taken as a complete string.
- `sprintf` into `filepath[PATH_MAX]` can overflow; path length is not modelled.
- `test_bit` shifts an `int` 1 by up to 63 bits on 64-bit targets; the model reads the bitmaps as exact sets.
- New slots start with no reported events here. The source writes only `fd` and `events` into a slot, so a slot reused after `ev_exit` keeps its old `revents` until the next `poll`.
- The argument of `ev_wait` (the timeout) only shapes what `poll` returns, so it does not appear.
- FdRegistry.Init: requires fewer than 16 registered devices. The source stops only when the count reaches exactly 16 after an increment, so starting from 16 would write past the arrays.
- FdRegistry.Init: says nothing about distinct descriptors, which depend on the host.
- EventInput.SyncKeyState: walks the first `ev_dev_count` slots, as the source does. These are device slots only when `ev_add_fd` was not called before `ev_init`.

## Findings

| source | as written | input that shows it | evidently intended | confidence | as-written member | corrected member |
|---|---|---|---|---|---|---|
| minui/events.c:198 | `ev->code == (*map)[i].override;` compares and discards the result, so no remap is ever applied | table `72 BACK` for the device, key event with code 72 | assign the override to `ev->code` | high, not executed | EventInput.CheckRemapAsWritten | EventInput.CheckRemap |
| minui/events.c:148-153 | the table test uses `ev_fdinfo[ev_count]` before `ev_count` is decremented, so it visits slots count down to 1 | one registered device whose slot 0 holds a table; with all 32 slots in use, the first test reads `ev_fdinfo[32]`, past the array | test slot `ev_count - 1`, so slots count-1 down to 0 are visited and every table is released | high, not executed | FdRegistry.ExitInspectedAsWritten | FdRegistry.Exit |
