/**
 * The remap table of minui/events_remap.h: at most EVENTS_REMAP_MAX_KEYS pairs
 * `(id, override)`, scanned linearly by the event reader.
 *
 * The C type is a fixed array of 16 slots. A table that holds fewer than 16
 * pairs carries the sentinel `id == -1` in the slot after the last pair; the
 * slots after the sentinel are uninitialised. Here a table is the sequence of
 * its loaded pairs, and `SentinelScanAgrees` shows that the C scan over any
 * 16-slot array laid out that way sees exactly this sequence.
 */
module RemapTable {
  import opened Options

  /** EVENTS_REMAP_MAX_KEYS. */
  const MAX_KEYS: nat := 16

  datatype RemapKey = RemapKey(id: int, override: int)

  type Table = seq<RemapKey>

  /** What a loader can hand out: never empty, never more than the capacity. */
  predicate WellFormed(t: Table) {
    1 <= |t| <= MAX_KEYS
  }

  /**
   * Number of leading pairs the scanner can reach: it stops at the end of the
   * table, at the capacity, or at the first negative id.
   */
  function VisibleLength(t: Table): (n: nat)
    ensures n <= |t| && n <= MAX_KEYS
    ensures forall j :: 0 <= j < n ==> t[j].id >= 0
    ensures n == |t| || n == MAX_KEYS || t[n].id < 0
  {
    VisibleFrom(t, 0)
  }

  function VisibleFrom(t: Table, i: nat): (n: nat)
    requires i <= |t| && i <= MAX_KEYS
    requires forall j :: 0 <= j < i ==> t[j].id >= 0
    ensures i <= n <= |t| && n <= MAX_KEYS
    ensures forall j :: 0 <= j < n ==> t[j].id >= 0
    ensures n == |t| || n == MAX_KEYS || t[n].id < 0
    decreases |t| - i
  {
    if i == |t| || i == MAX_KEYS || t[i].id < 0 then i else VisibleFrom(t, i + 1)
  }

  /** Index of the pair the scan stops at for `code`, from slot `i` on. */
  function LookupFrom(t: Table, code: int, i: nat): (r: Option<nat>)
    requires i <= VisibleLength(t)
    ensures r.Some? ==> i <= r.value < VisibleLength(t) && t[r.value].id == code
    ensures r.Some? ==> forall j :: i <= j < r.value ==> t[j].id != code
    ensures r.None? ==> forall j :: i <= j < VisibleLength(t) ==> t[j].id != code
    decreases |t| - i
  {
    if i == VisibleLength(t) then None
    else if t[i].id == code then Some(i)
    else LookupFrom(t, code, i + 1)
  }

  /**
   * The override of the first visible pair whose id is `code`, if any:
   * the linear scan of `_check_ev_remap`.
   */
  function RemapLookup(t: Table, code: int): (r: Option<int>)
    ensures r.None? <==> forall j :: 0 <= j < VisibleLength(t) ==> t[j].id != code
    ensures r.Some? ==> exists k :: 0 <= k < VisibleLength(t) && t[k].id == code && r.value == t[k].override
  {
    match LookupFrom(t, code, 0)
    case Some(k) => Some(t[k].override)
    case None => None
  }

  /** The first visible match wins: earlier pairs with the same id shadow later ones. */
  lemma FirstMatchWins(t: Table, code: int, k: nat)
    requires k < VisibleLength(t) && t[k].id == code
    requires forall j :: 0 <= j < k ==> t[j].id != code
    ensures RemapLookup(t, code) == Some(t[k].override)
  {
    var r := LookupFrom(t, code, 0);
    assert r.Some?;
  }

  /** When every id is non-negative, the scanner sees the whole table. */
  lemma NonNegativeIdsAllVisible(t: Table)
    requires |t| <= MAX_KEYS
    requires forall j :: 0 <= j < |t| ==> t[j].id >= 0
    ensures VisibleLength(t) == |t|
  {
  }

  /** A negative id ends the visible part: neither it nor any pair after it is ever matched. */
  lemma NegativeIdEndsTable(t: Table, j: nat)
    requires j < |t| && t[j].id < 0
    ensures VisibleLength(t) <= j
  {
  }

  /** A 16-slot C array that holds `t` followed, when there is room, by the sentinel. */
  predicate LaidOut(t: Table, slots: seq<RemapKey>) {
    && |t| <= MAX_KEYS
    && |slots| == MAX_KEYS
    && slots[..|t|] == t
    && (|t| < MAX_KEYS ==> slots[|t|].id == -1)
  }

  /** The C loop over the raw slots: stops at slot 16 or at the first negative id. */
  function ScanSlots(slots: seq<RemapKey>, code: int, i: nat): Option<int>
    requires |slots| == MAX_KEYS
    decreases MAX_KEYS - i
  {
    if i >= MAX_KEYS || slots[i].id < 0 then None
    else if slots[i].id == code then Some(slots[i].override)
    else ScanSlots(slots, code, i + 1)
  }

  /**
   * The sentinel bounds the C scan: whatever the uninitialised slots after it
   * hold, scanning the raw array finds what `RemapLookup` finds in the table.
   */
  lemma SentinelScanAgrees(t: Table, slots: seq<RemapKey>, code: int)
    requires LaidOut(t, slots)
    ensures ScanSlots(slots, code, 0) == RemapLookup(t, code)
  {
    ScanAgreesFrom(t, slots, code, 0);
  }

  lemma {:induction false} ScanAgreesFrom(t: Table, slots: seq<RemapKey>, code: int, i: nat)
    requires LaidOut(t, slots)
    requires i <= VisibleLength(t)
    ensures ScanSlots(slots, code, i) == (match LookupFrom(t, code, i) case Some(k) => Some(t[k].override) case None => None)
    decreases MAX_KEYS - i
  {
    var n := VisibleLength(t);
    if i < n {
      assert slots[i] == slots[..|t|][i] == t[i];
      if t[i].id != code {
        ScanAgreesFrom(t, slots, code, i + 1);
      }
    } else if i < |t| {
      assert slots[i] == slots[..|t|][i] == t[i];
    }
  }
}
