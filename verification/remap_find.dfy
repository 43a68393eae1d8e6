/**
 * `events_remap_find` (minui/events_remap.c): the ordered list of candidate
 * `.keys` files for a device, and the search that loads the first one that
 * yields a table.
 */
module RemapFind {
  import opened Options
  import opened Text
  import opened RemapTable
  import opened RemapLoad
  import opened Device

  /** Directory holding the per-board files selected by the device tag. */
  const DevicesRoot: string := "/sdcard/devices"

  /** `keys_remap_dirs`, searched in this order. */
  const Roots: seq<string> := ["/sdcard/devices/.input", "/res/input"]

  /** One way of building a candidate path; `dir` indexes `Roots`. */
  datatype Candidate =
    | TagDir
    | VendorProductVersion(dir: nat)
    | VendorProduct(dir: nat)
    | NameWithTag(dir: nat)
    | NameOnly(dir: nat)
    | Generic(dir: nat)

  /** Whether the search builds candidate `c` for this device tag, name and identity. */
  predicate Enabled(c: Candidate, tag: Option<string>, name: string, id: Identity) {
    match c
    case TagDir => tag.Some?
    case VendorProductVersion(d) => d < |Roots| && id.vendor != 0
    case VendorProduct(d) => d < |Roots| && id.vendor != 0
    case NameWithTag(d) => d < |Roots| && tag.Some?
    case NameOnly(d) => d < |Roots| && name != ""
    case Generic(d) => d < |Roots|
  }

  /** Position of a candidate in the search order. */
  function Rank(c: Candidate): nat {
    match c
    case TagDir => 0
    case VendorProductVersion(d) => 1 + 5 * d
    case VendorProduct(d) => 2 + 5 * d
    case NameWithTag(d) => 3 + 5 * d
    case NameOnly(d) => 4 + 5 * d
    case Generic(d) => 5 + 5 * d
  }

  /** The root a candidate searches, if it searches one. */
  function DirOf(c: Candidate): Option<nat> {
    if c.TagDir? then None else Some(c.dir)
  }

  predicate Sorted(p: seq<Candidate>) {
    forall i, j :: 0 <= i < j < |p| ==> Rank(p[i]) < Rank(p[j])
  }

  function DirPlan(d: nat, tag: Option<string>, name: string, id: Identity): (p: seq<Candidate>)
    requires d < |Roots|
    ensures forall c :: c in p <==> DirOf(c) == Some(d) && Enabled(c, tag, name, id)
    ensures forall i :: 0 <= i < |p| ==> 1 + 5 * d <= Rank(p[i]) <= 5 + 5 * d
    ensures Sorted(p)
  {
    (if id.vendor != 0 then [VendorProductVersion(d), VendorProduct(d)] else [])
    + (if tag.Some? then [NameWithTag(d)] else [])
    + (if name != "" then [NameOnly(d)] else [])
    + [Generic(d)]
  }

  /** The candidates the search tries, in the order it tries them. */
  function Plan(tag: Option<string>, name: string, id: Identity): (p: seq<Candidate>)
    ensures forall c :: c in p <==> Enabled(c, tag, name, id)
    ensures Sorted(p)
  {
    var head := if tag.Some? then [TagDir] else [];
    var p0 := DirPlan(0, tag, name, id);
    var p1 := DirPlan(1, tag, name, id);
    SortedConcat(head, p0);
    SortedConcat(head + p0, p1);
    head + p0 + p1
  }

  lemma SortedConcat(p: seq<Candidate>, q: seq<Candidate>)
    requires Sorted(p) && Sorted(q)
    requires forall i, j :: 0 <= i < |p| && 0 <= j < |q| ==> Rank(p[i]) < Rank(q[j])
    ensures Sorted(p + q)
  {
  }

  /** A `.keys` file name `stem` inside directory `dir`. */
  function KeysFile(dir: string, stem: string): (path: string)
    ensures StartsWith(path, dir + "/") && EndsWith(path, ".keys")
    ensures |path| == |dir| + |stem| + 6
  {
    var path := dir + "/" + stem + ".keys";
    assert path[..|dir| + 1] == dir + "/";
    assert path[|path| - 5..] == ".keys";
    path
  }

  /** The path `sprintf` builds for a candidate. */
  function PathOf(c: Candidate, tag: Option<string>, name: string, id: Identity): (path: string)
    requires Enabled(c, tag, name, id)
    ensures EndsWith(path, ".keys")
    ensures c.TagDir? ==> StartsWith(path, DevicesRoot + "/" + tag.value + "/")
    ensures !c.TagDir? ==> StartsWith(path, Roots[c.dir] + "/")
  {
    match c
    case TagDir => KeysFile(DevicesRoot + "/" + tag.value, name)
    case VendorProductVersion(d) =>
      KeysFile(Roots[d], VendorStem(id))
    case VendorProduct(d) => KeysFile(Roots[d], "Vendor_" + Hex4(id.vendor) + "_Product_" + Hex4(id.product))
    case NameWithTag(d) => KeysFile(Roots[d], name + "_" + tag.value)
    case NameOnly(d) => KeysFile(Roots[d], name)
    case Generic(d) => KeysFile(Roots[d], "Generic")
  }

  /** The stem names its own file: it sits between the directory and the extension. */
  lemma KeysFileStem(dir: string, stem: string)
    ensures KeysFile(dir, stem)[|dir| + 1..|dir| + 1 + |stem|] == stem
  {
    var path := KeysFile(dir, stem);
    assert path == (dir + "/" + stem) + ".keys";
    assert (dir + "/" + stem)[|dir| + 1..] == stem;
  }

  /** File stem of the vendor, product and version candidate. */
  function VendorStem(id: Identity): (stem: string)
    ensures |stem| == 37
  {
    "Vendor_" + Hex4(id.vendor) + "_Product_" + Hex4(id.product) + "_Version_" + Hex4(id.version)
  }

  /** Where the three hex fields sit in a vendor stem. */
  lemma VendorStemFields(id: Identity)
    ensures VendorStem(id)[7..11] == Hex4(id.vendor)
    ensures VendorStem(id)[20..24] == Hex4(id.product)
    ensures VendorStem(id)[33..37] == Hex4(id.version)
  {
    var a := "Vendor_";
    var b := a + Hex4(id.vendor) + "_Product_";
    var e := b + Hex4(id.product) + "_Version_";
    assert VendorStem(id)[7..11] == (a + Hex4(id.vendor))[|a|..];
    assert VendorStem(id)[20..24] == (b + Hex4(id.product))[|b|..];
    assert VendorStem(id)[33..37] == (e + Hex4(id.version))[|e|..];
  }

  /**
   * The fully qualified vendor file names the search builds for two
   * identities under one root coincide exactly when the identities do.
   */
  lemma VendorPathsDistinct(d: nat, tag: Option<string>, name: string, id1: Identity, id2: Identity)
    requires Enabled(VendorProductVersion(d), tag, name, id1) && Enabled(VendorProductVersion(d), tag, name, id2)
    ensures PathOf(VendorProductVersion(d), tag, name, id1) == PathOf(VendorProductVersion(d), tag, name, id2) <==> id1 == id2
  {
    var c := VendorProductVersion(d);
    if PathOf(c, tag, name, id1) == PathOf(c, tag, name, id2) {
      KeysFileStem(Roots[d], VendorStem(id1));
      KeysFileStem(Roots[d], VendorStem(id2));
      VendorStemFields(id1);
      VendorStemFields(id2);
      Hex4Injective(id1.vendor, id2.vendor);
      Hex4Injective(id1.product, id2.product);
      Hex4Injective(id1.version, id2.version);
    }
  }

  function Candidates(tag: Option<string>, name: string, id: Identity): (paths: seq<string>)
    ensures |paths| == |Plan(tag, name, id)|
    ensures forall k :: 0 <= k < |paths| ==> paths[k] == PathOf(Plan(tag, name, id)[k], tag, name, id)
  {
    var p := Plan(tag, name, id);
    seq(|p|, k requires 0 <= k < |p| => PathOf(p[k], tag, name, id))
  }

  /** Outcome of a search: the table found, and the files it tried to open, in order. */
  datatype Search = Search(table: Option<Table>, tried: seq<string>)

  /** Tries `paths` in order and stops at the first one that loads. */
  function FirstLoad(fs: FileSystem, paths: seq<string>): (s: Search)
    ensures s.tried <= paths
    ensures s.table.None? ==> s.tried == paths
    ensures s.table.Some? ==> |s.tried| >= 1 && s.table == Load(fs, s.tried[|s.tried| - 1])
    ensures s.table.Some? ==> forall k :: 0 <= k < |s.tried| - 1 ==> Load(fs, paths[k]).None?
    ensures s.table.None? ==> forall k :: 0 <= k < |paths| ==> Load(fs, paths[k]).None?
  {
    if |paths| == 0 then Search(None, [])
    else
      match Load(fs, paths[0])
      case Some(t) => Search(Some(t), [paths[0]])
      case None =>
        var rest := FirstLoad(fs, paths[1..]);
        Search(rest.table, [paths[0]] + rest.tried)
  }

  /**
   * The table for a device: the first candidate that loads wins, no later
   * candidate is opened, and the result is none when every candidate fails.
   */
  function Find(fs: FileSystem, tag: Option<string>, dev: Device): (s: Search)
    ensures s.tried <= Candidates(tag, NameOf(dev), IdentityOf(dev))
    ensures s.table.Some? ==> WellFormed(s.table.value)
    ensures s.table.Some? ==> |s.tried| >= 1 && s.table == Load(fs, s.tried[|s.tried| - 1])
    ensures s.table.Some? ==> forall k :: 0 <= k < |s.tried| - 1 ==> Load(fs, Candidates(tag, NameOf(dev), IdentityOf(dev))[k]).None?
    ensures s.table.None? <==>
      forall k :: 0 <= k < |Candidates(tag, NameOf(dev), IdentityOf(dev))| ==>
        Load(fs, Candidates(tag, NameOf(dev), IdentityOf(dev))[k]).None?
  {
    FirstLoad(fs, Candidates(tag, NameOf(dev), IdentityOf(dev)))
  }

  /** A device whose id query fails, or reports vendor 0, gets no vendor-qualified candidate. */
  lemma NoVendorNoVendorFiles(tag: Option<string>, dev: Device, d: nat)
    requires IdentityOf(dev).vendor == 0
    ensures VendorProductVersion(d) !in Plan(tag, NameOf(dev), IdentityOf(dev))
    ensures VendorProduct(d) !in Plan(tag, NameOf(dev), IdentityOf(dev))
  {
  }

  /**
   * With a device tag, the board-specific file comes first: when it loads,
   * it is the only file opened, whatever else exists (`Generic.keys` included).
   */
  lemma TagFileShortCircuits(fs: FileSystem, tag: string, dev: Device)
    requires Load(fs, DevicesRoot + "/" + tag + "/" + NameOf(dev) + ".keys").Some?
    ensures Find(fs, Some(tag), dev).tried == [DevicesRoot + "/" + tag + "/" + NameOf(dev) + ".keys"]
    ensures Find(fs, Some(tag), dev).table == Load(fs, DevicesRoot + "/" + tag + "/" + NameOf(dev) + ".keys")
  {
    var paths := Candidates(Some(tag), NameOf(dev), IdentityOf(dev));
    assert Plan(Some(tag), NameOf(dev), IdentityOf(dev))[0] == TagDir;
    assert paths[0] == DevicesRoot + "/" + tag + "/" + NameOf(dev) + ".keys";
  }

  /** The search finds nothing exactly when no candidate file loads. */
  lemma FirstLoadNoneIff(fs: FileSystem, paths: seq<string>)
    ensures FirstLoad(fs, paths).table.None? <==> forall k :: 0 <= k < |paths| ==> Load(fs, paths[k]).None?
  {
    var s := FirstLoad(fs, paths);
    if s.table.Some? {
      var k := |s.tried| - 1;
      assert paths[k] == s.tried[k];
    }
  }

  /**
   * Vendor 0x1234, product 0x5678, version 0: both vendor-qualified files are
   * tried first (the version is still written, as `0000`).
   */
  lemma VendorExamplePlan(name: string)
    ensures Plan(None, name, Identity(0x1234, 0x5678, 0))[..2] == [VendorProductVersion(0), VendorProduct(0)]
  {
  }
}
