/**
 * The device tag of minui/events.c: the value of the last `DEVICE=` token of
 * the kernel command line.
 */
module CmdLine {
  import opened Options
  import opened Seqs
  import opened Text

  /** Size of the buffer the command line is read into. */
  const CMDLINE_BUFFER: nat := 1024

  const DeviceKey: string := "DEVICE="

  /**
   * What the buffer holds after one `read` of at most 1024 bytes: nothing when
   * the file cannot be opened or read, and one trailing newline removed.
   */
  function ReadCmdline(contents: Option<string>): (line: string)
    ensures |line| <= CMDLINE_BUFFER
    ensures contents.None? ==> line == ""
    ensures contents.Some? ==> line == StripNewline(Take(contents.value, CMDLINE_BUFFER))
  {
    match contents
    case None => ""
    case Some(c) => StripNewline(Take(c, CMDLINE_BUFFER))
  }

  /** Length of the leading run of characters other than the delimiter ' '. */
  function TokenRun(s: string): (n: nat)
    ensures n <= |s|
    ensures forall i :: 0 <= i < n ==> s[i] != ' '
    ensures n == |s| || s[n] == ' '
  {
    if |s| > 0 && s[0] != ' ' then 1 + TokenRun(s[1..]) else 0
  }

  predicate IsToken(t: string) {
    |t| > 0 && forall i :: 0 <= i < |t| ==> t[i] != ' '
  }

  /** The tokens `strtok_r(.., " ", ..)` returns, in order: maximal runs of non-blanks. */
  function Tokens(s: string): (ts: seq<string>)
    ensures forall k :: 0 <= k < |ts| ==> IsToken(ts[k])
    decreases |s|
  {
    if |s| == 0 then []
    else if s[0] == ' ' then Tokens(s[1..])
    else
      var n := TokenRun(s);
      [s[..n]] + Tokens(s[n..])
  }

  /** Index of the last token that starts with `DEVICE=`. */
  function LastDeviceToken(ts: seq<string>): (r: Option<nat>)
    ensures r.Some? ==> r.value < |ts| && StartsWith(ts[r.value], DeviceKey)
    ensures r.Some? ==> forall j :: r.value < j < |ts| ==> !StartsWith(ts[j], DeviceKey)
    ensures r.None? ==> forall j :: 0 <= j < |ts| ==> !StartsWith(ts[j], DeviceKey)
  {
    if |ts| == 0 then None
    else if StartsWith(ts[|ts| - 1], DeviceKey) then Some(|ts| - 1)
    else LastDeviceToken(ts[..|ts| - 1])
  }

  /** The device tag: what follows `DEVICE=` in its last occurrence, absent when there is none. */
  function DeviceTag(contents: Option<string>): (tag: Option<string>)
    ensures var ts := Tokens(ReadCmdline(contents));
      tag.None? <==> forall j :: 0 <= j < |ts| ==> !StartsWith(ts[j], DeviceKey)
    ensures var ts := Tokens(ReadCmdline(contents));
      tag.Some? ==> exists k :: 0 <= k < |ts| && ts[k] == DeviceKey + tag.value
                     && forall j :: k < j < |ts| ==> !StartsWith(ts[j], DeviceKey)
  {
    var ts := Tokens(ReadCmdline(contents));
    match LastDeviceToken(ts)
    case Some(k) => Some(ts[k][|DeviceKey|..])
    case None => None
  }

  /**
   * The loop of `ev_init`: walks the tokens in order and keeps the value of
   * every `DEVICE=` token it meets, so the last one wins.
   */
  method ScanDeviceTag(contents: Option<string>) returns (tag: Option<string>)
    ensures tag == DeviceTag(contents)
    ensures tag.None? <==> forall j :: 0 <= j < |Tokens(ReadCmdline(contents))| ==> !StartsWith(Tokens(ReadCmdline(contents))[j], DeviceKey)
  {
    var ts := Tokens(ReadCmdline(contents));
    tag := None;
    ghost var at: nat := 0;
    var i := 0;
    while i < |ts|
      invariant i <= |ts|
      invariant tag.None? ==> forall j :: 0 <= j < i ==> !StartsWith(ts[j], DeviceKey)
      invariant tag.Some? ==> at < i && StartsWith(ts[at], DeviceKey) && tag.value == ts[at][|DeviceKey|..]
      invariant tag.Some? ==> forall j :: at < j < i ==> !StartsWith(ts[j], DeviceKey)
    {
      if StartsWith(ts[i], DeviceKey) {
        tag := Some(ts[i][|DeviceKey|..]);
        at := i;
      }
      i := i + 1;
    }
    match LastDeviceToken(ts) {
      case None =>
      case Some(k) =>
        assert tag.Some? by {
          assert StartsWith(ts[k], DeviceKey);
        }
        assert k == at;
    }
    if tag.Some? {
      assert StartsWith(ts[at], DeviceKey);
    }
    assert ts == Tokens(ReadCmdline(contents));
  }

  /** Tokens joined with single blanks. */
  function Join(ts: seq<string>): string {
    if |ts| == 0 then "" else if |ts| == 1 then ts[0] else ts[0] + " " + Join(ts[1..])
  }

  lemma {:induction false} TokenRunOf(t: string, rest: string)
    requires forall i :: 0 <= i < |t| ==> t[i] != ' '
    requires |rest| == 0 || rest[0] == ' '
    ensures TokenRun(t + rest) == |t|
    decreases |t|
  {
    if |t| > 0 {
      assert (t + rest)[1..] == t[1..] + rest;
      TokenRunOf(t[1..], rest);
    }
  }

  lemma TokensOfToken(t: string, rest: string)
    requires IsToken(t)
    requires |rest| == 0 || rest[0] == ' '
    ensures Tokens(t + rest) == [t] + Tokens(rest)
  {
    TokenRunOf(t, rest);
    assert (t + rest)[..|t|] == t;
    assert (t + rest)[|t|..] == rest;
    if |rest| > 0 {
      assert Tokens(rest) == Tokens(rest[1..]);
    }
  }

  /** Splitting a blank-separated line of tokens gives the tokens back. */
  lemma {:induction false} TokensOfJoin(ts: seq<string>)
    requires forall k :: 0 <= k < |ts| ==> IsToken(ts[k])
    ensures Tokens(Join(ts)) == ts
  {
    if |ts| == 1 {
      TokensOfToken(ts[0], "");
      assert ts[0] + "" == ts[0];
    } else if |ts| > 1 {
      var rest := " " + Join(ts[1..]);
      assert Join(ts) == ts[0] + rest;
      TokensOfToken(ts[0], rest);
      assert rest[1..] == Join(ts[1..]);
      TokensOfJoin(ts[1..]);
      assert Tokens(rest) == Tokens(Join(ts[1..]));
    }
  }

  /** A leading blank does not change the tokens. */
  lemma LeadingBlanksIgnored(s: string)
    ensures Tokens(" " + s) == Tokens(s)
  {
    assert (" " + s)[1..] == s;
  }

  /** Two blanks anywhere in the line delimit exactly as one does. */
  lemma {:induction false} RepeatedBlanksIgnored(a: string, b: string)
    ensures Tokens(a + "  " + b) == Tokens(a + " " + b)
    decreases |a|
  {
    if |a| == 0 {
      assert a + "  " + b == " " + (" " + b);
      assert a + " " + b == " " + b;
      LeadingBlanksIgnored(" " + b);
    } else if a[0] == ' ' {
      assert (a + "  " + b)[1..] == a[1..] + "  " + b;
      assert (a + " " + b)[1..] == a[1..] + " " + b;
      RepeatedBlanksIgnored(a[1..], b);
    } else {
      var n := TokenRun(a);
      var t := a[..n];
      var u := a[n..];
      assert a + "  " + b == t + (u + "  " + b);
      assert a + " " + b == t + (u + " " + b);
      TokensOfToken(t, u + "  " + b);
      TokensOfToken(t, u + " " + b);
      RepeatedBlanksIgnored(u, b);
    }
  }
}
