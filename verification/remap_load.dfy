/**
 * `events_remap_load` (minui/events_remap.c): turns the lines of a `.keys`
 * file into a remap table.
 *
 * A file is the sequence of lines `fgets` returns, each still carrying its
 * '\n' (the last line may lack it). A filesystem maps a path to its lines; a
 * path that is not in the map cannot be opened.
 */
module RemapLoad {
  import opened Options
  import opened Seqs
  import opened Text
  import opened InputCodes
  import opened RemapTable

  type FileSystem = map<string, seq<string>>

  /** Field width of the `%32s` conversion that reads the symbol. */
  const SYMBOL_WIDTH: nat := 32

  /** The literal symbol names and the key codes they stand for. */
  const Symbols: map<string, int> := map[
    "NONE" := KEY_RESERVED,
    "UP" := KEY_UP,
    "DOWN" := KEY_DOWN,
    "LEFT" := KEY_LEFT,
    "RIGHT" := KEY_RIGHT,
    "BACK" := KEY_BACK,
    "ENTER" := KEY_ENTER
  ]

  /**
   * `atoi` of a string that starts with a digit: the value of its leading
   * digits. With no leading digit it is 0; with k leading digits it is below 10^k.
   */
  function LeadingNumber(s: string): (v: nat)
    ensures DigitRun(s) == 0 ==> v == 0
    ensures v < Pow10(DigitRun(s))
  {
    var n := DigitRun(s);
    assert AllDigits(s[..n]) by {
      forall i | 0 <= i < n ensures IsDigit(s[..n][i]) {
        assert s[..n][i] == s[i];
      }
    }
    DigitsValueBound(s[..n]);
    DigitsValue(s[..n])
  }

  /**
   * `%d`: optional white space, an optional sign, at least one digit; yields
   * the value and the unread rest. The rest is a proper suffix of the input
   * and does not start with a digit: every digit is consumed.
   */
  function ScanInt(s: string): (r: Option<(int, string)>)
    ensures r.Some? ==> |r.value.1| < |s|
    ensures r.Some? ==> |r.value.1| == 0 || !IsDigit(r.value.1[0])
  {
    var t := SkipSpaces(s);
    var sign := if |t| > 0 && (t[0] == '-' || t[0] == '+') then 1 else 0;
    var u := t[sign..];
    var n := DigitRun(u);
    if n == 0 then None
    else
      var v: int := LeadingNumber(u);
      Some((if sign == 1 && t[0] == '-' then -v else v, u[n..]))
  }

  /** What `%d` leaves unread is the tail of its input. */
  lemma ScanIntRestIsSuffix(s: string)
    requires ScanInt(s).Some?
    ensures ScanInt(s).value.1 == s[|s| - |ScanInt(s).value.1|..]
  {
    var t := SkipSpaces(s);
    var sign := if |t| > 0 && (t[0] == '-' || t[0] == '+') then 1 else 0;
    var u := t[sign..];
    var n := DigitRun(u);
    assert u[n..] == s[|s| - |u[n..]|..];
  }

  /** `%Ns` with N = `width`: optional white space, then at most `width` non-white-space characters. */
  function ScanWord(s: string, width: nat): (w: Option<string>)
    ensures w.Some? ==> 1 <= |w.value| <= width || width == 0
    ensures w.Some? ==> forall i :: 0 <= i < |w.value| ==> !IsSpace(w.value[i])
  {
    var t := SkipSpaces(s);
    var n := WordRun(t);
    if n == 0 then None
    else
      var k := if n < width then n else width;
      assert forall i :: 0 <= i < k ==> t[..k][i] == t[i];
      Some(t[..k])
  }

  /**
   * `sscanf(line, "%d %32s", ...) == 2`: the key id `%d` reads, and a token of
   * 1 to 32 non-blank characters.
   */
  function ScanPair(line: string): (r: Option<(int, string)>)
    ensures r.Some? ==> 1 <= |r.value.1| <= SYMBOL_WIDTH
    ensures r.Some? ==> forall i :: 0 <= i < |r.value.1| ==> !IsSpace(r.value.1[i])
  {
    match ScanInt(line)
    case None => None
    case Some((id, rest)) =>
      match ScanWord(rest, SYMBOL_WIDTH)
      case None => None
      case Some(token) => Some((id, token))
  }

  /**
   * The override a symbol stands for: a token starting with a digit is a
   * number, otherwise it must be one of the literal names; anything else is
   * not an override.
   */
  function ResolveSymbol(token: string): (r: Option<int>)
    ensures r.Some? ==> r.value >= 0
    ensures r.Some? <==> (|token| > 0 && IsDigit(token[0])) || token in Symbols
  {
    if |token| > 0 && IsDigit(token[0]) then Some(LeadingNumber(token))
    else if token in Symbols then Some(Symbols[token])
    else None
  }

  /** The pair one line contributes, if any. */
  function ParseLine(raw: string): (r: Option<RemapKey>)
    ensures StripNewline(raw) == [] ==> r.None?
    ensures |StripNewline(raw)| > 0 && StripNewline(raw)[0] == '#' ==> r.None?
    ensures r.Some? ==> r.value.override >= 0
  {
    var line := StripNewline(raw);
    if |line| == 0 || line[0] == '#' then None
    else
      match ScanPair(line)
      case None => None
      case Some((id, token)) =>
        match ResolveSymbol(token)
        case None => None
        case Some(v) => Some(RemapKey(id, v))
  }

  /** Every pair the lines yield, in file order, before the capacity is applied. */
  function Entries(lines: seq<string>): seq<RemapKey> {
    FilterMap(ParseLine, lines)
  }

  /**
   * The table loaded from `path`: none when the file cannot be opened or
   * yields no pair, otherwise its first `MAX_KEYS` pairs.
   */
  function Load(fs: FileSystem, path: string): (r: Option<Table>)
    ensures r.Some? ==> WellFormed(r.value)
    ensures r.Some? ==> path in fs && r.value <= Entries(fs[path])
  {
    if path !in fs then None
    else
      var t := Take(Entries(fs[path]), MAX_KEYS);
      if |t| == 0 then None else Some(t)
  }

  /**
   * The reading loop: lines are consumed in order and reading stops as soon as
   * the table holds `MAX_KEYS` pairs. `consumed` counts the lines read.
   */
  method LoadLines(lines: seq<string>) returns (table: Table, consumed: nat)
    ensures consumed <= |lines|
    ensures table == Entries(lines[..consumed])
    ensures table == Take(Entries(lines), MAX_KEYS)
    ensures consumed < |lines| ==> |table| == MAX_KEYS
    ensures 0 < consumed ==> |Entries(lines[..consumed - 1])| < MAX_KEYS
  {
    table, consumed := CollectUpTo(ParseLine, lines, MAX_KEYS);
  }

  /** A file loads to none exactly when it cannot be opened or no line yields a pair. */
  lemma LoadNoneIff(fs: FileSystem, path: string)
    ensures Load(fs, path).None? <==> path !in fs || forall i :: 0 <= i < |fs[path]| ==> ParseLine(fs[path][i]).None?
  {
    if path in fs {
      FilterMapEmptyIff(ParseLine, fs[path]);
    }
  }

  /** Once the first lines fill the table, whatever follows them is never looked at. */
  lemma LoadIgnoresTail(head: seq<string>, tail: seq<string>)
    requires |Entries(head)| >= MAX_KEYS
    ensures Take(Entries(head + tail), MAX_KEYS) == Take(Entries(head), MAX_KEYS)
  {
    FilterMapConcat(ParseLine, head, tail);
  }

  /** A line that yields no pair (blank, comment, malformed) changes nothing wherever it stands. */
  lemma IgnoredLineAnywhere(before: seq<string>, line: string, after: seq<string>)
    requires ParseLine(line).None?
    ensures Entries(before + [line] + after) == Entries(before + after)
  {
    FilterMapSkipsRejected(ParseLine, before, line, after);
  }

  // ---------------------------------------------------------------------------
  // The line format read back: `<id> <token>` parses to what the token names.

  lemma {:induction false} DigitRunOf(d: string, rest: string)
    requires AllDigits(d)
    requires |rest| == 0 || !IsDigit(rest[0])
    ensures DigitRun(d + rest) == |d|
    decreases |d|
  {
    if |d| > 0 {
      assert (d + rest)[1..] == d[1..] + rest;
      DigitRunOf(d[1..], rest);
    }
  }

  lemma {:induction false} WordRunOf(w: string, rest: string)
    requires forall i :: 0 <= i < |w| ==> !IsSpace(w[i])
    requires |rest| == 0 || IsSpace(rest[0])
    ensures WordRun(w + rest) == |w|
    decreases |w|
  {
    if |w| > 0 {
      assert (w + rest)[1..] == w[1..] + rest;
      WordRunOf(w[1..], rest);
    }
  }

  lemma LeadingNumberOf(d: string, rest: string)
    requires AllDigits(d)
    requires |rest| == 0 || !IsDigit(rest[0])
    ensures LeadingNumber(d + rest) == DigitsValue(d)
  {
    DigitRunOf(d, rest);
    assert (d + rest)[..|d|] == d;
  }

  /** `%d` on digits followed by a rest that does not start with a digit. */
  lemma ScanIntUnsigned(d: string, rest: string)
    requires 1 <= |d| && AllDigits(d)
    requires |rest| == 0 || !IsDigit(rest[0])
    ensures ScanInt(d + rest) == Some((LeadingNumber(d + rest), rest))
  {
    var u := d + rest;
    assert SkipSpaces(u) == u;
    DigitRunOf(d, rest);
    assert u[|d|..] == rest;
    assert u[0..] == u;
  }

  /** `%d` on a minus sign, digits, and a rest that does not start with a digit. */
  lemma ScanIntNegative(d: string, rest: string)
    requires 1 <= |d| && AllDigits(d)
    requires |rest| == 0 || !IsDigit(rest[0])
    ensures ScanInt("-" + d + rest) == Some((-(LeadingNumber(d + rest) as int), rest))
  {
    var u := d + rest;
    var s := "-" + d + rest;
    assert s == ['-'] + u;
    assert s[0] == '-' && !IsSpace(s[0]);
    assert SkipSpaces(s) == s;
    assert s[1..] == u;
    DigitRunOf(d, rest);
    assert u[|d|..] == rest;
  }

  /** `%d` reads back a printed integer and stops where the digits stop. */
  lemma ScanIntOfDecimal(id: int, rest: string)
    requires |rest| == 0 || !IsDigit(rest[0])
    ensures ScanInt(IntToDecimal(id) + rest) == Some((id, rest))
  {
    var n: nat := if id < 0 then -id else id;
    var d := NatToDecimal(n);
    DecimalRoundTrip(n);
    LeadingNumberOf(d, rest);
    if id < 0 {
      ScanIntNegative(d, rest);
    } else {
      ScanIntUnsigned(d, rest);
    }
  }

  /** `%32s` reads back a token of at most 32 non-blank characters that follows a blank. */
  lemma ScanWordOfToken(token: string, rest: string)
    requires 1 <= |token| <= SYMBOL_WIDTH
    requires forall i :: 0 <= i < |token| ==> !IsSpace(token[i])
    requires |rest| == 0 || IsSpace(rest[0])
    ensures ScanWord(" " + token + rest, SYMBOL_WIDTH) == Some(token)
  {
    var s := " " + token + rest;
    assert s[1..] == token + rest;
    assert SkipSpaces(s) == SkipSpaces(token + rest);
    assert !IsSpace((token + rest)[0]);
    assert SkipSpaces(token + rest) == token + rest;
    WordRunOf(token, rest);
    assert (token + rest)[..|token|] == token;
  }

  lemma AppendEmpty(s: string)
    ensures s + "" == s
  {
  }

  /** A rule line is the id's digits followed by everything after them. */
  lemma RuleLineSplit(d: string, token: string, rest: string)
    ensures d + " " + token + rest + "\n" == d + (" " + token + rest) + "\n"
  {
  }

  /** Once `%d` has consumed the text before a blank, `%32s` reads the token after it. */
  lemma ScanPairAfterInt(a: string, id: int, token: string, rest: string)
    requires 1 <= |token| <= SYMBOL_WIDTH
    requires forall i :: 0 <= i < |token| ==> !IsSpace(token[i])
    requires |rest| == 0 || IsSpace(rest[0])
    requires ScanInt(a + (" " + token + rest)) == Some((id, " " + token + rest))
    ensures ScanPair(a + (" " + token + rest)) == Some((id, token))
  {
    ScanWordOfToken(token, rest);
  }

  /**
   * `"%d %32s"` reads back an id and a token written with one blank between
   * them; whatever follows the token after a blank is not read.
   */
  lemma ScanPairOf(id: int, token: string, rest: string)
    requires 1 <= |token| <= SYMBOL_WIDTH
    requires forall i :: 0 <= i < |token| ==> !IsSpace(token[i])
    requires |rest| == 0 || IsSpace(rest[0])
    ensures ScanPair(IntToDecimal(id) + (" " + token + rest)) == Some((id, token))
  {
    ScanIntOfDecimal(id, " " + token + rest);
    ScanPairAfterInt(IntToDecimal(id), id, token, rest);
  }

  /**
   * One rule line `<id> <token>`, possibly followed by a blank and any
   * comment: it yields the pair exactly when the token resolves. Only the
   * first two items of a line are read.
   */
  lemma ParseRuleLine(id: int, token: string, rest: string)
    requires 1 <= |token| <= SYMBOL_WIDTH
    requires forall i :: 0 <= i < |token| ==> !IsSpace(token[i])
    requires |rest| == 0 || IsSpace(rest[0])
    ensures ParseLine(IntToDecimal(id) + " " + token + rest + "\n")
         == (match ResolveSymbol(token) case Some(v) => Some(RemapKey(id, v)) case None => None)
  {
    var line := IntToDecimal(id) + (" " + token + rest);
    RuleLineSplit(IntToDecimal(id), token, rest);
    assert StripNewline(line + "\n") == line;
    assert line[0] == IntToDecimal(id)[0] != '#';
    ScanPairOf(id, token, rest);
  }

  /** The documented example `72 BACK # remap key with code 72 to KEY_BACK`: the comment is not read. */
  lemma CommentedRuleExample(id: int)
    ensures ParseLine(IntToDecimal(id) + " " + "BACK" + " # remap key with code 72 to KEY_BACK" + "\n") == Some(RemapKey(id, KEY_BACK))
  {
    var comment := " # remap key with code 72 to KEY_BACK";
    assert IsSpace(comment[0]);
    assert ResolveSymbol("BACK") == Some(KEY_BACK) by {
      assert !IsDigit("BACK"[0]);
    }
    SymbolNamesAreWords("BACK");
    ParseRuleLine(id, "BACK", comment);
  }

  // ---------------------------------------------------------------------------
  // Round trip: writing a table out as a `.keys` file and loading it back.

  /** The rule line for one pair, with its override written as a number. */
  function FormatKey(k: RemapKey): string
    requires k.override >= 0
  {
    IntToDecimal(k.id) + " " + NatToDecimal(k.override) + "\n"
  }

  predicate Formattable(t: Table) {
    forall j :: 0 <= j < |t| ==> 0 <= t[j].override < 0x1_0000
  }

  function Format(t: Table): seq<string>
    requires Formattable(t)
  {
    if |t| == 0 then [] else [FormatKey(t[0])] + Format(t[1..])
  }

  lemma {:induction false} DecimalLength(n: nat, k: nat)
    requires 1 <= k && n < Pow10(k)
    ensures |NatToDecimal(n)| <= k
  {
    if n >= 10 {
      DecimalLength(n / 10, k - 1);
    }
  }

  /** Every pair whose override is a 16-bit value is written as a line that reads back as that pair. */
  lemma FormatKeyParses(k: RemapKey)
    requires 0 <= k.override < 0x1_0000
    ensures ParseLine(FormatKey(k)) == Some(k)
  {
    var token := NatToDecimal(k.override);
    DecimalLength(k.override, 5);
    assert forall i :: 0 <= i < |token| ==> !IsSpace(token[i]) by {
      assert AllDigits(token);
    }
    ParseRuleLine(k.id, token, "");
    AppendEmpty(IntToDecimal(k.id) + " " + token);
    DigitRunOf(token, "");
    assert token + "" == token;
    assert token[..|token|] == token;
    DecimalRoundTrip(k.override);
  }

  /** The first line of a written-out table yields its first pair. */
  lemma EntriesOfFormatHead(t: Table)
    requires Formattable(t) && |t| > 0
    ensures Entries(Format(t)) == [t[0]] + Entries(Format(t[1..]))
  {
    var lines := Format(t);
    assert lines[0] == FormatKey(t[0]) && lines[1..] == Format(t[1..]);
    FormatKeyParses(t[0]);
    FilterMapKeptHead(ParseLine, lines, t[0]);
  }

  lemma {:induction false} EntriesOfFormat(t: Table)
    requires Formattable(t)
    ensures Entries(Format(t)) == t
  {
    if |t| > 0 {
      EntriesOfFormatHead(t);
      EntriesOfFormat(t[1..]);
    }
  }

  /** Loading the written-out form of a well-formed table gives the table back. */
  lemma LoadFormatRoundTrip(t: Table, path: string)
    requires WellFormed(t) && Formattable(t)
    ensures Load(map[path := Format(t)], path) == Some(t)
  {
    EntriesOfFormat(t);
  }

  /** The literal names are single words that do not start with a digit. */
  lemma SymbolNamesAreWords(name: string)
    requires name in Symbols
    ensures 1 <= |name| <= SYMBOL_WIDTH && !IsDigit(name[0])
    ensures forall i :: 0 <= i < |name| ==> !IsSpace(name[i])
  {
    if name == "NONE" {
    } else if name == "UP" {
    } else if name == "DOWN" {
    } else if name == "LEFT" {
    } else if name == "RIGHT" {
    } else if name == "BACK" {
    } else {
      assert name == "ENTER";
    }
  }

  /**
   * A file holding the single rule `<id> <NAME>`, such as `42 DOWN`, loads to
   * the one pair `(id, code of NAME)`.
   */
  lemma SingleSymbolRule(path: string, id: int, name: string)
    requires name in Symbols
    ensures Load(map[path := [IntToDecimal(id) + " " + name + "\n"]], path) == Some([RemapKey(id, Symbols[name])])
  {
    var line := IntToDecimal(id) + " " + name + "\n";
    assert ParseLine(line) == Some(RemapKey(id, Symbols[name])) by {
      SymbolNamesAreWords(name);
      ParseRuleLine(id, name, "");
      AppendEmpty(IntToDecimal(id) + " " + name);
    }
    FilterMapSingle(ParseLine, line);
  }

  /** The one-pair table `(id, v)` maps `id`, and no other key, to `v`; a negative id is never matched. */
  lemma SinglePairLookup(id: int, v: int, code: int)
    ensures RemapLookup([RemapKey(id, v)], code) == if id >= 0 && code == id then Some(v) else None
  {
    assert VisibleLength([RemapKey(id, v)]) == if id >= 0 then 1 else 0;
  }
}
