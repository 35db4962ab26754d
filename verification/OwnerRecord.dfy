/** The owner record of a plaintext workspace: printing and parsing. */
module OwnerRecord {
  import opened Options
  import opened AsciiText

  const OWNER_RECORD_VERSION: string := "squallz-preview-v1"
  const MARKER_NAME: string := ".squallz-preview"
  const MAX_OWNER_RECORD_BYTES: nat := 512
  const MAX_PREVIEW_NAME_BYTES: nat := 255
  const MAX_PREVIEW_EXTENSION_BYTES: nat := 16

  const LIMIT32: nat := 0x1_0000_0000
  const LIMIT64: nat := 0x1_0000_0000_0000_0000
  const LIMIT128: nat := 0x1_0000_0000_0000_0000_0000_0000_0000_0000

  datatype Record = Record(workspace: string, token: string, fileName: Option<string>)

  /** Which names are portable. The code takes `WindowsPortable`; the protocol works with any rule. */
  type Portable = string -> bool

  // ----- what a record may hold -----

  predicate IsControl(c: char) { c < 0x20 as char || 0x7f as char <= c < 0xa0 as char }

  /** `safe_preview_name` */
  predicate SafeName(name: string, portable: Portable) {
    && name != "" && ByteLength(name) <= MAX_PREVIEW_NAME_BYTES
    && name != "." && name != ".." && LowerAll(name) != MARKER_NAME
    && '/' !in name && '\\' !in name
    && (forall i | 0 <= i < |name| :: !IsControl(name[i]))
    && portable(name)
  }

  /** `check_windows_portability`: no device name before the first dot, no illegal character, and no dot
      or space at the end. */
  predicate WindowsPortable(name: string) {
    && name != "" && !DeviceName(LowerAll(SplitOn(name, '.')[0]))
    && (forall i | 0 <= i < |name| :: name[i] !in "<>:\"|?*" && name[i] >= 0x20 as char)
    && name[|name| - 1] !in ". "
  }

  predicate DeviceName(stem: string) {
    || stem in ["con", "prn", "aux", "nul"]
    || (|stem| == 4 && stem[..3] in ["com", "lpt"] && '1' <= stem[3] <= '9')
  }

  predicate LowerHex(c: char) { IsDigit(c) || 'a' <= c <= 'f' }

  predicate ValidToken(token: string) { |token| == 48 && forall i | 0 <= i < |token| :: LowerHex(token[i]) }

  /** `valid_workspace_name` */
  predicate ValidWorkspace(name: string) {
    && |name| >= 10 && name[..10] == "workspace-"
    && var fields := SplitOn(name[10..], '-');
       |fields| == 3 && ParseUnsigned(fields[0], LIMIT32).Some? && ParseUnsigned(fields[1], LIMIT64).Some?
       && ParseUnsigned(fields[2], LIMIT128).Some?
  }

  predicate Valid(r: Record, portable: Portable) {
    ValidWorkspace(r.workspace) && ValidToken(r.token) && (r.fileName.Some? ==> SafeName(r.fileName.value, portable))
  }

  // ----- printing and parsing -----

  const NL: string := ['\n']

  /** `WorkspaceRecord::bytes`, as text. */
  function Print(r: Record): string {
    OWNER_RECORD_VERSION + NL + (r.workspace + NL + (r.token + NL + FileLine(r.fileName)))
  }

  function FileLine(name: Option<string>): string { if name.Some? then "file=" + name.value + NL else "" }

  /** `WorkspaceRecord::parse`; the text is unknown when the bytes are not UTF-8. */
  function Parse(text: Option<string>, expected: string, portable: Portable): Option<Record> {
    if text.None? then None
    else
      var lines := SplitOn(text.value, '\n');
      if |lines| < 4 || lines[0] != OWNER_RECORD_VERSION then None
      else
        var workspace, token := lines[1], lines[2];
        var file := ParseFile(lines[3..], portable);
        if file.None? || workspace != expected || !ValidWorkspace(workspace) || !ValidToken(token) then None
        else Some(Record(workspace, token, file.value))
  }

  /** The last lines: none, or one file and nothing after it. */
  function ParseFile(lines: seq<string>, portable: Portable): Option<Option<string>>
    requires |lines| > 0
  {
    if lines[0] == "" then (if |lines| == 1 then Some(None) else None)
    else if |lines[0]| < 5 || lines[0][..5] != "file=" then None
    else
      var name := lines[0][5..];
      if SafeName(name, portable) && |lines| == 2 && lines[1] == "" then Some(Some(name)) else None
  }

  /** `read_record`: a record that is too long is not read. */
  function ReadRecord(text: Option<string>, expected: string, portable: Portable): Option<Record> {
    if text.Some? && ByteLength(text.value) > MAX_OWNER_RECORD_BYTES then None else Parse(text, expected, portable)
  }

  // ----- round trips -----

  lemma {:induction false} JoinHasNo(parts: seq<string>, c: char, other: char)
    requires parts != [] && c != other && forall k | 0 <= k < |parts| :: other !in parts[k]
    ensures other !in JoinWith(parts, c)
  {
    if |parts| > 1 { JoinHasNo(parts[1..], c, other); }
  }

  lemma FieldHasNo(s: string, limit: nat, c: char)
    requires ParseUnsigned(s, limit).Some? && !IsDigit(c) && c != '+'
    ensures c !in s
  {
    if s[0] == '+' { assert s == [s[0]] + s[1..]; }
  }

  /** A valid workspace name is one line. */
  lemma WorkspaceIsOneLine(name: string)
    requires ValidWorkspace(name)
    ensures '\n' !in name
  {
    hide SplitOn, JoinWith, ParseUnsigned;
    var fields := SplitOn(name[10..], '-');
    FieldHasNo(fields[0], LIMIT32, '\n');
    FieldHasNo(fields[1], LIMIT64, '\n');
    FieldHasNo(fields[2], LIMIT128, '\n');
    JoinSplit(name[10..], '-');
    JoinHasNo(fields, '-', '\n');
    assert name == "workspace-" + name[10..];
  }

  /** What was printed is parsed to the same record. */
  lemma ParseOfPrint(r: Record, portable: Portable)
    requires Valid(r, portable)
    ensures Parse(Some(Print(r)), r.workspace, portable) == Some(r)
  {
    hide ValidWorkspace, SafeName, ParseFile, FileLine, Print, SplitOn;
    WorkspaceIsOneLine(r.workspace);
    var rest := SplitOn(FileLine(r.fileName), '\n');
    var lines := SplitOn(Print(r), '\n');
    LinesOfPrint(r);
    assert lines[3..] == rest;
    ParseFileOfPrint(r.fileName, portable);
  }

  lemma LinesOfPrint(r: Record)
    requires '\n' !in r.workspace && ValidToken(r.token)
    ensures SplitOn(Print(r), '\n') == [OWNER_RECORD_VERSION, r.workspace, r.token]
            + SplitOn(FileLine(r.fileName), '\n')
  {
    hide FileLine, SplitOn;
    var tail := FileLine(r.fileName);
    SplitFirst(OWNER_RECORD_VERSION, r.workspace + NL + (r.token + NL + tail), '\n');
    SplitFirst(r.workspace, r.token + NL + tail, '\n');
    SplitFirst(r.token, tail, '\n');
  }

  lemma ParseFileOfPrint(name: Option<string>, portable: Portable)
    requires name.Some? ==> SafeName(name.value, portable)
    ensures ParseFile(SplitOn(FileLine(name), '\n'), portable) == Some(name)
  {
    if name.Some? {
      var line := "file=" + name.value;
      assert '\n' !in line by { assert forall i | 0 <= i < |name.value| :: name.value[i] != '\n'; }
      assert FileLine(name) == line + ['\n'] + "";
      SplitFirst(line, "", '\n');
      assert line[..5] == "file=" && line[5..] == name.value;
    }
  }

  /** What can be parsed is exactly what would be printed, so a record names at most one file. */
  lemma PrintOfParse(text: Option<string>, expected: string, portable: Portable)
    requires Parse(text, expected, portable).Some?
    ensures var r := Parse(text, expected, portable).value;
            text == Some(Print(r)) && r.workspace == expected && Valid(r, portable)
  {
    hide ValidWorkspace, SafeName, ValidToken;
    var lines := SplitOn(text.value, '\n');
    var r := Parse(text, expected, portable).value;
    JoinSplit(text.value, '\n');
    JoinStep(lines);
    JoinStep(lines[1..]);
    JoinStep(lines[2..]);
    assert lines[1..][1..] == lines[2..] && lines[2..][1..] == lines[3..];
    PrintOfParseFile(lines[3..], portable);
  }

  lemma JoinStep(parts: seq<string>)
    requires |parts| > 1
    ensures JoinWith(parts, '\n') == parts[0] + NL + JoinWith(parts[1..], '\n')
  {
  }

  lemma PrintOfParseFile(lines: seq<string>, portable: Portable)
    requires |lines| > 0 && ParseFile(lines, portable).Some?
    ensures JoinWith(lines, '\n') == FileLine(ParseFile(lines, portable).value)
    ensures ParseFile(lines, portable).value.Some? ==> SafeName(ParseFile(lines, portable).value.value, portable)
  {
    hide SafeName;
    if lines[0] != "" {
      assert lines[0] == "file=" + lines[0][5..];
      assert lines[1..] == [""];
    }
  }

  // ----- records that were cut off -----

  /** Which beginnings of a printed record parse: all of it, and what ends right after the token line. */
  lemma PrefixesThatParse(r: Record, n: nat, portable: Portable)
    requires Valid(r, portable) && n <= |Print(r)|
    ensures Parse(Some(Print(r)[..n]), r.workspace, portable)
         == if n == |Print(r)| then Some(r)
            else if n == |Print(r.(fileName := None))| then Some(r.(fileName := None))
            else None
  {
    hide Parse, Print, ValidWorkspace, ValidToken, SafeName;
    var text, bare := Print(r)[..n], r.(fileName := None);
    ParseOfPrint(r, portable);
    ParseOfPrint(bare, portable);
    BareIsPrefix(r);
    if Parse(Some(text), r.workspace, portable).Some? {
      var q := Parse(Some(text), r.workspace, portable).value;
      PrintOfParse(Some(text), r.workspace, portable);
      PrintedPrefix(q, r, portable);
    }
    if n == |Print(r)| { assert text == Print(r); }
    if n == |Print(bare)| { assert text == Print(bare); }
  }

  lemma BareIsPrefix(r: Record)
    ensures Print(r.(fileName := None)) <= Print(r)
    ensures r.fileName.Some? ==> Print(r.(fileName := None)) < Print(r)
  {
    var head := OWNER_RECORD_VERSION + NL + (r.workspace + NL + (r.token + NL));
    assert Print(r) == head + FileLine(r.fileName) && Print(r.(fileName := None)) == head;
  }

  /** A printed record begins with another of its workspace only if that has no file name. */
  lemma PrintedPrefix(q: Record, r: Record, portable: Portable)
    requires Valid(q, portable) && Valid(r, portable) && q.workspace == r.workspace && Print(q) <= Print(r)
    ensures q == r || q == r.(fileName := None)
  {
    hide ValidWorkspace, SafeName, FileLine;
    var start := OWNER_RECORD_VERSION + NL + (r.workspace + NL);
    assert Print(q) == start + (q.token + NL + FileLine(q.fileName));
    assert Print(r) == start + (r.token + NL + FileLine(r.fileName));
    SameStart(start, q.token + NL + FileLine(q.fileName), r.token + NL + FileLine(r.fileName));
    assert q.token == (q.token + NL + FileLine(q.fileName))[..48] == (r.token + NL + FileLine(r.fileName))[..48];
    assert q.token + NL == r.token + NL;
    SameStart(q.token + NL, FileLine(q.fileName), FileLine(r.fileName));
    FileLinePrefix(q.fileName, r.fileName, portable);
  }

  lemma SameStart(start: string, a: string, b: string)
    requires start + a <= start + b
    ensures a <= b
  {
    assert a == (start + a)[|start|..] && b == (start + b)[|start|..];
    assert forall i | 0 <= i < |a| :: (start + a)[|start| + i] == a[i] && (start + b)[|start| + i] == b[i];
  }

  lemma FileLinePrefix(a: Option<string>, b: Option<string>, portable: Portable)
    requires a.Some? ==> SafeName(a.value, portable)
    requires b.Some? ==> SafeName(b.value, portable)
    requires FileLine(a) <= FileLine(b)
    ensures a == b || a.None?
  {
    if a.Some? {
      var x, y := "file=" + a.value, "file=" + b.value;
      assert FileLine(a) == x + NL && FileLine(b) == y + NL;
      assert '\n' !in y by { assert forall i | 0 <= i < |b.value| :: b.value[i] != '\n'; }
      assert (y + NL)[|x|] == (x + NL)[|x|] == '\n';
      forall i | 0 <= i < |x| ensures x[i] == y[i] { assert (x + NL)[i] == (y + NL)[i]; }
      assert x == y;
      assert a.value == x[5..] && b.value == y[5..];
    }
  }

  // ----- the records that are created -----

  function HexDigit(d: nat): char
    requires d < 16
  {
    if d < 10 then '0' + d as char else 'a' + (d - 10) as char
  }

  /** The last `width` hexadecimal digits. */
  function Hex(n: nat, width: nat): (s: string)
    ensures |s| == width && forall i | 0 <= i < |s| :: LowerHex(s[i])
  {
    if width == 0 then "" else Hex(n / 16, width - 1) + [HexDigit(n % 16)]
  }

  /** `WorkspaceRecord::new`, with the workspace name `create` gives it. */
  function NewRecord(pid: nat, sequence: nat, nanos: nat, fileName: Option<string>): Record {
    Record("workspace-" + (Decimal(pid) + "-" + (Decimal(sequence) + "-" + Decimal(nanos))),
           Hex(nanos, 32) + Hex(sequence, 16), fileName)
  }

  /** The last component of a path, unless that is a parent reference. */
  function LastComponent(parts: seq<string>): Option<string> {
    if parts == [] then None
    else
      var last := parts[|parts| - 1];
      if last == "" || last == "." then LastComponent(parts[..|parts| - 1]) else if last == ".." then None
      else Some(last)
  }

  /** It is the last component that is neither empty nor a dot, if that is no parent reference. */
  lemma {:induction false} LastComponentExactly(parts: seq<string>, c: string)
    ensures LastComponent(parts) == Some(c) <==>
            c != "" && c != "." && c != ".."
            && exists k | 0 <= k < |parts| ::
                 parts[k] == c && forall j | k < j < |parts| :: parts[j] == "" || parts[j] == "."
  {
    if parts != [] && (parts[|parts| - 1] == "" || parts[|parts| - 1] == ".") {
      var init := parts[..|parts| - 1];
      LastComponentExactly(init, c);
      if k :| 0 <= k < |init| && init[k] == c && forall j | k < j < |init| :: init[j] == "" || init[j] == "." {
        assert parts[k] == c;
        forall j | k < j < |parts| ensures parts[j] == "" || parts[j] == "." {
          assert j < |init| ==> parts[j] == init[j];
        }
      }
      if k :| 0 <= k < |parts| && parts[k] == c && c != "" && c != "."
              && forall j | k < j < |parts| :: parts[j] == "" || parts[j] == "." {
        assert init[k] == c;
      }
    }
  }

  function Extension(path: string): Option<string> {
    var name := LastComponent(SplitOn(path, '/'));
    if name.None? then None else PlainSplit(name.value).extension
  }

  function Pow16(width: nat): nat { if width == 0 then 1 else 16 * Pow16(width - 1) }

  lemma {:induction false} HexDecides(a: nat, b: nat, width: nat)
    requires a < Pow16(width) && b < Pow16(width) && Hex(a, width) == Hex(b, width)
    ensures a == b
  {
    if width > 0 {
      var s, t := Hex(a, width), Hex(b, width);
      assert s[..width - 1] == Hex(a / 16, width - 1) && t[..width - 1] == Hex(b / 16, width - 1);
      assert s[width - 1] == HexDigit(a % 16) && t[width - 1] == HexDigit(b % 16);
      HexDecides(a / 16, b / 16, width - 1);
    }
  }

  lemma {:induction false} PowSum16(a: nat, b: nat)
    ensures Pow16(a + b) == Pow16(a) * Pow16(b)
  {
    if b > 0 {
      PowSum16(a, b - 1);
      assert Pow16(a + b) == 16 * Pow16(a + b - 1);
    }
  }

  /** No two attempts have the same token: it decides sequence number and time. */
  lemma TokenDecides(pid: nat, sequence: nat, nanos: nat, otherPid: nat, otherSequence: nat, otherNanos: nat)
    requires sequence < LIMIT64 && nanos < LIMIT128 && otherSequence < LIMIT64 && otherNanos < LIMIT128
    requires NewRecord(pid, sequence, nanos, None).token == NewRecord(otherPid, otherSequence, otherNanos, None).token
    ensures sequence == otherSequence && nanos == otherNanos
  {
    hide Hex, Decimal, Pow16;
    assert Hex(nanos, 32) == (Hex(nanos, 32) + Hex(sequence, 16))[..32];
    assert Hex(otherNanos, 32) == (Hex(otherNanos, 32) + Hex(otherSequence, 16))[..32];
    assert Hex(sequence, 16) == (Hex(nanos, 32) + Hex(sequence, 16))[32..];
    assert Hex(otherSequence, 16) == (Hex(otherNanos, 32) + Hex(otherSequence, 16))[32..];
    Limits16();
    HexDecides(nanos, otherNanos, 32);
    HexDecides(sequence, otherSequence, 16);
  }

  lemma Limits16()
    ensures Pow16(16) == LIMIT64 && Pow16(32) == LIMIT128
  {
    assert Pow16(8) == 0x1_0000_0000;
    PowSum16(8, 8);
    PowSum16(16, 16);
  }

  /** `preview_file_name` */
  function PreviewFileName(display: string, portable: Portable): string {
    if SafeName(display, portable) then display
    else
      var extension := Extension(display);
      Fallback(if extension.Some? && PlainExtension(extension.value) then "." + LowerAll(extension.value) else "")
  }

  function Fallback(tail: string): string { "preview" + tail }

  predicate AlphaNumeric(c: char) { IsDigit(c) || 'a' <= c <= 'z' || 'A' <= c <= 'Z' }

  predicate PlainExtension(e: string) {
    e != "" && |e| <= MAX_PREVIEW_EXTENSION_BYTES && forall i | 0 <= i < |e| :: AlphaNumeric(e[i])
  }

  /** The name for a preview file is safe, whatever is to be displayed. */
  lemma PreviewNameIsSafe(display: string)
    ensures SafeName(PreviewFileName(display, WindowsPortable), WindowsPortable)
  {
    hide SafeName, Extension, PlainExtension, WindowsPortable, Fallback, LowerAll;
    if !SafeName(display, WindowsPortable) {
      var extension := Extension(display);
      if extension.Some? && PlainExtension(extension.value) {
        LowerStaysPlain(extension.value);
        TailOf(LowerAll(extension.value));
        FallbackIsSafe("." + LowerAll(extension.value));
      } else {
        FallbackIsSafe("");
      }
    }
  }

  /** What a safe name is for a file system: one component of at most 255 bytes that leads nowhere else
      and is not the marker's name, in any letter case. */
  lemma SafeNameIsOneComponent(name: string, portable: Portable)
    requires SafeName(name, portable)
    ensures name != "" && |name| <= ByteLength(name) <= 255 && name != "." && name != ".."
    ensures SplitOn(name, '/') == [name] && SplitOn(name, '\\') == [name]
    ensures LowerAll(name) != MARKER_NAME && name != MARKER_NAME
    ensures forall i | 0 <= i < |name| :: name[i] as int >= 32 && !(127 <= name[i] as int < 160)
  {
    hide ByteLength, SplitOn, LowerAll;
    SplitNone(name, '/');
    SplitNone(name, '\\');
    MarkerIsLower();
  }

  lemma MarkerIsLower()
    ensures MARKER_NAME == ".squallz-preview" && LowerAll(MARKER_NAME) == MARKER_NAME
  {
    assert forall i | 0 <= i < |MARKER_NAME| :: Lower(MARKER_NAME[i]) == MARKER_NAME[i];
  }

  /** A name of letters, digits, spaces, underscores, hyphens and parentheses. */
  predicate Ordinary(name: string) {
    && 5 <= |name| <= 255 && AlphaNumeric(name[0]) && name[|name| - 1] != ' '
    && forall i | 0 <= i < |name| :: AlphaNumeric(name[i]) || name[i] in " _-()"
  }

  /** Ordinary names are kept as they are. */
  lemma OrdinaryNamesAreKept(name: string)
    requires Ordinary(name)
    ensures PreviewFileName(name, WindowsPortable) == name
  {
    hide SafeName, Extension, PlainExtension, WindowsPortable, Fallback, LowerAll;
    OrdinaryIsSafe(name, WindowsPortable);
    OrdinaryIsPortable(name);
  }

  lemma OrdinaryIsPortable(name: string)
    requires Ordinary(name)
    ensures WindowsPortable(name)
  {
    hide DeviceName, SplitOn;
    OrdinaryLetters(name);
    SplitNone(name, '.');
    LongerThanDevices(LowerAll(name));
  }

  lemma OrdinaryLetters(name: string)
    requires Ordinary(name)
    ensures Ascii(name)
    ensures forall i | 0 <= i < |name| ::
              name[i] !in "<>:\"|?*./\\" && name[i] >= 0x20 as char && !IsControl(name[i])
  {
    forall i | 0 <= i < |name|
      ensures name[i] !in "<>:\"|?*./\\" && 0x20 as char <= name[i] < 0x7f as char
    {
      assert AlphaNumeric(name[i]) || name[i] in " _-()";
    }
  }

  lemma OrdinaryIsSafe(name: string, portable: Portable)
    requires Ordinary(name)
    ensures SafeName(name, portable) <==> portable(name)
  {
    hide ByteLength, IsControl;
    OrdinaryLetters(name);
    AsciiLength(name);
    assert LowerAll(name)[0] != '.' && MARKER_NAME[0] == '.';
    hide Ordinary;
  }

  lemma LongerThanDevices(stem: string)
    requires |stem| > 4
    ensures !DeviceName(stem)
  {
  }

  /** Whatever comes after its first dot, and in any letter case, a device name is not portable. */
  lemma DeviceNamesAreUnsafe(stem: string, tail: string)
    requires tail == "" || tail[0] == '.'
    requires LowerAll(stem) in {"con", "prn", "aux", "nul"}
             || exists d: char :: '1' <= d <= '9' && LowerAll(stem) in {"com" + [d], "lpt" + [d]}
    ensures !WindowsPortable(stem + tail) && !SafeName(stem + tail, WindowsPortable)
  {
    hide SplitOn, LowerAll;
    DeviceHasNoDot(LowerAll(stem));
    forall i | 0 <= i < |stem| ensures stem[i] != '.' {
      assert LowerAll(stem)[i] == Lower(stem[i]);
    }
    if tail == "" {
      assert stem + tail == stem;
      SplitNone(stem, '.');
    } else {
      assert stem + tail == stem + ['.'] + tail[1..];
      SplitFirst(stem, tail[1..], '.');
    }
  }

  lemma DeviceHasNoDot(s: string)
    requires s in {"con", "prn", "aux", "nul"}
             || exists d: char :: '1' <= d <= '9' && s in {"com" + [d], "lpt" + [d]}
    ensures DeviceName(s) && '.' !in s
  {
    if d: char :| '1' <= d <= '9' && s in {"com" + [d], "lpt" + [d]} {
      assert s[3] == d && (s[..3] == "com" || s[..3] == "lpt");
      assert forall i | 0 <= i < 3 :: s[i] == s[..3][i];
    }
  }

  /** What follows in a fallback name: nothing, or a plain extension. */
  predicate PlainTail(tail: string) { tail == "" || (tail[0] == '.' && PlainExtension(tail[1..])) }

  lemma TailOf(e: string)
    requires PlainExtension(e)
    ensures PlainTail("." + e)
  {
    assert ("." + e)[1..] == e;
  }

  lemma FallbackLetters(tail: string)
    requires PlainTail(tail)
    ensures var name := Fallback(tail);
            && 7 <= |name| <= 24 && name[0] == 'p' && AlphaNumeric(name[|name| - 1])
            && forall i | 0 <= i < |name| :: AlphaNumeric(name[i]) || name[i] == '.'
  {
    var name := Fallback(tail);
    forall i | 0 <= i < |name| ensures AlphaNumeric(name[i]) || name[i] == '.' {
      if i < 7 {
        assert name[i] == "preview"[i];
      } else {
        assert name[i] == tail[i - 7];
        assert i > 7 ==> name[i] == tail[1..][i - 8];
      }
    }
    assert tail != "" ==> name[|name| - 1] == tail[1..][|tail| - 2];
  }

  lemma FallbackStem(tail: string)
    requires PlainTail(tail)
    ensures SplitOn(Fallback(tail), '.')[0] == "preview"
  {
    hide SplitOn, PlainExtension;
    if tail == "" {
      assert Fallback(tail) == "preview";
      SplitNone("preview", '.');
    } else {
      assert Fallback(tail) == "preview" + ['.'] + tail[1..];
      SplitFirst("preview", tail[1..], '.');
    }
  }

  /** The fallback names are portable: `preview` with or without a plain extension. */
  lemma FallbackIsPortable(tail: string)
    requires PlainTail(tail)
    ensures WindowsPortable(Fallback(tail))
  {
    hide SplitOn, PlainTail, Fallback;
    FallbackLetters(tail);
    FallbackStem(tail);
    assert !DeviceName(LowerAll("preview"));
    hide DeviceName;
  }

  lemma LowerStaysPlain(e: string)
    requires PlainExtension(e)
    ensures PlainExtension(LowerAll(e))
  {
    var l := LowerAll(e);
    forall i | 0 <= i < |l| ensures AlphaNumeric(l[i]) { assert l[i] == Lower(e[i]) && AlphaNumeric(e[i]); }
  }

  lemma FallbackIsSafe(tail: string)
    requires PlainTail(tail)
    ensures SafeName(Fallback(tail), WindowsPortable)
  {
    hide WindowsPortable, PlainTail, Fallback;
    var name := Fallback(tail);
    FallbackIsPortable(tail);
    FallbackLetters(tail);
    assert Ascii(name);
    AsciiLength(name);
    assert LowerAll(name)[0] == 'p';
    assert MARKER_NAME[0] == '.';
  }

  lemma NewRecordIsValid(pid: nat, sequence: nat, nanos: nat, fileName: Option<string>, portable: Portable)
    requires pid < LIMIT32 && sequence < LIMIT64 && nanos < LIMIT128
    requires fileName.Some? ==> SafeName(fileName.value, portable)
    ensures Valid(NewRecord(pid, sequence, nanos, fileName), portable)
  {
    hide SafeName, Value, Decimal, Hex;
    var r := NewRecord(pid, sequence, nanos, fileName);
    var rest := Decimal(pid) + "-" + (Decimal(sequence) + "-" + Decimal(nanos));
    assert r.workspace[..10] == "workspace-" && r.workspace[10..] == rest;
    SplitFirst(Decimal(pid), Decimal(sequence) + "-" + Decimal(nanos), '-');
    SplitFirst(Decimal(sequence), Decimal(nanos), '-');
    SplitNone(Decimal(nanos), '-');
    DecimalParses(pid, LIMIT32);
    DecimalParses(sequence, LIMIT64);
    DecimalParses(nanos, LIMIT128);
  }

  lemma DecimalParses(n: nat, limit: nat)
    requires n < limit
    ensures ParseUnsigned(Decimal(n), limit) == Some(n)
  {
    ValueOfDecimal(n);
  }

  /** Each record that is created fits the limit and is read back as itself. */
  lemma NewRecordReadsBack(pid: nat, sequence: nat, nanos: nat, fileName: Option<string>, portable: Portable)
    requires pid < LIMIT32 && sequence < LIMIT64 && nanos < LIMIT128
    requires fileName.Some? ==> SafeName(fileName.value, portable)
    ensures var r := NewRecord(pid, sequence, nanos, fileName);
            ByteLength(Print(r)) <= MAX_OWNER_RECORD_BYTES
              && ReadRecord(Some(Print(r)), r.workspace, portable) == Some(r)
  {
    hide Valid, Parse, Print, NewRecord;
    NewRecordIsValid(pid, sequence, nanos, fileName, portable);
    ParseOfPrint(NewRecord(pid, sequence, nanos, fileName), portable);
    NewRecordFits(pid, sequence, nanos, fileName, portable);
  }

  lemma Powers()
    ensures LIMIT32 <= Pow10(10) && LIMIT64 <= Pow10(20) && LIMIT128 <= Pow10(39)
  {
    assert Pow10(10) == 10_000_000_000;
    PowSum(10, 10);
    PowSum(20, 10);
    PowSum(30, 9);
    assert Pow10(9) == 1_000_000_000;
    assert Pow10(20) == 100_000_000_000_000_000_000;
    assert Pow10(30) == 1_000_000_000_000_000_000_000_000_000_000;
  }

  lemma {:induction false} PowSum(a: nat, b: nat)
    ensures Pow10(a + b) == Pow10(a) * Pow10(b)
  {
    if b > 0 {
      PowSum(a, b - 1);
      assert Pow10(a + b) == 10 * Pow10(a + b - 1);
    }
  }

  lemma NewRecordFits(pid: nat, sequence: nat, nanos: nat, fileName: Option<string>, portable: Portable)
    requires pid < LIMIT32 && sequence < LIMIT64 && nanos < LIMIT128
    requires fileName.Some? ==> SafeName(fileName.value, portable)
    ensures ByteLength(Print(NewRecord(pid, sequence, nanos, fileName))) <= MAX_OWNER_RECORD_BYTES
  {
    hide Decimal, Hex, Pow10, ByteLength, SafeName;
    var r := NewRecord(pid, sequence, nanos, fileName);
    Powers();
    DecimalLength(pid, 10);
    DecimalLength(sequence, 20);
    DecimalLength(nanos, 39);
    assert |r.workspace| <= 81;
    AllAscii(pid, sequence, nanos);
    var head := OWNER_RECORD_VERSION + NL + (r.workspace + NL + (r.token + NL));
    assert Ascii(head);
    AsciiLength(head);
    assert Print(r) == head + FileLine(fileName);
    ByteLengthAppend(head, FileLine(fileName));
    FileLineLength(fileName, portable);
  }

  lemma AllAscii(pid: nat, sequence: nat, nanos: nat)
    ensures Ascii(Decimal(pid)) && Ascii(Decimal(sequence)) && Ascii(Decimal(nanos)) && Ascii(Hex(nanos, 32))
            && Ascii(Hex(sequence, 16))
  {
    hide Decimal, Hex;
  }

  lemma FileLineLength(name: Option<string>, portable: Portable)
    requires name.Some? ==> SafeName(name.value, portable)
    ensures ByteLength(FileLine(name)) <= MAX_PREVIEW_NAME_BYTES + 6
  {
    hide ByteLength;
    if name.Some? {
      ByteLengthAppend("file=" + name.value, NL);
      ByteLengthAppend("file=", name.value);
      AsciiLength("file=");
      AsciiLength(NL);
    } else {
      AsciiLength("");
    }
  }
}
