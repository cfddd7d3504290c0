/**
 The configuration file: config_save writes "key = value" lines, config_file_parse reads them
 back into a configuration that holds the Wii defaults. The line buffer that getline reuses
 from line to line is part of the model, because a last line without a newline is not
 terminated in it.
 */
module ConfigFile {
  import opened CText
  import opened CTypes

  // ---------------------------------------------------------------------------
  // The configuration
  // ---------------------------------------------------------------------------

  /** A char pointer. */
  datatype CStr = Null | Text(text: string)

  datatype Remote = Local | Remotely | AutoRemote
  datatype Speakers = Stereo | Surround51 | Surround71
  datatype Codec = AnyCodec | H264 | Hevc | Av1

  const MAX_INPUTS := 6
  const FIELD_LIMIT := 4095
  const KEY_LIMIT := 1023

  datatype Stream = Stream(
    width: int, height: int, fps: int, bitrate: int, packetSize: int, encryptionFlags: int,
    remote: Remote, speakers: Speakers)

  datatype Settings = Settings(
    stream: Stream, debugLevel: int, platform: string, app: string, address: CStr,
    configFile: CStr, audioDevice: CStr, keyDir: string, sops: bool, localaudio: bool, fullscreen: bool,
    unsupported: bool, quitappafter: bool, viewonly: bool, mouseEmulation: bool, rotate: int, codec: Codec,
    hdr: bool, pin: int, port: int, osdOverscan: int, tlsTest: CStr, inputs: seq<string>,
    inputAdded: bool, autostream: bool)

  /** What config_parse sets up on the Wii before it reads the file. */
  const DEFAULTS := Settings(
    Stream(640, 480, 30, -1, 1392, 0, AutoRemote, Stereo), 0, "auto", "Steam", Null, Null, Null, "/moonlight/keys",
    true, false, true, true, false, false, true, 0, H264, false, 0, 47989, 0, Null, [], false, false)

  /** Whether parsing goes on; it can end the program or call for another file. */
  datatype Status = Running | Exited | Includes(file: string)

  datatype Machine = Machine(s: Settings, status: Status)

  // ---------------------------------------------------------------------------
  // One key and value
  // ---------------------------------------------------------------------------

  /** strcasecmp(a, b) == 0. */
  predicate SameIgnoringCase(a: string, b: string) {
    |a| == |b| && forall i :: 0 <= i < |a| ==> Lower(a[i]) == Lower(b[i])
  }

  datatype LongOption = LongOption(name: string, hasArg: bool, val: char)

  const OPTIONS := 36

  /** The option table. */
  function OptionAt(i: nat): LongOption
    requires i < OPTIONS
  {
    match i
    case 0 => LongOption("720", false, 'a')
    case 1 => LongOption("1080", false, 'b')
    case 2 => LongOption("4k", false, '0')
    case 3 => LongOption("width", true, 'c')
    case 4 => LongOption("height", true, 'd')
    case 5 => LongOption("bitrate", true, 'g')
    case 6 => LongOption("packetsize", true, 'h')
    case 7 => LongOption("app", true, 'i')
    case 8 => LongOption("input", true, 'j')
    case 9 => LongOption("mapping", true, 'k')
    case 10 => LongOption("nosops", false, 'l')
    case 11 => LongOption("audio", true, 'm')
    case 12 => LongOption("localaudio", false, 'n')
    case 13 => LongOption("config", true, 'o')
    case 14 => LongOption("platform", true, 'p')
    case 15 => LongOption("save", true, 'q')
    case 16 => LongOption("keydir", true, 'r')
    case 17 => LongOption("remote", true, 's')
    case 18 => LongOption("windowed", false, 't')
    case 19 => LongOption("surround", true, 'u')
    case 20 => LongOption("fps", true, 'v')
    case 21 => LongOption("codec", true, 'x')
    case 22 => LongOption("nounsupported", false, 'y')
    case 23 => LongOption("quitappafter", false, '1')
    case 24 => LongOption("viewonly", false, '2')
    case 25 => LongOption("rotate", true, '3')
    case 26 => LongOption("verbose", false, 'z')
    case 27 => LongOption("debug", false, 'Z')
    case 28 => LongOption("autostream", false, 'C')
    case 29 => LongOption("nomouseemulation", false, '4')
    case 30 => LongOption("pin", true, '5')
    case 31 => LongOption("port", true, '6')
    case 32 => LongOption("hdr", false, '7')
    case 33 => LongOption("osd_overscan", true, '8')
    case 34 => LongOption("tls_test", true, '9')
    case _ => LongOption("encrypt", true, 'e')
  }

  /** The place of the option of a name in the table. */
  function IndexOf(name: string): Option<nat> {
    match name
    case "720" => Some(0)
    case "1080" => Some(1)
    case "4k" => Some(2)
    case "width" => Some(3)
    case "height" => Some(4)
    case "bitrate" => Some(5)
    case "packetsize" => Some(6)
    case "app" => Some(7)
    case "input" => Some(8)
    case "mapping" => Some(9)
    case "nosops" => Some(10)
    case "audio" => Some(11)
    case "localaudio" => Some(12)
    case "config" => Some(13)
    case "platform" => Some(14)
    case "save" => Some(15)
    case "keydir" => Some(16)
    case "remote" => Some(17)
    case "windowed" => Some(18)
    case "surround" => Some(19)
    case "fps" => Some(20)
    case "codec" => Some(21)
    case "nounsupported" => Some(22)
    case "quitappafter" => Some(23)
    case "viewonly" => Some(24)
    case "rotate" => Some(25)
    case "verbose" => Some(26)
    case "debug" => Some(27)
    case "autostream" => Some(28)
    case "nomouseemulation" => Some(29)
    case "pin" => Some(30)
    case "port" => Some(31)
    case "hdr" => Some(32)
    case "osd_overscan" => Some(33)
    case "tls_test" => Some(34)
    case "encrypt" => Some(35)
    case _ => None
  }

  function FlagsNamed(value: string, flags: int): int {
    if SameIgnoringCase(value, "none") then 0
    else if SameIgnoringCase(value, "audio") then 1
    else if SameIgnoringCase(value, "video") then 2
    else if SameIgnoringCase(value, "all") then 3
    else flags
  }

  function RemoteNamed(value: string, remote: Remote): Remote {
    if SameIgnoringCase(value, "auto") then AutoRemote
    else if SameIgnoringCase(value, "true") || SameIgnoringCase(value, "yes") then Remotely
    else if SameIgnoringCase(value, "false") || SameIgnoringCase(value, "no") then Local
    else remote
  }

  function SpeakersNamed(value: string, speakers: Speakers): Speakers {
    if SameIgnoringCase(value, "5.1") then Surround51
    else if SameIgnoringCase(value, "7.1") then Surround71
    else speakers
  }

  function CodecNamed(value: string, codec: Codec): Codec {
    if SameIgnoringCase(value, "auto") then AnyCodec
    else if SameIgnoringCase(value, "h264") then H264
    else if SameIgnoringCase(value, "h265") || SameIgnoringCase(value, "hevc") then Hevc
    else if SameIgnoringCase(value, "av1") then Av1
    else codec
  }

  function AppliedStream(c: char, value: string, s: Stream): Stream {
    match c
    case 'a' => s.(width := 1280, height := 720)
    case 'b' => s.(width := 1920, height := 1080)
    case '0' => s.(width := 3840, height := 2160)
    case 'c' => s.(width := Atoi(value))
    case 'd' => s.(height := Atoi(value))
    case 'g' => s.(bitrate := Atoi(value))
    case 'h' => s.(packetSize := Atoi(value))
    case 's' => s.(remote := RemoteNamed(value, s.remote))
    case 'u' => s.(speakers := SpeakersNamed(value, s.speakers))
    case 'v' => s.(fps := Atoi(value))
    case 'e' => s.(encryptionFlags := FlagsNamed(value, s.encryptionFlags))
    case _ => s
  }

  /** A mapping is not loaded on the Wii: its case falls into the one for nosops. */
  function AppliedSwitch(c: char, value: string, s: Settings): (r: Settings)
    ensures r.stream == s.stream && r.app == s.app && r.address == s.address && r.tlsTest == s.tlsTest
  {
    match c
    case 'k' => s.(sops := false)
    case 'l' => s.(sops := false)
    case 'n' => s.(localaudio := true)
    case 't' => s.(fullscreen := false)
    case 'x' => s.(codec := CodecNamed(value, s.codec))
    case 'y' => s.(unsupported := false)
    case '1' => s.(quitappafter := true)
    case '2' => s.(viewonly := true)
    case '3' => s.(rotate := Atoi(value))
    case 'z' => s.(debugLevel := 1)
    case 'Z' => s.(debugLevel := 2)
    case 'C' => s.(autostream := true)
    case '4' => s.(mouseEmulation := false)
    case '5' => s.(pin := Atoi(value))
    case '6' => s.(port := Atoi(value) % 0x1_0000)
    case '7' => s.(hdr := true)
    case '8' => s.(osdOverscan := Atoi(value))
    case _ => s
  }

  function AppliedText(c: char, value: string, s: Settings): (r: Settings)
    ensures r.stream == s.stream && r.address == s.address
    ensures r.app == (if c == 'i' then value else s.app) && r.tlsTest == (if c == '9' then Text(value) else s.tlsTest)
  {
    match c
    case 'i' => s.(app := value)
    case 'j' => if |s.inputs| >= MAX_INPUTS then s else s.(inputs := s.inputs + [value], inputAdded := true)
    case 'm' => s.(audioDevice := Text(value))
    case 'p' => s.(platform := value)
    case 'q' => s.(configFile := Text(value))
    case 'r' => s.(keyDir := value)
    case '9' => s.(tlsTest := Text(value))
    case _ => s
  }

  predicate IsStreamOption(c: char) {
    c == 'a' || c == 'b' || c == '0' || c == 'c' || c == 'd' || c == 'g' || c == 'h' || c == 's' || c == 'u' ||
    c == 'v' || c == 'e'
  }

  predicate IsTextOption(c: char) {
    c == 'i' || c == 'j' || c == 'm' || c == 'p' || c == 'q' || c == 'r' || c == '9'
  }

  /** What an option changes: the stream parameters, a text, or something else. */
  function Applied(c: char, value: string, s: Settings): Settings {
    if IsStreamOption(c) then s.(stream := AppliedStream(c, value, s.stream))
    else if IsTextOption(c) then AppliedText(c, value, s)
    else AppliedSwitch(c, value, s)
  }

  function StatusAfter(c: char, value: string, s: Settings): Status {
    if c == 'j' && |s.inputs| >= MAX_INPUTS then Exited else if c == 'o' then Includes(value) else Running
  }

  function ApplyOption(o: LongOption, value: string, m: Machine): Machine {
    if o.hasArg then Machine(Applied(o.val, value, m.s), StatusAfter(o.val, value, m.s))
    else if value == "true" then Machine(Applied(o.val, "", m.s), StatusAfter(o.val, "", m.s))
    else m
  }

  /** One key and value: address and sops are handled first, everything else is an option. */
  function ApplyKey(key: string, value: string, m: Machine): Machine {
    if m.status != Running then m
    else if key == "address" then m.(s := m.s.(address := Text(value)))
    else if key == "sops" then m.(s := m.s.(sops := value == "true"))
    else
      match IndexOf(key)
      case None => m
      case Some(i) => if i < OPTIONS then ApplyOption(OptionAt(i), value, m) else m
  }

  // ---------------------------------------------------------------------------
  // One line
  // ---------------------------------------------------------------------------

  datatype Scanned = NoMatch | KeyValue(key: string, value: string)

  /** The non-blank characters at the head of `s`, at most `limit` of them. */
  function Word(s: string, limit: nat): string {
    if s == "" || limit == 0 || IsSpace(s[0]) then "" else [s[0]] + Word(s[1..], limit - 1)
  }

  /** The characters before the first newline, at most `limit` of them. */
  function RestOfLine(s: string, limit: nat): (r: string)
    ensures |r| <= limit && r <= s && '\n' !in r
  {
    if s == "" || limit == 0 || s[0] == '\n' then "" else [s[0]] + RestOfLine(s[1..], limit - 1)
  }

  /** sscanf(line, "%1023s = %4095[^\n]", key, value), where only two conversions count. */
  function Scan(line: string): Scanned {
    var key := Word(SkipSpaces(line), KEY_LIMIT);
    if key == "" || |SkipSpaces(line)| < |key| then NoMatch
    else
      var sign := SkipSpaces(SkipSpaces(line)[|key|..]);
      if sign == "" || sign[0] != '=' then NoMatch
      else
        var value := RestOfLine(SkipSpaces(sign[1..]), FIELD_LIMIT);
        if value == "" then NoMatch else KeyValue(key, value)
  }

  function ApplyLine(line: string, m: Machine): Machine {
    match Scan(line)
    case NoMatch => m
    case KeyValue(key, value) => ApplyKey(key, value, m)
  }

  // ---------------------------------------------------------------------------
  // The whole file
  // ---------------------------------------------------------------------------

  /** The first line of a text, with its newline if it has one. */
  function FirstLine(text: string): (r: string)
    ensures r <= text && (text != "" ==> r != "")
  {
    if text == "" then "" else if text[0] == '\n' then "\n" else [text[0]] + FirstLine(text[1..])
  }

  predicate Ended(line: string) { line != "" && line[|line| - 1] == '\n' }

  /** A buffer whose front was overwritten. */
  function Over(front: string, buffer: string): string {
    front + if |front| <= |buffer| then buffer[|front|..] else ""
  }

  function PutAt(buffer: string, ptr: nat, c: char): string
    requires ptr <= |buffer|
  {
    if ptr < |buffer| then buffer[ptr := c] else buffer + [c]
  }

  /** The line buffer after a line was read into it: only a line that ended in a newline is terminated. */
  function Overlay(line: string, buffer: string): string {
    Over(if Ended(line) then line + ['\0'] else line, buffer)
  }

  /** config_file_parse, with what the line buffer holds. */
  function ParseText(text: string, buffer: string, m: Machine): Machine
    decreases |text|
  {
    if text == "" || m.status != Running then m
    else
      var line := FirstLine(text);
      var after := Overlay(line, buffer);
      ParseText(text[|line|..], after, ApplyLine(CString(after), m))
  }

  datatype Entry = Entry(key: string, value: string)

  function Line(e: Entry): string { e.key + " = " + e.value + "\n" }

  function Rendered(es: seq<Entry>): string { if es == [] then "" else Line(es[0]) + Rendered(es[1..]) }

  function When(present: bool, key: string, value: string): seq<Entry> {
    if present then [Entry(key, value)] else []
  }

  function WhenText(key: string, t: CStr): seq<Entry> { if t.Text? then [Entry(key, t.text)] else [] }

  function FlagsString(flags: int): string {
    var audio, video := flags % 2 == 1, flags / 2 % 2 == 1;
    if audio && video then "all" else if video then "video" else if audio then "audio" else "none"
  }

  /** The lines config_save always writes, after the address if there is one. */
  function Numbers(s: Settings): seq<Entry> {
    WhenText("address", s.address) +
    When(true, "width", PrintInt(s.stream.width)) + When(true, "height", PrintInt(s.stream.height)) +
    When(true, "fps", PrintInt(s.stream.fps)) + When(true, "bitrate", PrintInt(s.stream.bitrate)) +
    When(true, "packetsize", PrintInt(s.stream.packetSize)) + When(true, "encrypt", FlagsString(s.stream.encryptionFlags))
  }

  /** All the lines config_save writes, in order. */
  function Entries(s: Settings): seq<Entry> {
    Numbers(s) +
    When(!s.sops, "sops", "false") + When(s.localaudio, "localaudio", "true") +
    When(s.quitappafter, "quitappafter", "true") + When(s.viewonly, "viewonly", "true") +
    When(s.rotate != 0, "rotate", PrintInt(s.rotate)) + When(s.osdOverscan != 0, "osd_overscan", PrintInt(s.osdOverscan)) +
    When(s.app != "Steam", "app", s.app) + WhenText("tls_test", s.tlsTest)
  }

  // ---------------------------------------------------------------------------
  // The program
  // ---------------------------------------------------------------------------

  /** getline over the text of a file. `buffer` starts as whatever the allocator left there. */
  class LineReader {
    const text: string
    var pos: nat
    var buffer: string

    ghost predicate Valid()
      reads this
    {
      pos <= |text|
    }

    constructor (text: string, heap: string)
      ensures Valid() && this.text == text && pos == 0 && buffer == heap
    {
      this.text := text;
      pos, buffer := 0, heap;
    }

    method Put(ptr: nat, c: char)
      requires ptr <= |buffer|
      modifies this`buffer
      ensures buffer == PutAt(old(buffer), ptr, c)
    {
      buffer := if ptr < |buffer| then buffer[ptr := c] else buffer + [c];
    }

    method GetLine() returns (more: bool)
      requires Valid()
      modifies this
      ensures Valid() && more == (old(pos) < |text|)
      ensures !more ==> pos == old(pos) && buffer == old(buffer)
      ensures more ==> var line := FirstLine(text[old(pos)..]);
                       text[pos..] == text[old(pos)..][|line|..] && buffer == Overlay(line, old(buffer))
    {
      hide FirstLine, PutAt, Over, Overlay, Ended;
      ghost var start, before, done := text[pos..], buffer, "";
      var ptr := 0;
      OverNothing(buffer);
      while true
        invariant 0 <= ptr == |done| && Valid() && pos == old(pos) + ptr
        invariant buffer == Over(done, before) && '\n' !in done && start == done + text[pos..]
        decreases |text| - pos
      {
        OverLength(done, before);
        if pos == |text| {
          UnendedIsRead(done, before);
          assert start == done;
          return ptr != 0;
        }
        var c := text[pos];
        TakeChar(start, done, text, pos);
        PutOver(done, before, c);
        Put(ptr, c);
        done := done + [c];
        pos := pos + 1;
        ptr := ptr + 1;
        if c == '\n' {
          EndedIsRead(done, text[pos..], before);
          OverLength(done, before);
          PutOver(done, before, '\0');
          Put(ptr, '\0');
          return true;
        }
      }
    }
  }

  class Configuration {
    var s: Settings
    var status: Status

    constructor ()
      ensures s == DEFAULTS && status == Running
    {
      s, status := DEFAULTS, Running;
    }

    /** The scan of the option table for a key: the loop does not stop at a match, but there is at most one. */
    method ParseKey(key: string, value: string)
      requires status == Running
      modifies this
      ensures Machine(s, status) == ApplyKey(key, value, old(Machine(s, status)))
    {
      hide Applied, StatusAfter, OptionAt, IndexOf;
      if key == "address" {
        s := s.(address := Text(value));
      } else if key == "sops" {
        s := s.(sops := value == "true");
      } else {
        ghost var first := IndexOf(key);
        if first.Some? {
          IndexIsEntry(key);
        }
        var i := 0;
        while i < OPTIONS && status == Running
          invariant 0 <= i <= OPTIONS
          invariant first.None? || i <= first.value ==> s == old(s) && status == Running
          invariant first.Some? && first.value < i ==> Machine(s, status) == ApplyKey(key, value, old(Machine(s, status)))
        {
          var o := OptionAt(i);
          if o.name == key {
            IndexOfEntry(i);
            if o.hasArg {
              s, status := Applied(o.val, value, s), StatusAfter(o.val, value, s);
            } else if value == "true" {
              s, status := Applied(o.val, "", s), StatusAfter(o.val, "", s);
            }
          }
          i := i + 1;
        }
      }
    }

    /** config_file_parse; `file` is Null when it cannot be opened. */
    method ParseFile(file: CStr, heap: string) returns (ok: bool)
      requires status == Running
      modifies this
      ensures ok == file.Text?
      ensures Machine(s, status) == if ok then ParseText(file.text, heap, old(Machine(s, status))) else old(Machine(s, status))
    {
      hide Scan, ApplyKey, CString;
      if file.Null? {
        return false;
      }
      var reader := new LineReader(file.text, heap);
      assert file.text[0..] == file.text;
      while status == Running
        invariant reader.Valid() && reader.text == file.text && fresh(reader)
        invariant ParseText(reader.text[reader.pos..], reader.buffer, Machine(s, status)) ==
                  ParseText(file.text, heap, old(Machine(s, status)))
        decreases |reader.text| - reader.pos, if status == Running then 1 else 0
      {
        ghost var rest := reader.text[reader.pos..];
        var more := reader.GetLine();
        if !more {
          break;
        }
        var scanned := Scan(CString(reader.buffer));
        if scanned.KeyValue? {
          ParseKey(scanned.key, scanned.value);
        }
      }
      return true;
    }

    /** config_save. */
    method Save() returns (file: string)
      ensures file == Rendered(Entries(s))
    {
      hide Rendered, PrintInt, FlagsString, WhenText, When;
      ghost var es: seq<Entry> := [];
      RenderedEmpty();
      file := "";
      file, es := WriteText(file, es, "address", s.address);
      assert es == WhenText("address", s.address);
      file, es := Write(file, es, true, "width", PrintInt(s.stream.width));
      file, es := Write(file, es, true, "height", PrintInt(s.stream.height));
      file, es := Write(file, es, true, "fps", PrintInt(s.stream.fps));
      file, es := Write(file, es, true, "bitrate", PrintInt(s.stream.bitrate));
      file, es := Write(file, es, true, "packetsize", PrintInt(s.stream.packetSize));
      file, es := Write(file, es, true, "encrypt", FlagsString(s.stream.encryptionFlags));
      assert es == Numbers(s);
      file, es := Write(file, es, !s.sops, "sops", "false");
      file, es := Write(file, es, s.localaudio, "localaudio", "true");
      file, es := Write(file, es, s.quitappafter, "quitappafter", "true");
      file, es := Write(file, es, s.viewonly, "viewonly", "true");
      file, es := Write(file, es, s.rotate != 0, "rotate", PrintInt(s.rotate));
      file, es := Write(file, es, s.osdOverscan != 0, "osd_overscan", PrintInt(s.osdOverscan));
      file, es := Write(file, es, s.app != "Steam", "app", s.app);
      file, es := WriteText(file, es, "tls_test", s.tlsTest);
    }

    /** One line, if it is to be written, with the ghost list of the lines written so far. */
    static method Write(file: string, ghost es: seq<Entry>, present: bool, key: string, value: string)
      returns (file': string, ghost es': seq<Entry>)
      requires file == Rendered(es)
      ensures es' == es + When(present, key, value) && file' == Rendered(es')
    {
      file', es' := file, es;
      if present {
        file' := file + key + " = " + value + "\n";
        es' := es + [Entry(key, value)];
        RenderedPush(es, Entry(key, value));
      }
    }

    static method WriteText(file: string, ghost es: seq<Entry>, key: string, value: CStr)
      returns (file': string, ghost es': seq<Entry>)
      requires file == Rendered(es)
      ensures es' == es + WhenText(key, value) && file' == Rendered(es')
    {
      file', es' := file, es;
      if value.Text? {
        file', es' := Write(file, es, true, key, value.text);
      }
    }
  }

  // ---------------------------------------------------------------------------
  // The option table
  // ---------------------------------------------------------------------------

  lemma IndexOfEntry(i: nat)
    requires i < OPTIONS
    ensures IndexOf(OptionAt(i).name) == Some(i)
  {
  }

  lemma IndexIsEntry(name: string)
    requires IndexOf(name).Some?
    ensures IndexOf(name).value < OPTIONS && OptionAt(IndexOf(name).value).name == name
  {
  }

  /** No two entries of the table have the same name. */
  lemma OneEntryPerName(i: nat, j: nat)
    requires i < OPTIONS && j < OPTIONS && OptionAt(i).name == OptionAt(j).name
    ensures i == j
  {
    hide OptionAt, IndexOf;
    IndexOfEntry(i);
    IndexOfEntry(j);
  }

  // ---------------------------------------------------------------------------
  // Lines
  // ---------------------------------------------------------------------------

  lemma {:induction false} FirstLineIs(line: string, rest: string)
    requires rest != "" ==> Ended(line)
    requires forall i :: 0 <= i < |line| - 1 ==> line[i] != '\n'
    ensures FirstLine(line + rest) == line
  {
    if line != "" && line[0] != '\n' {
      assert (line + rest)[1..] == line[1..] + rest;
      FirstLineIs(line[1..], rest);
    } else if line != "" {
      assert line == "\n";
    } else {
      assert line + rest == "";
    }
  }

  lemma TakeChar(start: string, done: string, text: string, pos: nat)
    requires pos < |text| && start == done + text[pos..]
    ensures start == done + [text[pos]] + text[pos + 1..]
  {
    assert text[pos..] == [text[pos]] + text[pos + 1..];
  }

  lemma UnendedIsRead(line: string, buffer: string)
    requires '\n' !in line
    ensures FirstLine(line) == line && Overlay(line, buffer) == Over(line, buffer)
  {
    FirstLineIs(line, "");
    assert line + "" == line;
  }

  lemma EndedIsRead(line: string, rest: string, buffer: string)
    requires line != "" && line[|line| - 1] == '\n' && '\n' !in line[..|line| - 1]
    ensures FirstLine(line + rest) == line && Overlay(line, buffer) == Over(line + ['\0'], buffer)
    ensures (line + rest)[|line|..] == rest
  {
    assert forall i :: 0 <= i < |line| - 1 ==> line[i] == line[..|line| - 1][i];
    FirstLineIs(line, rest);
  }

  lemma OverNothing(buffer: string)
    ensures Over("", buffer) == buffer
  {
  }

  lemma OverLength(front: string, buffer: string)
    ensures |front| <= |Over(front, buffer)|
  {
  }

  lemma PutOver(front: string, buffer: string, c: char)
    requires |front| <= |Over(front, buffer)|
    ensures PutAt(Over(front, buffer), |front|, c) == Over(front + [c], buffer)
  {
  }

  lemma RenderedEmpty()
    ensures Rendered([]) == ""
  {
  }

  lemma {:induction false} RenderedPush(es: seq<Entry>, e: Entry)
    ensures Rendered(es + [e]) == Rendered(es) + Line(e)
  {
    if es == [] {
      assert [e][1..] == [];
    } else {
      assert (es + [e])[1..] == es[1..] + [e];
      RenderedPush(es[1..], e);
    }
  }

  // ---------------------------------------------------------------------------
  // Reading back what was written
  // ---------------------------------------------------------------------------

  /** A string the file format can carry as a value. */
  predicate Storable(s: string) {
    s != "" && |s| <= FIELD_LIMIT && !IsSpace(s[0]) && '\n' !in s
  }

  predicate IsKey(s: string) {
    s != "" && |s| <= KEY_LIMIT && NoNul(s) && forall i :: 0 <= i < |s| ==> !IsSpace(s[i])
  }

  lemma {:induction false} WordOf(word: string, rest: string, limit: nat)
    requires |word| <= limit && (rest == "" || IsSpace(rest[0]))
    requires forall i :: 0 <= i < |word| ==> !IsSpace(word[i])
    ensures Word(word + rest, limit) == word
  {
    if word == "" {
      assert word + rest == rest;
    } else {
      assert (word + rest)[1..] == word[1..] + rest;
      WordOf(word[1..], rest, limit - 1);
    }
  }

  lemma {:induction false} RestOfLineOf(value: string, rest: string, limit: nat)
    requires |value| <= limit && (rest == "" || rest[0] == '\n') && '\n' !in value
    ensures RestOfLine(value + rest, limit) == value
  {
    if value == "" {
      assert value + rest == rest;
    } else {
      assert (value + rest)[1..] == value[1..] + rest;
      assert '\n' !in value[1..];
      RestOfLineOf(value[1..], rest, limit - 1);
    }
  }

  lemma NoBlankToSkip(s: string)
    requires s == "" || !IsSpace(s[0])
    ensures SkipSpaces(s) == s && SkipSpaces(" " + s) == s
  {
    assert (" " + s)[1..] == s;
  }

  lemma RestOfLineStarts(s: string, limit: nat)
    requires limit > 0 && s != "" && !IsSpace(s[0])
    ensures RestOfLine(s, limit) != ""
  {
  }

  /** What follows the sign is the value, up to the end of the line or the field limit. */
  lemma ScanEntry(key: string, tail: string)
    requires IsKey(key) && tail != "" && !IsSpace(tail[0])
    ensures Scan(key + " = " + tail) == KeyValue(key, RestOfLine(tail, FIELD_LIMIT)) && RestOfLine(tail, FIELD_LIMIT) != ""
  {
    hide Word, SkipSpaces, RestOfLine, IsKey;
    RestOfLineStarts(tail, FIELD_LIMIT);
    var sign := "= " + tail;
    EntryParts(key, tail);
    KeyStarts(key, " " + sign);
    NoBlankToSkip(key + (" " + sign));
    NoBlankToSkip(sign);
    NoBlankToSkip(tail);
  }

  lemma EntryParts(key: string, tail: string)
    ensures key + " = " + tail == key + (" " + ("= " + tail)) && ("= " + tail)[0] == '=' && ("= " + tail)[1..] == " " + tail
  {
  }

  lemma KeyStarts(key: string, rest: string)
    requires IsKey(key) && rest != "" && IsSpace(rest[0])
    ensures key != "" && !IsSpace((key + rest)[0])
    ensures Word(key + rest, KEY_LIMIT) == key && (key + rest)[|key|..] == rest
  {
    hide Word;
    WordOf(key, rest, KEY_LIMIT);
  }

  /** A line made of a key and a storable value is split into exactly these. */
  lemma ScanOf(key: string, value: string, rest: string)
    requires IsKey(key) && Storable(value) && (rest == "" || rest[0] == '\n')
    ensures Scan(key + " = " + value + rest) == KeyValue(key, value)
  {
    hide Scan, RestOfLine;
    var tail := value + rest;
    assert key + " = " + value + rest == key + " = " + tail;
    ScanEntry(key, tail);
    RestOfLineOf(value, rest, FIELD_LIMIT);
  }

  /** Whatever the file holds, a value taken from it is storable. */
  lemma ScannedIsStorable(line: string)
    requires NoNul(line)
    ensures Scan(line).KeyValue? ==> Storable(Scan(line).value) && NoNul(Scan(line).value)
  {
    hide Word, SkipSpaces, RestOfLine;
    if Scan(line).KeyValue? {
      var t := SkipSpaces(line);
      var sign := SkipSpaces(t[|Word(t, KEY_LIMIT)|..]);
      SkipSpacesLeaves(line);
      SkipSpacesLeaves(t[|Word(t, KEY_LIMIT)|..]);
      SkipSpacesLeaves(sign[1..]);
    }
  }

  lemma {:induction false} SkipSpacesLeaves(s: string)
    requires NoNul(s)
    ensures var r := SkipSpaces(s); NoNul(r) && (r == "" || !IsSpace(r[0]))
  {
    if s != "" && IsSpace(s[0]) {
      SkipSpacesLeaves(s[1..]);
    }
  }

  /** The effect of a list of keys and values. */
  function Replay(es: seq<Entry>, m: Machine): Machine {
    if es == [] then m else Replay(es[1..], ApplyKey(es[0].key, es[0].value, m))
  }

  ghost predicate Clean(es: seq<Entry>) {
    forall i :: 0 <= i < |es| ==> IsKey(es[i].key) && Storable(es[i].value) && NoNul(es[i].value)
  }

  lemma ReadLine(e: Entry, rest: string, buffer: string)
    requires IsKey(e.key) && Storable(e.value) && NoNul(e.value)
    ensures FirstLine(Line(e) + rest) == Line(e)
    ensures Scan(CString(Overlay(Line(e), buffer))) == KeyValue(e.key, e.value)
  {
    hide FirstLine, Scan, CString;
    var line := Line(e);
    FirstLineIs(line, rest);
    var tail := if |line| + 1 <= |buffer| then buffer[|line| + 1..] else "";
    assert Overlay(line, buffer) == line + (['\0'] + tail);
    CStringOf(line, ['\0'] + tail);
    ScanOf(e.key, e.value, "\n");
  }

  /** Reading written lines applies them one by one, whatever the line buffer held. */
  lemma {:induction false} ReadBack(es: seq<Entry>, buffer: string, m: Machine)
    requires Clean(es)
    ensures ParseText(Rendered(es), buffer, m) == Replay(es, m)
  {
    hide FirstLine, Scan, CString, Overlay, Line;
    if m.status != Running {
      ReplayStopped(es, m);
    } else if es != [] {
      var rest := Rendered(es[1..]);
      ReadLine(es[0], rest, buffer);
      assert (Line(es[0]) + rest)[|Line(es[0])|..] == rest;
      var after := Overlay(Line(es[0]), buffer);
      LineNotEmpty(es[0]);
      ReadBack(es[1..], after, ApplyLine(CString(after), m));
    }
  }

  lemma LineNotEmpty(e: Entry)
    ensures Line(e) != ""
  {
  }

  lemma {:induction false} ReplayStopped(es: seq<Entry>, m: Machine)
    requires m.status != Running
    ensures Replay(es, m) == m
  {
    if es != [] {
      ReplayStopped(es[1..], m);
    }
  }

  lemma {:induction false} ReplayAppend(es: seq<Entry>, fs: seq<Entry>, m: Machine)
    ensures Replay(es + fs, m) == Replay(fs, Replay(es, m))
  {
    if es == [] {
      assert es + fs == fs;
    } else {
      assert (es + fs)[1..] == es[1..] + fs;
      ReplayAppend(es[1..], fs, ApplyKey(es[0].key, es[0].value, m));
    }
  }

  lemma ReplayWhen(es: seq<Entry>, present: bool, key: string, value: string, m: Machine)
    ensures Replay(es + When(present, key, value), m) ==
            if present then ApplyKey(key, value, Replay(es, m)) else Replay(es, m)
  {
    hide ApplyKey;
    ReplayAppend(es, When(present, key, value), m);
    if present {
      assert [Entry(key, value)][1..] == [];
    }
  }

  // ---------------------------------------------------------------------------
  // The keys that are saved
  // ---------------------------------------------------------------------------

  lemma OptionKey(k: nat, o: LongOption, value: string, m: Machine)
    requires m.status == Running && k < OPTIONS && OptionAt(k) == o
    requires o.name != "address" && o.name != "sops"
    ensures ApplyKey(o.name, value, m) == ApplyOption(o, value, m)
  {
    hide OptionAt, IndexOf, ApplyOption;
    IndexOfEntry(k);
  }

  /** Where the saved keys stand in the option table. */
  lemma SavedStreamOptions()
    ensures OptionAt(3) == LongOption("width", true, 'c')
    ensures OptionAt(4) == LongOption("height", true, 'd')
    ensures OptionAt(5) == LongOption("bitrate", true, 'g')
    ensures OptionAt(6) == LongOption("packetsize", true, 'h')
    ensures OptionAt(20) == LongOption("fps", true, 'v')
    ensures OptionAt(35) == LongOption("encrypt", true, 'e')
  {
  }

  lemma SavedOptions()
    ensures OptionAt(7) == LongOption("app", true, 'i')
    ensures OptionAt(12) == LongOption("localaudio", false, 'n')
    ensures OptionAt(23) == LongOption("quitappafter", false, '1')
    ensures OptionAt(24) == LongOption("viewonly", false, '2')
    ensures OptionAt(25) == LongOption("rotate", true, '3')
    ensures OptionAt(33) == LongOption("osd_overscan", true, '8')
    ensures OptionAt(34) == LongOption("tls_test", true, '9')
  {
  }

  function OnStream(m: Machine, stream: Stream): Machine { m.(s := m.s.(stream := stream)) }

  lemma SizeKeys(value: string, m: Machine)
    requires m.status == Running
    ensures ApplyKey("width", value, m) == OnStream(m, m.s.stream.(width := Atoi(value)))
    ensures ApplyKey("height", value, m) == OnStream(m, m.s.stream.(height := Atoi(value)))
    ensures ApplyKey("fps", value, m) == OnStream(m, m.s.stream.(fps := Atoi(value)))
  {
    hide OptionAt, IndexOf, ApplyKey, Atoi, FlagsNamed, RemoteNamed, SpeakersNamed, CodecNamed, AppliedSwitch, AppliedText;
    SavedStreamOptions();
    OptionKey(3, LongOption("width", true, 'c'), value, m);
    OptionKey(4, LongOption("height", true, 'd'), value, m);
    OptionKey(20, LongOption("fps", true, 'v'), value, m);
  }

  lemma StreamKeys(value: string, m: Machine)
    requires m.status == Running
    ensures ApplyKey("bitrate", value, m) == OnStream(m, m.s.stream.(bitrate := Atoi(value)))
    ensures ApplyKey("packetsize", value, m) == OnStream(m, m.s.stream.(packetSize := Atoi(value)))
    ensures ApplyKey("encrypt", value, m) == OnStream(m, m.s.stream.(encryptionFlags := FlagsNamed(value, m.s.stream.encryptionFlags)))
  {
    hide OptionAt, IndexOf, ApplyKey, Atoi, FlagsNamed, RemoteNamed, SpeakersNamed, CodecNamed, AppliedSwitch, AppliedText;
    SavedStreamOptions();
    OptionKey(5, LongOption("bitrate", true, 'g'), value, m);
    OptionKey(6, LongOption("packetsize", true, 'h'), value, m);
    OptionKey(35, LongOption("encrypt", true, 'e'), value, m);
  }

  lemma SwitchKeys(m: Machine)
    requires m.status == Running
    ensures ApplyKey("localaudio", "true", m) == m.(s := m.s.(localaudio := true))
    ensures ApplyKey("quitappafter", "true", m) == m.(s := m.s.(quitappafter := true))
    ensures ApplyKey("viewonly", "true", m) == m.(s := m.s.(viewonly := true))
  {
    hide OptionAt, IndexOf, ApplyKey, Atoi, FlagsNamed, RemoteNamed, SpeakersNamed, CodecNamed, AppliedStream, AppliedText;
    SavedOptions();
    OptionKey(12, LongOption("localaudio", false, 'n'), "true", m);
    OptionKey(23, LongOption("quitappafter", false, '1'), "true", m);
    OptionKey(24, LongOption("viewonly", false, '2'), "true", m);
  }

  lemma ScreenKeys(value: string, m: Machine)
    requires m.status == Running
    ensures ApplyKey("rotate", value, m) == m.(s := m.s.(rotate := Atoi(value)))
    ensures ApplyKey("osd_overscan", value, m) == m.(s := m.s.(osdOverscan := Atoi(value)))
  {
    hide OptionAt, IndexOf, ApplyKey, Atoi, FlagsNamed, RemoteNamed, SpeakersNamed, CodecNamed, AppliedStream, AppliedText;
    SavedOptions();
    OptionKey(25, LongOption("rotate", true, '3'), value, m);
    OptionKey(33, LongOption("osd_overscan", true, '8'), value, m);
  }

  lemma TextKeys(value: string, m: Machine)
    requires m.status == Running
    ensures ApplyKey("app", value, m) == m.(s := m.s.(app := value))
    ensures ApplyKey("tls_test", value, m) == m.(s := m.s.(tlsTest := Text(value)))
    ensures ApplyKey("address", value, m) == m.(s := m.s.(address := Text(value)))
    ensures ApplyKey("sops", "false", m) == m.(s := m.s.(sops := false))
  {
    TextOptions(value, m);
    SpecialKeys(value, m);
  }

  lemma TextOptions(value: string, m: Machine)
    requires m.status == Running
    ensures ApplyKey("app", value, m) == m.(s := m.s.(app := value))
    ensures ApplyKey("tls_test", value, m) == m.(s := m.s.(tlsTest := Text(value)))
  {
    hide OptionAt, IndexOf, ApplyKey, Atoi, FlagsNamed, RemoteNamed, SpeakersNamed, CodecNamed, AppliedStream, AppliedSwitch;
    SavedOptions();
    OptionKey(7, LongOption("app", true, 'i'), value, m);
    OptionKey(34, LongOption("tls_test", true, '9'), value, m);
  }

  lemma SpecialKeys(value: string, m: Machine)
    requires m.status == Running
    ensures ApplyKey("address", value, m) == m.(s := m.s.(address := Text(value)))
    ensures ApplyKey("sops", "false", m) == m.(s := m.s.(sops := false))
  {
    hide ApplyOption, OptionAt, IndexOf;
  }

  lemma FlagsRoundTrip(flags: int, before: int)
    ensures FlagsNamed(FlagsString(flags), before) == flags % 4
  {
    var n := FlagsString(flags);
    assert n[0] == 'n' || n[0] == 'v' || n[1] == 'u' || n[1] == 'l';
  }

  // ---------------------------------------------------------------------------
  // The round trip
  // ---------------------------------------------------------------------------

  /** A configuration as the program can hold it: 32-bit integers and C strings. */
  predicate IsConfiguration(c: Settings) {
    IsInt32(c.stream.width) && IsInt32(c.stream.height) && IsInt32(c.stream.fps) && IsInt32(c.stream.bitrate) && IsInt32(c.stream.packetSize) &&
    IsInt32(c.rotate) && IsInt32(c.osdOverscan) && NoNul(c.app) &&
    (c.address.Text? ==> NoNul(c.address.text)) && (c.tlsTest.Text? ==> NoNul(c.tlsTest.text))
  }

  function MergedStream(c: Stream): Stream {
    DEFAULTS.stream.(width := c.width, height := c.height, fps := c.fps, bitrate := c.bitrate,
                     packetSize := c.packetSize, encryptionFlags := c.encryptionFlags % 4)
  }

  /** The defaults with everything the file carries taken from `c`; only two encryption bits are kept. */
  function Merged(c: Settings): Settings {
    DEFAULTS.(
      address := c.address, stream := MergedStream(c.stream), sops := c.sops,
      localaudio := c.localaudio, quitappafter := c.quitappafter, viewonly := c.viewonly,
      rotate := c.rotate, osdOverscan := c.osdOverscan, app := c.app, tlsTest := c.tlsTest)
  }

  function Fresh(): Machine { Machine(DEFAULTS, Running) }

  lemma PrintedInt(n: int)
    requires IsInt32(n)
    ensures Atoi(PrintInt(n)) == n
  {
    IntRoundTrip(n, "");
    assert PrintInt(n) + "" == PrintInt(n);
  }

  lemma ReplayText(es: seq<Entry>, key: string, t: CStr, m: Machine)
    ensures Replay(es + WhenText(key, t), m) == if t.Text? then ApplyKey(key, t.text, Replay(es, m)) else Replay(es, m)
  {
    hide ApplyKey;
    if t.Text? {
      ReplayWhen(es, true, key, t.text, m);
    } else {
      assert es + WhenText(key, t) == es;
    }
  }

  lemma ReplayNumber(es: seq<Entry>, key: string, n: int, m: Machine, s: Settings)
    requires IsInt32(n) && Replay(es, m) == Machine(s, Running)
    ensures Replay(es + When(true, key, PrintInt(n)), m) == ApplyKey(key, PrintInt(n), Machine(s, Running))
    ensures Atoi(PrintInt(n)) == n
  {
    hide ApplyKey, PrintInt, Atoi;
    PrintedInt(n);
    ReplayWhen(es, true, key, PrintInt(n), m);
  }

  lemma ReplayNumbers(c: Settings)
    requires IsConfiguration(c)
    ensures Replay(Numbers(c), Fresh()) ==
            Machine(DEFAULTS.(address := c.address, stream := MergedStream(c.stream)), Running)
  {
    hide Replay, ApplyKey, PrintInt, Atoi, FlagsString, FlagsNamed, WhenText, When;
    var es, s := WhenText("address", c.address), DEFAULTS.(address := c.address);
    assert Replay(es, Fresh()) == Machine(s, Running) by {
      ReplayText([], "address", c.address, Fresh());
      ReplayNothing(Fresh());
      assert [] + es == es;
      if c.address.Text? {
        TextKeys(c.address.text, Fresh());
      }
    }
    SizeKeys(PrintInt(c.stream.width), Machine(s, Running));
    ReplayNumber(es, "width", c.stream.width, Fresh(), s);
    es, s := es + When(true, "width", PrintInt(c.stream.width)), s.(stream := s.stream.(width := c.stream.width));
    SizeKeys(PrintInt(c.stream.height), Machine(s, Running));
    ReplayNumber(es, "height", c.stream.height, Fresh(), s);
    es, s := es + When(true, "height", PrintInt(c.stream.height)), s.(stream := s.stream.(height := c.stream.height));
    SizeKeys(PrintInt(c.stream.fps), Machine(s, Running));
    ReplayNumber(es, "fps", c.stream.fps, Fresh(), s);
    es, s := es + When(true, "fps", PrintInt(c.stream.fps)), s.(stream := s.stream.(fps := c.stream.fps));
    StreamKeys(PrintInt(c.stream.bitrate), Machine(s, Running));
    ReplayNumber(es, "bitrate", c.stream.bitrate, Fresh(), s);
    es, s := es + When(true, "bitrate", PrintInt(c.stream.bitrate)), s.(stream := s.stream.(bitrate := c.stream.bitrate));
    StreamKeys(PrintInt(c.stream.packetSize), Machine(s, Running));
    ReplayNumber(es, "packetsize", c.stream.packetSize, Fresh(), s);
    es, s := es + When(true, "packetsize", PrintInt(c.stream.packetSize)), s.(stream := s.stream.(packetSize := c.stream.packetSize));
    StreamKeys(FlagsString(c.stream.encryptionFlags), Machine(s, Running));
    ReplayWhen(es, true, "encrypt", FlagsString(c.stream.encryptionFlags), Fresh());
    FlagsRoundTrip(c.stream.encryptionFlags, s.stream.encryptionFlags);
  }

  lemma ReplayNothing(m: Machine)
    ensures Replay([], m) == m
  {
  }

  /** Applying the written lines to the defaults gives every saved field back and changes no other. */
  lemma ReplayEntries(c: Settings)
    requires IsConfiguration(c)
    ensures Replay(Entries(c), Fresh()) == Machine(Merged(c), Running)
  {
    hide Replay, ApplyKey, PrintInt, Atoi, Numbers, WhenText, When;
    var m, es := Fresh(), Numbers(c);
    ReplayNumbers(c);
    var s := Replay(es, m).s;
    ReplayWhen(es, !c.sops, "sops", "false", m);
    TextKeys("", Machine(s, Running));
    es, s := es + When(!c.sops, "sops", "false"), s.(sops := c.sops);
    ReplayWhen(es, c.localaudio, "localaudio", "true", m);
    SwitchKeys(Machine(s, Running));
    es, s := es + When(c.localaudio, "localaudio", "true"), s.(localaudio := c.localaudio);
    ReplayWhen(es, c.quitappafter, "quitappafter", "true", m);
    SwitchKeys(Machine(s, Running));
    es, s := es + When(c.quitappafter, "quitappafter", "true"), s.(quitappafter := c.quitappafter);
    ReplayWhen(es, c.viewonly, "viewonly", "true", m);
    SwitchKeys(Machine(s, Running));
    es, s := es + When(c.viewonly, "viewonly", "true"), s.(viewonly := c.viewonly);
    ReplayWhen(es, c.rotate != 0, "rotate", PrintInt(c.rotate), m);
    ScreenKeys(PrintInt(c.rotate), Machine(s, Running));
    PrintedInt(c.rotate);
    es, s := es + When(c.rotate != 0, "rotate", PrintInt(c.rotate)), s.(rotate := c.rotate);
    ReplayWhen(es, c.osdOverscan != 0, "osd_overscan", PrintInt(c.osdOverscan), m);
    ScreenKeys(PrintInt(c.osdOverscan), Machine(s, Running));
    PrintedInt(c.osdOverscan);
    es, s := es + When(c.osdOverscan != 0, "osd_overscan", PrintInt(c.osdOverscan)), s.(osdOverscan := c.osdOverscan);
    ReplayWhen(es, c.app != "Steam", "app", c.app, m);
    TextKeys(c.app, Machine(s, Running));
    es, s := es + When(c.app != "Steam", "app", c.app), s.(app := c.app);
    ReplayText(es, "tls_test", c.tlsTest, m);
    if c.tlsTest.Text? {
      TextKeys(c.tlsTest.text, Machine(s, Running));
    }
  }

  /** The strings the file carries, all of them storable. */
  predicate Restorable(c: Settings) {
    Storable(c.app) && (c.address.Text? ==> Storable(c.address.text)) && (c.tlsTest.Text? ==> Storable(c.tlsTest.text))
  }

  lemma PrintIntIsClean(n: int)
    requires IsInt32(n)
    ensures Storable(PrintInt(n)) && NoNul(PrintInt(n))
  {
    var m := if n < 0 then -n else n;
    PrintNatIsDigits(m);
    PrintNatLength(m, 10, 1_0000_000_000);
  }

  /** A number below 10 to the power of `digits` prints in at most that many digits. */
  lemma {:induction false} PrintNatLength(n: nat, digits: nat, bound: nat)
    requires digits > 0 && n < bound && bound == Power10(digits)
    ensures |PrintNat(n)| <= digits
  {
    if n >= 10 {
      PrintNatLength(n / 10, digits - 1, Power10(digits - 1));
    }
  }

  function Power10(n: nat): nat { if n == 0 then 1 else 10 * Power10(n - 1) }

  lemma CleanWhen(es: seq<Entry>, present: bool, key: string, value: string)
    requires Clean(es) && (present ==> IsKey(key) && Storable(value) && NoNul(value))
    ensures Clean(es + When(present, key, value))
  {
    hide IsKey, Storable, NoNul;
  }

  lemma CleanText(es: seq<Entry>, key: string, t: CStr)
    requires Clean(es) && (t.Text? ==> IsKey(key) && Storable(t.text) && NoNul(t.text))
    ensures Clean(es + WhenText(key, t))
  {
    hide IsKey, Storable, NoNul;
  }

  lemma CleanNumber(es: seq<Entry>, present: bool, key: string, n: int)
    requires Clean(es) && IsInt32(n) && IsKey(key)
    ensures Clean(es + When(present, key, PrintInt(n)))
  {
    hide IsKey, Storable, NoNul, PrintInt, When, Clean;
    PrintIntIsClean(n);
    CleanWhen(es, present, key, PrintInt(n));
  }

  lemma NumbersAreClean(c: Settings)
    requires IsConfiguration(c) && Restorable(c)
    ensures Clean(Numbers(c))
  {
    hide PrintInt, Clean, When, WhenText, FlagsString;
    var es: seq<Entry> := [];
    assert Clean(es) by { NothingIsClean(); }
    CleanText(es, "address", c.address);
    es := WhenText("address", c.address);
    assert [] + es == es;
    CleanNumber(es, true, "width", c.stream.width);
    es := es + When(true, "width", PrintInt(c.stream.width));
    CleanNumber(es, true, "height", c.stream.height);
    es := es + When(true, "height", PrintInt(c.stream.height));
    CleanNumber(es, true, "fps", c.stream.fps);
    es := es + When(true, "fps", PrintInt(c.stream.fps));
    CleanNumber(es, true, "bitrate", c.stream.bitrate);
    es := es + When(true, "bitrate", PrintInt(c.stream.bitrate));
    CleanNumber(es, true, "packetsize", c.stream.packetSize);
    es := es + When(true, "packetsize", PrintInt(c.stream.packetSize));
    FlagsAreClean(c.stream.encryptionFlags);
    CleanWhen(es, true, "encrypt", FlagsString(c.stream.encryptionFlags));
  }

  lemma NothingIsClean()
    ensures Clean([])
  {
  }

  lemma FlagsAreClean(flags: int)
    ensures Storable(FlagsString(flags)) && NoNul(FlagsString(flags))
  {
  }

  lemma SavedNamesAreKeys()
    ensures IsKey("sops") && IsKey("localaudio") && IsKey("quitappafter") && IsKey("viewonly") && IsKey("rotate")
    ensures IsKey("osd_overscan") && IsKey("app") && IsKey("tls_test")
  {
  }

  lemma SwitchesAreClean()
    ensures Storable("true") && Storable("false") && NoNul("true") && NoNul("false")
  {
  }

  lemma EntriesAreClean(c: Settings)
    requires IsConfiguration(c) && Restorable(c)
    ensures Clean(Entries(c))
  {
    hide PrintInt, Clean, When, WhenText, Numbers, IsKey, Storable, NoNul;
    NumbersAreClean(c);
    SavedNamesAreKeys();
    SwitchesAreClean();
    var es := Numbers(c);
    CleanWhen(es, !c.sops, "sops", "false");
    es := es + When(!c.sops, "sops", "false");
    CleanWhen(es, c.localaudio, "localaudio", "true");
    es := es + When(c.localaudio, "localaudio", "true");
    CleanWhen(es, c.quitappafter, "quitappafter", "true");
    es := es + When(c.quitappafter, "quitappafter", "true");
    CleanWhen(es, c.viewonly, "viewonly", "true");
    es := es + When(c.viewonly, "viewonly", "true");
    CleanNumber(es, c.rotate != 0, "rotate", c.rotate);
    es := es + When(c.rotate != 0, "rotate", PrintInt(c.rotate));
    CleanNumber(es, c.osdOverscan != 0, "osd_overscan", c.osdOverscan);
    es := es + When(c.osdOverscan != 0, "osd_overscan", PrintInt(c.osdOverscan));
    CleanWhen(es, c.app != "Steam", "app", c.app);
    es := es + When(c.app != "Steam", "app", c.app);
    CleanText(es, "tls_test", c.tlsTest);
  }

  lemma KeyKeepsStorable(key: string, value: string, m: Machine)
    requires Restorable(m.s) && Storable(value)
    ensures Restorable(ApplyKey(key, value, m).s)
  {
    hide IndexOf, Storable, ApplyOption, OptionAt;
    if m.status == Running && key != "address" && key != "sops" && IndexOf(key).Some? {
      IndexIsEntry(key);
      TextOptionsTakeValues(IndexOf(key).value);
      OptionKeepsStorable(OptionAt(IndexOf(key).value), value, m);
    }
  }

  lemma TextOptionsTakeValues(k: nat)
    requires k < OPTIONS
    ensures OptionAt(k).val == 'i' || OptionAt(k).val == '9' ==> OptionAt(k).hasArg
  {
  }

  lemma OptionKeepsStorable(o: LongOption, value: string, m: Machine)
    requires Restorable(m.s) && Storable(value) && (o.val == 'i' || o.val == '9' ==> o.hasArg)
    ensures Restorable(ApplyOption(o, value, m).s)
  {
    hide Storable, AppliedStream, AppliedSwitch, AppliedText, OptionAt, IndexOf;
  }

  /** Parsing any text leaves only storable strings, since values come from single lines. */
  lemma {:induction false} ParsedIsRestorable(text: string, buffer: string, m: Machine)
    requires Restorable(m.s)
    ensures Restorable(ParseText(text, buffer, m).s)
    decreases |text|
  {
    hide Scan, CString, Overlay, ApplyKey, Restorable;
    if text != "" && m.status == Running {
      var after := Overlay(FirstLine(text), buffer);
      CStringIsPrefix(after);
      ScannedIsStorable(CString(after));
      if Scan(CString(after)).KeyValue? {
        KeyKeepsStorable(Scan(CString(after)).key, Scan(CString(after)).value, m);
      }
      ParsedIsRestorable(text[|FirstLine(text)|..], after, ApplyLine(CString(after), m));
    }
  }

  lemma DefaultsAreRestorable()
    ensures Restorable(Fresh().s)
  {
  }

  lemma MergedKeepsStrings(c: Settings)
    ensures Merged(c).app == c.app && Merged(c).address == c.address && Merged(c).tlsTest == c.tlsTest
  {
  }

  /**
   Saving a configuration and parsing the file into the defaults restores every saved field
   and leaves every other field at its default, exactly when each string is non-empty, fits
   the field limit, does not begin with a blank and has no newline.
   */
  lemma SaveParse(c: Settings, heap: string)
    requires IsConfiguration(c)
    ensures ParseText(Rendered(Entries(c)), heap, Fresh()) == Machine(Merged(c), Running) <==> Restorable(c)
  {
    hide Entries, ParseText, Rendered, Replay, Merged, Storable, IsConfiguration;
    if Restorable(c) {
      EntriesAreClean(c);
      ReadBack(Entries(c), heap, Fresh());
      ReplayEntries(c);
    } else {
      DefaultsAreRestorable();
      ParsedIsRestorable(Rendered(Entries(c)), heap, Fresh());
      MergedKeepsStrings(c);
    }
  }

  /** Saving what was parsed writes the same file again. */
  lemma SaveParseSave(c: Settings, heap: string)
    requires IsConfiguration(c) && Restorable(c)
    ensures Rendered(Entries(ParseText(Rendered(Entries(c)), heap, Fresh()).s)) == Rendered(Entries(c))
  {
    hide Entries, ParseText, Rendered, Merged, Restorable, IsConfiguration;
    SaveParse(c, heap);
    MergedEntries(c);
  }

  lemma MergedEntries(c: Settings)
    ensures Entries(Merged(c)) == Entries(c)
  {
    hide PrintInt, When, WhenText, FlagsString;
    SameFlags(c.stream.encryptionFlags);
    assert Numbers(Merged(c)) == Numbers(c);
  }

  lemma SameFlags(flags: int)
    ensures FlagsString(flags % 4) == FlagsString(flags)
  {
  }

  // ---------------------------------------------------------------------------
  // What each line of a file does
  // ---------------------------------------------------------------------------

  /** A value that a line can carry whole. */
  predicate IsLineValue(value: string) {
    && 1 <= |value| <= 4095 && !(value[0] == ' ' || 9 <= value[0] as int <= 13)
    && (forall i :: 0 <= i < |value| ==> value[i] != '\n' && value[i] != '\0')
  }

  predicate IsBlank(c: char) { c == ' ' || 9 <= c as int <= 13 }

  /**
   How a line is split, whatever blanks stand before and behind the key and behind the sign:
   the value goes to the end of the line, cut to 4095 characters.
   */
  lemma SpacedLine(front: string, key: string, gap: string, gap': string, value: string, rest: string)
    requires Blanks(front) && Blanks(gap) && Blanks(gap') && gap != ""
    requires 1 <= |key| <= 1023 && forall i :: 0 <= i < |key| ==> !IsBlank(key[i])
    requires value != "" && !IsBlank(value[0]) && '\n' !in value && (rest == "" || rest[0] == '\n')
    ensures Scan(front + (key + (gap + ("=" + (gap' + (value + rest)))))) ==
            KeyValue(key, if |value| <= 4095 then value else value[..4095])
  {
    hide Word, SkipSpaces, RestOfLine;
    var tail := value + rest;
    var sign := "=" + (gap' + tail);
    assert sign[1..] == gap' + tail;
    SkipBlanks(gap', tail);
    SkipBlanks(gap, sign);
    SkipBlanks(front, key + (gap + sign));
    WordOf(key, gap + sign, 1023);
    assert (key + (gap + sign))[|key|..] == gap + sign;
    CutValue(value, rest);
    RestOfLineStarts(tail, FIELD_LIMIT);
  }

  lemma CutValue(value: string, rest: string)
    requires '\n' !in value && (rest == "" || rest[0] == '\n')
    ensures RestOfLine(value + rest, 4095) == if |value| <= 4095 then value else value[..4095]
  {
    hide RestOfLine;
    if |value| <= 4095 {
      RestOfLineOf(value, rest, 4095);
    } else {
      assert value + rest == value[..4095] + (value[4095..] + rest);
      assert '\n' !in value[..4095];
      RestOfLineRunsOn(value[..4095], value[4095..] + rest, 4095);
      assert |RestOfLine(value[4095..] + rest, 0)| == 0;
    }
  }

  /** Without a blank behind the key there is no key: "width=640" is not taken. */
  lemma UnspacedLine(front: string, word: string)
    requires Blanks(front) && 1 <= |word| <= 1023 && forall i :: 0 <= i < |word| ==> !IsBlank(word[i])
    ensures Scan(front + (word + "\n")) == NoMatch
  {
    hide Word, SkipSpaces;
    SkipBlanks(front, word + "\n");
    WordOf(word, "\n", 1023);
    assert (word + "\n")[|word|..] == "\n" && "\n" + "" == "\n";
    SkipBlanks("\n", "");
  }

  /** The other way round: whatever a line is split into stands in it like that. */
  lemma SplitLine(line: string) returns (front: string, gap: string, gap': string, rest: string)
    requires Scan(line).KeyValue?
    ensures var key, value := Scan(line).key, Scan(line).value;
            && line == front + (key + (gap + ("=" + (gap' + (value + rest)))))
            && Blanks(front) && Blanks(gap) && Blanks(gap') && (gap != "" || |key| == 1023)
            && 1 <= |key| <= 1023 && (forall i :: 0 <= i < |key| ==> !IsBlank(key[i]))
            && 1 <= |value| <= 4095 && !IsBlank(value[0]) && '\n' !in value
            && (|value| == 4095 || rest == "" || rest[0] == '\n')
  {
    hide Word, SkipSpaces, RestOfLine;
    var key, value := Scan(line).key, Scan(line).value;
    var t := SkipBlanksSplit(line);
    front := t;
    var u := SkipSpaces(line);
    WordSplit(u, 1023);
    gap := SkipBlanksSplit(u[|key|..]);
    var sign := SkipSpaces(u[|key|..]);
    gap' := SkipBlanksSplit(sign[1..]);
    var tail := SkipSpaces(sign[1..]);
    RestSplit(tail, 4095);
    rest := tail[|value|..];
    assert tail == value + rest && sign == "=" + sign[1..] && u == key + u[|key|..];
  }

  lemma {:induction false} SkipBlanksSplit(s: string) returns (blanks: string)
    ensures s == blanks + SkipSpaces(s) && Blanks(blanks) && (SkipSpaces(s) == "" || !IsBlank(SkipSpaces(s)[0]))
  {
    if s != "" && IsSpace(s[0]) {
      var more := SkipBlanksSplit(s[1..]);
      blanks := [s[0]] + more;
    } else {
      blanks := "";
    }
  }

  lemma {:induction false} WordSplit(s: string, limit: nat)
    ensures var w := Word(s, limit);
            |w| <= limit && w <= s && (forall i :: 0 <= i < |w| ==> !IsBlank(w[i])) &&
            (|w| == limit || |w| == |s| || IsBlank(s[|w|]))
  {
    if s != "" && limit > 0 && !IsSpace(s[0]) {
      WordSplit(s[1..], limit - 1);
    }
  }

  lemma {:induction false} RestSplit(s: string, limit: nat)
    ensures var r := RestOfLine(s, limit); r <= s && (|r| == limit || |r| == |s| || s[|r|] == '\n')
  {
    if s != "" && limit > 0 && s[0] != '\n' {
      RestSplit(s[1..], limit - 1);
    }
  }

  /** The configuration after a file of one line was parsed into `s`. */
  function ParsedLine(key: string, value: string, heap: string, s: Settings): Machine {
    ParseText(key + " = " + value + "\n", heap, Machine(s, Running))
  }

  lemma LineApplies(key: string, value: string, heap: string, s: Settings)
    requires IsKey(key) && IsLineValue(value)
    ensures ParsedLine(key, value, heap, s) == ApplyKey(key, value, Machine(s, Running))
  {
    hide ParseText, ApplyKey, IsKey;
    var e := Entry(key, value);
    assert [e][1..] == [];
    assert Rendered([e]) == key + " = " + value + "\n";
    ReadBack([e], heap, Machine(s, Running));
  }

  lemma OptionLine(k: nat, o: LongOption, value: string, heap: string, s: Settings)
    requires k < OPTIONS && OptionAt(k) == o && IsKey(o.name) && o.name != "address" && o.name != "sops" && IsLineValue(value)
    ensures ParsedLine(o.name, value, heap, s) == ApplyOption(o, value, Machine(s, Running))
  {
    hide ParsedLine, ApplyKey, ApplyOption, OptionAt, IsKey, IsLineValue;
    LineApplies(o.name, value, heap, s);
    OptionKey(k, o, value, Machine(s, Running));
  }

  function WithStream(s: Settings, stream: Stream): Machine { Machine(s.(stream := stream), Running) }

  lemma SizeLines(value: string, heap: string, s: Settings)
    requires IsLineValue(value)
    ensures ParsedLine("width", value, heap, s) == WithStream(s, s.stream.(width := Atoi(value)))
    ensures ParsedLine("height", value, heap, s) == WithStream(s, s.stream.(height := Atoi(value)))
    ensures ParsedLine("fps", value, heap, s) == WithStream(s, s.stream.(fps := Atoi(value)))
    ensures ParsedLine("bitrate", value, heap, s) == WithStream(s, s.stream.(bitrate := Atoi(value)))
    ensures ParsedLine("packetsize", value, heap, s) == WithStream(s, s.stream.(packetSize := Atoi(value)))
  {
    hide ParsedLine, OptionAt, IndexOf, ApplyKey, Atoi, IsLineValue, IsKey;
    NamesAreKeys();
    LineApplies("width", value, heap, s);
    LineApplies("height", value, heap, s);
    LineApplies("fps", value, heap, s);
    LineApplies("bitrate", value, heap, s);
    LineApplies("packetsize", value, heap, s);
    SizeKeys(value, Machine(s, Running));
    StreamKeys(value, Machine(s, Running));
  }

  lemma {:induction false} RenderedAppend(es: seq<Entry>, fs: seq<Entry>)
    ensures Rendered(es + fs) == Rendered(es) + Rendered(fs)
  {
    if es == [] {
      assert es + fs == fs;
    } else {
      assert (es + fs)[1..] == es[1..] + fs;
      RenderedAppend(es[1..], fs);
    }
  }

  lemma RenderedWhen(es: seq<Entry>, present: bool, key: string, value: string)
    ensures Rendered(es + When(present, key, value)) == Rendered(es) + if present then key + " = " + value + "\n" else ""
  {
    RenderedAppend(es, When(present, key, value));
    if present {
      assert [Entry(key, value)][1..] == [];
    }
  }

  lemma RenderedText(es: seq<Entry>, key: string, t: CStr)
    ensures Rendered(es + WhenText(key, t)) == Rendered(es) + if t.Text? then key + " = " + t.text + "\n" else ""
  {
    RenderedWhen(es, t.Text?, key, if t.Text? then t.text else "");
    assert WhenText(key, t) == When(t.Text?, key, if t.Text? then t.text else "");
  }

  /** The saved file in full. */
  lemma SavedFile(c: Settings)
    ensures Rendered(Entries(c)) ==
            (if c.address.Text? then "address = " + c.address.text + "\n" else "") +
            ("width = " + PrintInt(c.stream.width) + "\n") +
            ("height = " + PrintInt(c.stream.height) + "\n") +
            ("fps = " + PrintInt(c.stream.fps) + "\n") +
            ("bitrate = " + PrintInt(c.stream.bitrate) + "\n") +
            ("packetsize = " + PrintInt(c.stream.packetSize) + "\n") +
            ("encrypt = " + FlagsString(c.stream.encryptionFlags) + "\n") +
            (if c.sops then "" else "sops = false\n") +
            (if c.localaudio then "localaudio = true\n" else "") +
            (if c.quitappafter then "quitappafter = true\n" else "") +
            (if c.viewonly then "viewonly = true\n" else "") +
            (if c.rotate != 0 then "rotate = " + PrintInt(c.rotate) + "\n" else "") +
            (if c.osdOverscan != 0 then "osd_overscan = " + PrintInt(c.osdOverscan) + "\n" else "") +
            (if c.app != "Steam" then "app = " + c.app + "\n" else "") +
            (if c.tlsTest.Text? then "tls_test = " + c.tlsTest.text + "\n" else "")
  {
    hide Rendered, PrintInt, FlagsString, WhenText, When;
    SavedNumbers(c);
    var es := Numbers(c);
    RenderedWhen(es, !c.sops, "sops", "false");
    es := es + When(!c.sops, "sops", "false");
    RenderedWhen(es, c.localaudio, "localaudio", "true");
    es := es + When(c.localaudio, "localaudio", "true");
    RenderedWhen(es, c.quitappafter, "quitappafter", "true");
    es := es + When(c.quitappafter, "quitappafter", "true");
    RenderedWhen(es, c.viewonly, "viewonly", "true");
    es := es + When(c.viewonly, "viewonly", "true");
    RenderedWhen(es, c.rotate != 0, "rotate", PrintInt(c.rotate));
    es := es + When(c.rotate != 0, "rotate", PrintInt(c.rotate));
    RenderedWhen(es, c.osdOverscan != 0, "osd_overscan", PrintInt(c.osdOverscan));
    es := es + When(c.osdOverscan != 0, "osd_overscan", PrintInt(c.osdOverscan));
    RenderedWhen(es, c.app != "Steam", "app", c.app);
    es := es + When(c.app != "Steam", "app", c.app);
    RenderedText(es, "tls_test", c.tlsTest);
    SwitchTexts();
  }

  lemma SwitchTexts()
    ensures "sops" + " = " + "false" + "\n" == "sops = false\n" && "localaudio" + " = " + "true" + "\n" == "localaudio = true\n"
    ensures "quitappafter" + " = " + "true" + "\n" == "quitappafter = true\n"
    ensures "viewonly" + " = " + "true" + "\n" == "viewonly = true\n"
    ensures "rotate" + " = " == "rotate = " && "osd_overscan" + " = " == "osd_overscan = " && "app" + " = " == "app = "
    ensures "tls_test" + " = " == "tls_test = "
  {
  }

  lemma SavedNumbers(c: Settings)
    ensures Rendered(Numbers(c)) ==
            (if c.address.Text? then "address = " + c.address.text + "\n" else "") +
            ("width = " + PrintInt(c.stream.width) + "\n") +
            ("height = " + PrintInt(c.stream.height) + "\n") +
            ("fps = " + PrintInt(c.stream.fps) + "\n") +
            ("bitrate = " + PrintInt(c.stream.bitrate) + "\n") +
            ("packetsize = " + PrintInt(c.stream.packetSize) + "\n") +
            ("encrypt = " + FlagsString(c.stream.encryptionFlags) + "\n")
  {
    hide Rendered, PrintInt, FlagsString, WhenText, When;
    var es: seq<Entry> := [];
    RenderedText(es, "address", c.address);
    RenderedEmpty();
    assert es + WhenText("address", c.address) == WhenText("address", c.address);
    es := WhenText("address", c.address);
    assert Rendered(es) == if c.address.Text? then "address = " + c.address.text + "\n" else "";
    RenderedWhen(es, true, "width", PrintInt(c.stream.width));
    es := es + When(true, "width", PrintInt(c.stream.width));
    RenderedWhen(es, true, "height", PrintInt(c.stream.height));
    es := es + When(true, "height", PrintInt(c.stream.height));
    RenderedWhen(es, true, "fps", PrintInt(c.stream.fps));
    es := es + When(true, "fps", PrintInt(c.stream.fps));
    RenderedWhen(es, true, "bitrate", PrintInt(c.stream.bitrate));
    es := es + When(true, "bitrate", PrintInt(c.stream.bitrate));
    RenderedWhen(es, true, "packetsize", PrintInt(c.stream.packetSize));
    es := es + When(true, "packetsize", PrintInt(c.stream.packetSize));
    RenderedWhen(es, true, "encrypt", FlagsString(c.stream.encryptionFlags));
    NumberTexts();
  }

  lemma NumberTexts()
    ensures "width" + " = " == "width = " && "height" + " = " == "height = " && "fps" + " = " == "fps = "
    ensures "bitrate" + " = " == "bitrate = " && "packetsize" + " = " == "packetsize = " && "encrypt" + " = " == "encrypt = "
  {
  }

  /** What a saved configuration is after it was parsed on the Wii, field by field. */
  lemma RestoredFields(c: Settings, heap: string)
    requires IsConfiguration(c) && IsLineValue(c.app)
    requires (c.address.Text? ==> IsLineValue(c.address.text)) && (c.tlsTest.Text? ==> IsLineValue(c.tlsTest.text))
    ensures ParseText(Rendered(Entries(c)), heap, Fresh()) ==
            Machine(
              Settings(
                Stream(c.stream.width, c.stream.height, c.stream.fps, c.stream.bitrate, c.stream.packetSize,
                       c.stream.encryptionFlags % 4, AutoRemote, Stereo),
                0, "auto", c.app, c.address, Null, Null, "/moonlight/keys", c.sops, c.localaudio, true, true,
                c.quitappafter, c.viewonly, true, c.rotate, H264, false, 0, 47989, c.osdOverscan, c.tlsTest, [], false, false),
              Running)
  {
    hide ParseText, Rendered, Entries;
    SaveParse(c, heap);
  }

  lemma NamesAreKeys()
    ensures IsKey("width") && IsKey("height") && IsKey("fps") && IsKey("bitrate") && IsKey("packetsize") && IsKey("encrypt")
  {
  }

  lemma OtherNamesAreKeys()
    ensures IsKey("pin") && IsKey("port") && IsKey("remote") && IsKey("surround") && IsKey("codec") && IsKey("address")
  {
  }

  lemma SwitchNamesAreKeys()
    ensures IsKey("720") && IsKey("1080") && IsKey("4k") && IsKey("nosops") && IsKey("windowed") && IsKey("nounsupported")
  {
  }

  lemma PlayNamesAreKeys()
    ensures IsKey("verbose") && IsKey("debug") && IsKey("autostream") && IsKey("nomouseemulation") && IsKey("hdr")
  {
  }

  lemma TextNamesAreKeys()
    ensures IsKey("input") && IsKey("mapping") && IsKey("audio") && IsKey("config") && IsKey("platform")
    ensures IsKey("save") && IsKey("keydir")
  {
  }

  lemma NumberOptions()
    ensures OptionAt(30) == LongOption("pin", true, '5')
    ensures OptionAt(31) == LongOption("port", true, '6')
  {
  }

  lemma NumberLines(value: string, heap: string, s: Settings)
    requires IsLineValue(value)
    ensures ParsedLine("rotate", value, heap, s) == Machine(s.(rotate := Atoi(value)), Running)
    ensures ParsedLine("osd_overscan", value, heap, s) == Machine(s.(osdOverscan := Atoi(value)), Running)
    ensures ParsedLine("pin", value, heap, s) == Machine(s.(pin := Atoi(value)), Running)
    ensures ParsedLine("port", value, heap, s) == Machine(s.(port := Atoi(value) % 65536), Running)
  {
    hide ParsedLine, OptionAt, IndexOf, ApplyKey, Atoi, IsLineValue, IsKey, AppliedStream, AppliedText, CodecNamed;
    OtherNamesAreKeys();
    SavedNamesAreKeys();
    NumberOptions();
    LineApplies("rotate", value, heap, s);
    LineApplies("osd_overscan", value, heap, s);
    ScreenKeys(value, Machine(s, Running));
    OptionLine(30, LongOption("pin", true, '5'), value, heap, s);
    OptionLine(31, LongOption("port", true, '6'), value, heap, s);
  }

  lemma NamedOptions()
    ensures OptionAt(17) == LongOption("remote", true, 's')
    ensures OptionAt(19) == LongOption("surround", true, 'u')
    ensures OptionAt(21) == LongOption("codec", true, 'x')
    ensures OptionAt(35) == LongOption("encrypt", true, 'e')
  {
  }

  lemma SameIs(value: string, lower: string, upper: string)
    requires |lower| == |upper| && forall j :: 0 <= j < |lower| ==> Cases(lower[j], upper[j])
    ensures SameIgnoringCase(value, lower) <==> Spells(value, lower, upper)
  {
    if |value| == |lower| {
      forall j | 0 <= j < |lower|
        ensures Lower(value[j]) == Lower(lower[j]) <==> value[j] == lower[j] || value[j] == upper[j]
      {
        LowerIs(value[j], lower[j], upper[j]);
      }
    }
  }

  /** Values that are names are taken in either case; any other value leaves the field as it is. */
  lemma RemoteLine(value: string, heap: string, s: Settings)
    requires IsLineValue(value)
    ensures ParsedLine("remote", value, heap, s) == WithStream(s, s.stream.(remote :=
              if Spells(value, "auto", "AUTO") then AutoRemote
              else if Spells(value, "true", "TRUE") || Spells(value, "yes", "YES") then Remotely
              else if Spells(value, "false", "FALSE") || Spells(value, "no", "NO") then Local
              else s.stream.remote))
  {
    hide ParsedLine, OptionAt, IndexOf, ApplyKey, Atoi, IsLineValue, IsKey, AppliedSwitch, AppliedText, SameIgnoringCase, Spells;
    OtherNamesAreKeys();
    NamedOptions();
    OptionLine(17, LongOption("remote", true, 's'), value, heap, s);
    SameIs(value, "auto", "AUTO");
    SameIs(value, "true", "TRUE");
    SameIs(value, "yes", "YES");
    SameIs(value, "false", "FALSE");
    SameIs(value, "no", "NO");
  }

  lemma EncryptLine(value: string, heap: string, s: Settings)
    requires IsLineValue(value)
    ensures ParsedLine("encrypt", value, heap, s) == WithStream(s, s.stream.(encryptionFlags :=
              if Spells(value, "none", "NONE") then 0 else if Spells(value, "audio", "AUDIO") then 1
              else if Spells(value, "video", "VIDEO") then 2 else if Spells(value, "all", "ALL") then 3
              else s.stream.encryptionFlags))
  {
    hide ParsedLine, OptionAt, IndexOf, ApplyKey, Atoi, IsLineValue, IsKey, AppliedSwitch, AppliedText, SameIgnoringCase, Spells;
    NamesAreKeys();
    NamedOptions();
    OptionLine(35, LongOption("encrypt", true, 'e'), value, heap, s);
    SameIs(value, "none", "NONE");
    SameIs(value, "audio", "AUDIO");
    SameIs(value, "video", "VIDEO");
    SameIs(value, "all", "ALL");
  }

  lemma SurroundLine(value: string, heap: string, s: Settings)
    requires IsLineValue(value)
    ensures ParsedLine("surround", value, heap, s) == WithStream(s, s.stream.(speakers :=
              if value == "5.1" then Surround51 else if value == "7.1" then Surround71 else s.stream.speakers))
  {
    hide ParsedLine, OptionAt, IndexOf, ApplyKey, Atoi, IsLineValue, IsKey, AppliedSwitch, AppliedText, SameIgnoringCase;
    OtherNamesAreKeys();
    NamedOptions();
    OptionLine(19, LongOption("surround", true, 'u'), value, heap, s);
    SameIs(value, "5.1", "5.1");
    SameIs(value, "7.1", "7.1");
  }

  lemma CodecLine(value: string, heap: string, s: Settings)
    requires IsLineValue(value)
    ensures ParsedLine("codec", value, heap, s) == Machine(s.(codec :=
              if Spells(value, "auto", "AUTO") then AnyCodec
              else if Spells(value, "h264", "H264") then H264
              else if Spells(value, "h265", "H265") || Spells(value, "hevc", "HEVC") then Hevc
              else if Spells(value, "av1", "AV1") then Av1
              else s.codec), Running)
  {
    hide ParsedLine, OptionAt, IndexOf, ApplyKey, Atoi, IsLineValue, IsKey, AppliedStream, AppliedText, SameIgnoringCase, Spells;
    OtherNamesAreKeys();
    NamedOptions();
    OptionLine(21, LongOption("codec", true, 'x'), value, heap, s);
    SameIs(value, "auto", "AUTO");
    SameIs(value, "h264", "H264");
    SameIs(value, "h265", "H265");
    SameIs(value, "hevc", "HEVC");
    SameIs(value, "av1", "AV1");
  }

  lemma TextOptionEntries()
    ensures OptionAt(8) == LongOption("input", true, 'j')
    ensures OptionAt(9) == LongOption("mapping", true, 'k')
    ensures OptionAt(11) == LongOption("audio", true, 'm')
    ensures OptionAt(13) == LongOption("config", true, 'o')
    ensures OptionAt(14) == LongOption("platform", true, 'p')
    ensures OptionAt(15) == LongOption("save", true, 'q')
    ensures OptionAt(16) == LongOption("keydir", true, 'r')
  {
  }

  lemma TextLines(value: string, heap: string, s: Settings)
    requires IsLineValue(value)
    ensures ParsedLine("address", value, heap, s) == Machine(s.(address := Text(value)), Running)
    ensures ParsedLine("app", value, heap, s) == Machine(s.(app := value), Running)
    ensures ParsedLine("tls_test", value, heap, s) == Machine(s.(tlsTest := Text(value)), Running)
    ensures ParsedLine("audio", value, heap, s) == Machine(s.(audioDevice := Text(value)), Running)
    ensures ParsedLine("platform", value, heap, s) == Machine(s.(platform := value), Running)
    ensures ParsedLine("save", value, heap, s) == Machine(s.(configFile := Text(value)), Running)
    ensures ParsedLine("keydir", value, heap, s) == Machine(s.(keyDir := value), Running)
  {
    hide ParsedLine, OptionAt, IndexOf, ApplyKey, IsLineValue, IsKey, AppliedStream, AppliedSwitch;
    OtherNamesAreKeys();
    SavedNamesAreKeys();
    TextNamesAreKeys();
    TextOptionEntries();
    LineApplies("address", value, heap, s);
    LineApplies("app", value, heap, s);
    LineApplies("tls_test", value, heap, s);
    TextKeys(value, Machine(s, Running));
    OptionLine(11, LongOption("audio", true, 'm'), value, heap, s);
    OptionLine(14, LongOption("platform", true, 'p'), value, heap, s);
    OptionLine(15, LongOption("save", true, 'q'), value, heap, s);
    OptionLine(16, LongOption("keydir", true, 'r'), value, heap, s);
  }

  /**
   Up to six inputs are collected, and a seventh ends the program; another file is called for;
   a mapping, which is not loaded on the Wii, turns sops off.
   */
  lemma SpecialLines(value: string, heap: string, s: Settings)
    requires IsLineValue(value)
    ensures ParsedLine("input", value, heap, s) ==
            if |s.inputs| >= 6 then Machine(s, Exited) else Machine(s.(inputs := s.inputs + [value], inputAdded := true), Running)
    ensures ParsedLine("config", value, heap, s) == Machine(s, Includes(value))
    ensures ParsedLine("mapping", value, heap, s) == Machine(s.(sops := false), Running)
    ensures ParsedLine("sops", value, heap, s) == Machine(s.(sops := value == "true"), Running)
  {
    hide ParsedLine, OptionAt, IndexOf, ApplyKey, IsLineValue, IsKey, AppliedStream, CodecNamed, Atoi;
    TextNamesAreKeys();
    SavedNamesAreKeys();
    TextOptionEntries();
    OptionLine(8, LongOption("input", true, 'j'), value, heap, s);
    OptionLine(13, LongOption("config", true, 'o'), value, heap, s);
    OptionLine(9, LongOption("mapping", true, 'k'), value, heap, s);
    LineApplies("sops", value, heap, s);
    SopsKey(value, Machine(s, Running));
  }

  lemma SopsKey(value: string, m: Machine)
    requires m.status == Running
    ensures ApplyKey("sops", value, m) == m.(s := m.s.(sops := value == "true"))
  {
    hide ApplyOption, OptionAt, IndexOf;
  }

  lemma ResolutionOptions()
    ensures OptionAt(0) == LongOption("720", false, 'a')
    ensures OptionAt(1) == LongOption("1080", false, 'b')
    ensures OptionAt(2) == LongOption("4k", false, '0')
  {
  }

  lemma SwitchOptions()
    ensures OptionAt(10) == LongOption("nosops", false, 'l')
    ensures OptionAt(18) == LongOption("windowed", false, 't')
    ensures OptionAt(22) == LongOption("nounsupported", false, 'y')
    ensures OptionAt(26) == LongOption("verbose", false, 'z')
    ensures OptionAt(27) == LongOption("debug", false, 'Z')
    ensures OptionAt(28) == LongOption("autostream", false, 'C')
    ensures OptionAt(29) == LongOption("nomouseemulation", false, '4')
    ensures OptionAt(32) == LongOption("hdr", false, '7')
  {
  }

  lemma TrueIsAValue()
    ensures IsLineValue("true")
  {
  }

  /** The three resolutions by name. */
  lemma ResolutionLines(heap: string, s: Settings)
    ensures ParsedLine("720", "true", heap, s) == WithStream(s, s.stream.(width := 1280, height := 720))
    ensures ParsedLine("1080", "true", heap, s) == WithStream(s, s.stream.(width := 1920, height := 1080))
    ensures ParsedLine("4k", "true", heap, s) == WithStream(s, s.stream.(width := 3840, height := 2160))
  {
    hide ParsedLine, OptionAt, IndexOf, ApplyKey, IsLineValue, IsKey, AppliedSwitch, AppliedText, Atoi, RemoteNamed, SpeakersNamed, FlagsNamed;
    SwitchNamesAreKeys();
    ResolutionOptions();
    TrueIsAValue();
    OptionLine(0, LongOption("720", false, 'a'), "true", heap, s);
    OptionLine(1, LongOption("1080", false, 'b'), "true", heap, s);
    OptionLine(2, LongOption("4k", false, '0'), "true", heap, s);
  }

  /** The switches, when they are set to "true". */
  lemma SwitchLines(heap: string, s: Settings)
    ensures ParsedLine("nosops", "true", heap, s) == Machine(s.(sops := false), Running)
    ensures ParsedLine("windowed", "true", heap, s) == Machine(s.(fullscreen := false), Running)
    ensures ParsedLine("nounsupported", "true", heap, s) == Machine(s.(unsupported := false), Running)
  {
    hide ParsedLine, OptionAt, IndexOf, ApplyKey, IsLineValue, IsKey, AppliedStream, AppliedText, Atoi, CodecNamed;
    SwitchNamesAreKeys();
    SwitchOptions();
    TrueIsAValue();
    OptionLine(10, LongOption("nosops", false, 'l'), "true", heap, s);
    OptionLine(18, LongOption("windowed", false, 't'), "true", heap, s);
    OptionLine(22, LongOption("nounsupported", false, 'y'), "true", heap, s);
  }

  lemma LogSwitchLines(heap: string, s: Settings)
    ensures ParsedLine("verbose", "true", heap, s) == Machine(s.(debugLevel := 1), Running)
    ensures ParsedLine("debug", "true", heap, s) == Machine(s.(debugLevel := 2), Running)
  {
    hide ParsedLine, OptionAt, IndexOf, ApplyKey, IsLineValue, IsKey, AppliedStream, AppliedText, Atoi, CodecNamed;
    PlayNamesAreKeys();
    SwitchOptions();
    TrueIsAValue();
    OptionLine(26, LongOption("verbose", false, 'z'), "true", heap, s);
    OptionLine(27, LongOption("debug", false, 'Z'), "true", heap, s);
  }

  lemma PlaySwitchLines(heap: string, s: Settings)
    ensures ParsedLine("autostream", "true", heap, s) == Machine(s.(autostream := true), Running)
    ensures ParsedLine("hdr", "true", heap, s) == Machine(s.(hdr := true), Running)
  {
    hide ParsedLine, OptionAt, IndexOf, ApplyKey, IsLineValue, IsKey, AppliedStream, AppliedText, Atoi, CodecNamed;
    PlayNamesAreKeys();
    SwitchOptions();
    TrueIsAValue();
    OptionLine(28, LongOption("autostream", false, 'C'), "true", heap, s);
    OptionLine(32, LongOption("hdr", false, '7'), "true", heap, s);
  }

  lemma MouseSwitchLine(heap: string, s: Settings)
    ensures ParsedLine("nomouseemulation", "true", heap, s) == Machine(s.(mouseEmulation := false), Running)
  {
    hide ParsedLine, OptionAt, IndexOf, ApplyKey, IsLineValue, IsKey, AppliedStream, AppliedText, Atoi, CodecNamed;
    PlayNamesAreKeys();
    SwitchOptions();
    TrueIsAValue();
    OptionLine(29, LongOption("nomouseemulation", false, '4'), "true", heap, s);
  }

  lemma SavedSwitchLines(heap: string, s: Settings)
    ensures ParsedLine("localaudio", "true", heap, s) == Machine(s.(localaudio := true), Running)
    ensures ParsedLine("quitappafter", "true", heap, s) == Machine(s.(quitappafter := true), Running)
    ensures ParsedLine("viewonly", "true", heap, s) == Machine(s.(viewonly := true), Running)
  {
    hide ParsedLine, OptionAt, IndexOf, ApplyKey, IsLineValue, IsKey;
    SavedNamesAreKeys();
    TrueIsAValue();
    LineApplies("localaudio", "true", heap, s);
    LineApplies("quitappafter", "true", heap, s);
    LineApplies("viewonly", "true", heap, s);
    SwitchKeys(Machine(s, Running));
  }

  predicate IsSwitch(key: string) {
    key == "720" || key == "1080" || key == "4k" || key == "nosops" || key == "localaudio" || key == "windowed" ||
    key == "nounsupported" || key == "quitappafter" || key == "viewonly" || key == "verbose" || key == "debug" ||
    key == "autostream" || key == "nomouseemulation" || key == "hdr"
  }

  predicate TakesValue(key: string) {
    key == "address" || key == "sops" || key == "width" || key == "height" || key == "bitrate" || key == "packetsize" ||
    key == "app" || key == "input" || key == "mapping" || key == "audio" || key == "config" || key == "platform" ||
    key == "save" || key == "keydir" || key == "remote" || key == "surround" || key == "fps" || key == "codec" ||
    key == "rotate" || key == "pin" || key == "port" || key == "osd_overscan" || key == "tls_test" || key == "encrypt"
  }

  /** A switch with any other value than "true", and a key that is none of the 38, change nothing. */
  lemma OtherLines(key: string, value: string, heap: string, s: Settings)
    requires IsKey(key) && IsLineValue(value) && (if IsSwitch(key) then value != "true" else !TakesValue(key))
    ensures ParsedLine(key, value, heap, s) == Machine(s, Running)
  {
    hide ParsedLine, OptionAt, IndexOf, ApplyOption, IsKey, IsLineValue, IsSwitch, TakesValue;
    LineApplies(key, value, heap, s);
    if IsSwitch(key) {
      SwitchIndex(key);
      SwitchIgnored(OptionAt(IndexOf(key).value), value, Machine(s, Running));
    } else {
      UnknownKey(key);
    }
  }

  lemma UnknownKey(key: string)
    requires !IsSwitch(key) && !TakesValue(key)
    ensures IndexOf(key) == None && key != "address" && key != "sops"
  {
    hide OptionAt;
  }

  lemma SwitchIndex(key: string)
    requires IsSwitch(key)
    ensures IndexOf(key).Some? && IndexOf(key).value < OPTIONS && !OptionAt(IndexOf(key).value).hasArg
    ensures key != "address" && key != "sops"
  {
    hide IndexOf;
    var k := if key == "720" then 0 else if key == "1080" then 1 else if key == "4k" then 2 else if key == "nosops" then 10
             else if key == "localaudio" then 12 else if key == "windowed" then 18 else if key == "nounsupported" then 22
             else if key == "quitappafter" then 23 else if key == "viewonly" then 24 else if key == "verbose" then 26
             else if key == "debug" then 27 else if key == "autostream" then 28 else if key == "nomouseemulation" then 29
             else 32;
    IndexOfEntry(k);
  }

  lemma SwitchIgnored(o: LongOption, value: string, m: Machine)
    requires !o.hasArg && value != "true"
    ensures ApplyOption(o, value, m) == m
  {
  }

  // ---------------------------------------------------------------------------
  // The reused line buffer
  // ---------------------------------------------------------------------------

  lemma EndedLine(line: string, buffer: string)
    requires Ended(line)
    ensures CString(Overlay(line, buffer)) == CString(line)
  {
    hide CString;
    var tail := if |line| + 1 <= |buffer| then buffer[|line| + 1..] else "";
    assert Overlay(line, buffer) == line + (['\0'] + tail);
    CStringCut(line, tail);
  }

  lemma {:induction false} FirstLineEnds(text: string)
    requires Ended(text)
    ensures Ended(FirstLine(text))
  {
    if text[0] != '\n' {
      assert Ended(text[1..]);
      FirstLineEnds(text[1..]);
    }
  }

  /** A file that is empty or ends in a newline is parsed the same whatever the line buffer held. */
  lemma {:induction false} BufferIsIrrelevant(text: string, heap1: string, heap2: string, m: Machine)
    requires text == "" || Ended(text)
    ensures ParseText(text, heap1, m) == ParseText(text, heap2, m)
    decreases |text|
  {
    hide FirstLine, CString, Overlay, ApplyLine;
    if text != "" && m.status == Running {
      var line := FirstLine(text);
      FirstLineEnds(text);
      EndedLine(line, heap1);
      EndedLine(line, heap2);
      BufferIsIrrelevant(text[|line|..], Overlay(line, heap1), Overlay(line, heap2), ApplyLine(CString(line), m));
    }
  }

  /** The bytes that follow a line in the buffer it was read into, if it was not terminated. */
  function Stale(line: string, buffer: string): string {
    if |line| <= |buffer| then buffer[|line|..] else ""
  }

  /** A line without its newline, as a file may end with. */
  function Unended(key: string, value: string): string { key + " = " + value }

  lemma {:induction false} RestOfLineRunsOn(value: string, rest: string, limit: nat)
    requires |value| <= limit && '\n' !in value
    ensures RestOfLine(value + rest, limit) == value + RestOfLine(rest, limit - |value|)
  {
    if value == "" {
      assert value + rest == rest;
    } else {
      assert (value + rest)[1..] == value[1..] + rest;
      assert '\n' !in value[1..];
      RestOfLineRunsOn(value[1..], rest, limit - 1);
    }
  }

  /** The value of an unended line runs on into whatever is left in the buffer, up to the field limit. */
  lemma UnendedLine(key: string, value: string, buffer: string)
    requires IsKey(key) && Storable(value) && NoNul(value)
    ensures Scan(CString(Overlay(Unended(key, value), buffer))) ==
            KeyValue(key, value + RestOfLine(CString(Stale(Unended(key, value), buffer)), FIELD_LIMIT - |value|))
  {
    hide Scan, RestOfLine, CString, Unended, Overlay, Stale;
    var line, stale := Unended(key, value), Stale(Unended(key, value), buffer);
    UnendedIsOpen(key, value);
    OverlayUnended(line, buffer);
    CStringConcat(line, stale);
    UnendedTail(key, value, CString(stale));
    ScanEntry(key, value + CString(stale));
    RestOfLineRunsOn(value, CString(stale), FIELD_LIMIT);
  }

  lemma UnendedIsOpen(key: string, value: string)
    requires IsKey(key) && Storable(value) && NoNul(value)
    ensures NoNul(Unended(key, value)) && !Ended(Unended(key, value))
  {
    var line := Unended(key, value);
    assert line[|line| - 1] == value[|value| - 1];
  }

  lemma OverlayUnended(line: string, buffer: string)
    requires !Ended(line)
    ensures Overlay(line, buffer) == line + Stale(line, buffer)
  {
  }

  lemma UnendedTail(key: string, value: string, rest: string)
    ensures Unended(key, value) + rest == key + " = " + (value + rest)
  {
  }

  /** Nothing is left that the value could run on into. */
  predicate NothingLeft(value: string, stale: string) {
    |value| == FIELD_LIMIT || stale == "" || stale[0] == '\0' || stale[0] == '\n'
  }

  /** An unended line gives its own value exactly when it fills the field or the buffer happens to end there. */
  lemma UnendedExactly(key: string, value: string, buffer: string)
    requires IsKey(key) && Storable(value) && NoNul(value)
    ensures Scan(CString(Overlay(Unended(key, value), buffer))) == KeyValue(key, value) <==>
            NothingLeft(value, Stale(Unended(key, value), buffer))
  {
    hide Scan, Overlay, Stale;
    UnendedLine(key, value, buffer);
  }

  /** What the line buffer holds after written lines were read into it. */
  function BufferAfter(es: seq<Entry>, buffer: string): string {
    if es == [] then buffer else BufferAfter(es[1..], Overlay(Line(es[0]), buffer))
  }

  /** A file of written lines and an unended last one: the last line is read over what the others left. */
  lemma {:induction false} ReadUnended(es: seq<Entry>, key: string, value: string, buffer: string, m: Machine)
    requires Clean(es) && IsKey(key) && Storable(value) && NoNul(value) && Replay(es, m).status == Running
    ensures ParseText(Rendered(es) + Unended(key, value), buffer, m) ==
            ApplyLine(CString(Overlay(Unended(key, value), BufferAfter(es, buffer))), Replay(es, m))
    decreases |es|
  {
    hide FirstLine, Scan, CString, Overlay, Line, ApplyKey, Unended;
    var last := Unended(key, value);
    if es == [] {
      OneLine(key, value);
      assert Rendered(es) + last == last && last[|last|..] == "";
    } else {
      if m.status != Running {
        ReplayStopped(es, m);
      }
      var rest := Rendered(es[1..]) + last;
      LineNotEmpty(es[0]);
      ReadLine(es[0], rest, buffer);
      assert Rendered(es) + last == Line(es[0]) + rest;
      assert (Line(es[0]) + rest)[|Line(es[0])|..] == rest;
      var after := Overlay(Line(es[0]), buffer);
      ReadUnended(es[1..], key, value, after, ApplyLine(CString(after), m));
    }
  }

  lemma OneLine(key: string, value: string)
    requires IsKey(key) && Storable(value)
    ensures FirstLine(Unended(key, value)) == Unended(key, value) != ""
  {
    var line := Unended(key, value);
    FirstLineIs(line, "");
    assert line + "" == line;
  }

  /**
   A file whose last line sets the app and has no newline: the value arrives exactly when it
   fills the field or the lines before left nothing behind it in the buffer.
   */
  lemma LastAppLine(es: seq<Entry>, value: string, heap: string, m: Machine)
    requires Clean(es) && Storable(value) && NoNul(value) && Replay(es, m).status == Running
    ensures ParseText(Rendered(es) + Unended("app", value), heap, m).s.app == value <==>
            NothingLeft(value, Stale(Unended("app", value), BufferAfter(es, heap)))
  {
    hide ParseText, Rendered, Replay, BufferAfter, Scan, CString, Overlay, Unended, Stale, ApplyKey, RestOfLine;
    SavedNamesAreKeys();
    var buffer := BufferAfter(es, heap);
    ReadUnended(es, "app", value, heap, m);
    UnendedLine("app", value, buffer);
    UnendedExactly("app", value, buffer);
    TextOptions(value + RestOfLine(CString(Stale(Unended("app", value), buffer)), FIELD_LIMIT - |value|), Replay(es, m));
  }

  /** In particular it arrives whatever fresh memory holds only if it fills the field. */
  lemma UnendedForEveryHeap(value: string, m: Machine)
    requires Storable(value) && NoNul(value) && m.status == Running
    ensures (forall heap: string :: ParseText(Unended("app", value), heap, m).s.app == value) <==> |value| == FIELD_LIMIT
  {
    hide ParseText, Unended;
    var line := Unended("app", value);
    assert Rendered([]) + line == line;
    forall heap: string
      ensures ParseText(line, heap, m).s.app == value <==> NothingLeft(value, Stale(line, heap))
    {
      LastAppLine([], value, heap, m);
    }
    if |value| != FIELD_LIMIT {
      var heap := line + "x";
      assert heap[|line|..] == "x";
      assert ParseText(line, heap, m).s.app != value;
    }
  }
}
