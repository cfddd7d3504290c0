/**
 The expat handlers of xml_search_ex and xml_modelist. The parser is a sequence of events; it
 may cut character data into chunks anywhere, but never reports an empty chunk.
 */
module XmlText {
  import opened CText
  import opened CTypes

  datatype Event = Start(name: string) | End(name: string) | Data(text: string)

  /** A heap block, or a null pointer. */
  datatype Memory = NoBlock | Block(bytes: string)

  datatype Mode = Mode(width: nat, height: nat, refresh: nat)

  predicate Chunks(es: seq<Event>) { forall i :: 0 <= i < |es| && es[i].Data? ==> es[i].text != "" }

  // ---------------------------------------------------------------------------
  // What the handlers compute, event by event
  // ---------------------------------------------------------------------------

  function Depth(depth: int, e: Event, node: string): int {
    match e
    case Start(name) => if name == node then depth + 1 else depth
    case End(name) => if name == node then depth - 1 else depth
    case Data(_) => depth
  }

  /** All text met while the depth of the named element is positive. */
  function Collected(es: seq<Event>, node: string, depth: int): string {
    if es == [] then ""
    else (if es[0].Data? && depth > 0 then es[0].text else "") + Collected(es[1..], node, Depth(depth, es[0], node))
  }

  predicate IsField(name: string) { name == "Height" || name == "Width" || name == "RefreshRate" }

  /** The number a field's text stands for, as an unsigned int. */
  function Number(text: string): nat { StrTol(CString(text)) % U32 }

  function SetField(m: Mode, name: string, n: nat): Mode {
    if name == "Width" then m.(width := n)
    else if name == "Height" then m.(height := n)
    else if name == "RefreshRate" then m.(refresh := n)
    else m
  }

  /** The text of the field being read, if one is open, and the modes so far, newest first. */
  datatype ModeState = ModeState(open: Option<string>, modes: seq<Mode>)

  /** `heap` is the byte a fresh block holds: a field without text is read from it. */
  function ModeStep(s: ModeState, e: Event, heap: char): ModeState {
    match e
    case Start(name) =>
      if name == "DisplayMode" then s.(modes := [Mode(0, 0, 0)] + s.modes)
      else if s.modes != [] && IsField(name) then s.(open := Some(""))
      else s
    case End(name) =>
      if s.modes == [] || s.open.None? then s
      else
        var n := Number(if s.open.value == "" then [heap] else s.open.value);
        ModeState(None, [SetField(s.modes[0], name, n)] + s.modes[1..])
    case Data(text) => if s.open.Some? then s.(open := Some(s.open.value + text)) else s
  }

  function ModeRun(s: ModeState, es: seq<Event>, heap: char): ModeState
    decreases |es|
  {
    if es == [] then s else ModeRun(ModeStep(s, es[0], heap), es[1..], heap)
  }

  // ---------------------------------------------------------------------------
  // The program
  // ---------------------------------------------------------------------------

  datatype SearchResult = Value(text: string) | Invalid

  class XmlQuery {
    var memory: Memory
    var size: nat
    var start: int
    var node: string
    var modes: seq<Mode>
    const heap: char

    constructor (memory: Memory, node: string, heap: char)
      ensures this.memory == memory && size == 0 && start == 0 && this.node == node && modes == [] && this.heap == heap
    {
      this.memory, this.node, this.heap := memory, node, heap;
      size, start, modes := 0, 0, [];
    }

    /** While text is taken in, the block is large enough, and there is no text without a block. */
    ghost predicate Valid()
      reads this
    {
      start > 0 ==> if memory.NoBlock? then size == 0 else size <= |memory.bytes|
    }

    /** The text taken in so far. */
    ghost function Text(): string
      reads this
    {
      if memory.Block? && size <= |memory.bytes| then memory.bytes[..size] else ""
    }

    method WriteCdata(s: string)
      requires Valid()
      modifies this`memory, this`size
      ensures Valid()
      ensures start <= 0 ==> memory == old(memory) && size == old(size)
      ensures start > 0 ==> memory == Block(old(Text()) + s + ['\0']) && size == old(size) + |s|
    {
      if start <= 0 {
        return;
      }
      var kept := if memory.NoBlock? then "" else memory.bytes[..size];
      memory := Block(kept + s + ['\0']);
      size := size + |s|;
    }

    method StartElement(name: string)
      modifies this`start
      ensures start == Depth(old(start), Start(name), node)
    {
      if node == name {
        start := start + 1;
      }
    }

    method EndElement(name: string)
      modifies this`start
      ensures start == Depth(old(start), End(name), node)
    {
      if node == name {
        start := start - 1;
      }
    }

    /** The parser's call for one event of a search; the block, once there is one, ends in a NUL. */
    method Handle(e: Event)
      requires Valid() && size == |Text()| && (e.Data? ==> e.text != "")
      requires memory.NoBlock? || memory == Block(Text() + ['\0'])
      modifies this`memory, this`size, this`start
      ensures Valid() && size == |Text()| && start == Depth(old(start), e, node)
      ensures Text() == old(Text()) + if e.Data? && old(start) > 0 then e.text else ""
      ensures memory == if Text() == "" then old(memory) else Block(Text() + ['\0'])
    {
      match e
      case Start(name) => StartElement(name);
      case End(name) => EndElement(name);
      case Data(text) => WriteCdata(text);
    }

    /** The state of the mode list: the text being read is in the block, which is one byte as long as there is none. */
    ghost predicate Represents(s: ModeState)
      reads this
    {
      modes == s.modes && (start == if s.open.Some? then 1 else 0) &&
      (s.open.Some? ==> modes != [] && size == |s.open.value|) &&
      (s.open.Some? ==> memory == Block(if s.open.value == "" then [heap] else s.open.value + ['\0']))
    }

    method StartMode(name: string, ghost s: ModeState)
      requires Represents(s)
      modifies this
      ensures Represents(ModeStep(s, Start(name), heap))
    {
      if name == "DisplayMode" {
        modes := [Mode(0, 0, 0)] + modes;
      } else if modes != [] && (name == "Height" || name == "Width" || name == "RefreshRate") {
        memory := Block([heap]);
        size := 0;
        start := 1;
      }
    }

    method EndMode(name: string, ghost s: ModeState)
      requires Represents(s)
      modifies this
      ensures Represents(ModeStep(s, End(name), heap))
    {
      if modes == [] || start == 0 {
        return;
      }
      ghost var text := s.open.value;
      CStringCut(text, "");
      assert ['\0'] + "" == ['\0'];
      var n := Number(memory.bytes);
      var mode := modes[0];
      if name == "Width" {
        mode := mode.(width := n);
      } else if name == "Height" {
        mode := mode.(height := n);
      } else if name == "RefreshRate" {
        mode := mode.(refresh := n);
      }
      modes := [mode] + modes[1..];
      memory := NoBlock;
      start := 0;
    }

    method ModeData(text: string, ghost s: ModeState)
      requires Represents(s) && text != ""
      modifies this
      ensures Represents(ModeStep(s, Data(text), heap))
    {
      WriteCdata(text);
    }
  }

  /** xml_search_ex, given the parser's events and whether it accepted the document. */
  method SearchEx(es: seq<Event>, accepted: bool, node: string, required: bool, heap: char) returns (r: SearchResult)
    requires Chunks(es)
    ensures var text := Collected(es, node, 0);
            r == if !accepted || (required && text == "") then Invalid else Value(CString(text))
  {
    hide Collected, CString, Depth;
    var q := new XmlQuery(if required then NoBlock else Block(['\0']), node, heap);
    ghost var done := "";
    var i := 0;
    assert es[0..] == es && done + ['\0'] == ['\0'] && done + Collected(es, node, 0) == Collected(es, node, 0);
    while i < |es|
      invariant 0 <= i <= |es| && q.Valid() && q.node == node && q.Text() == done && q.size == |done|
      invariant q.memory == if required && done == "" then NoBlock else Block(done + ['\0'])
      invariant done + Collected(es[i..], node, q.start) == Collected(es, node, 0)
    {
      CollectedStep(es, i, node, q.start, done);
      q.Handle(es[i]);
      done := q.Text();
      i := i + 1;
    }
    CollectedNothing(node, q.start);
    assert es[i..] == [] && done + "" == done;
    if !accepted {
      return Invalid;
    }
    if q.memory == NoBlock && required {
      return Invalid;
    }
    CStringCut(done, "");
    assert ['\0'] + "" == ['\0'];
    r := Value(CString(q.memory.bytes));
  }

  lemma CollectedNothing(node: string, depth: int)
    ensures Collected([], node, depth) == ""
  {
  }

  lemma CollectedStep(es: seq<Event>, i: nat, node: string, depth: int, done: string)
    requires i < |es|
    ensures done + Collected(es[i..], node, depth) ==
            done + (if es[i].Data? && depth > 0 then es[i].text else "") + Collected(es[i + 1..], node, Depth(depth, es[i], node))
  {
    assert es[i..][1..] == es[i + 1..];
  }

  /** xml_modelist. */
  method ModeList(es: seq<Event>, accepted: bool, heap: char) returns (r: Option<seq<Mode>>)
    requires Chunks(es)
    ensures r == if accepted then Some(ModeRun(ModeState(None, []), es, heap).modes) else None
  {
    var q := new XmlQuery(NoBlock, "", heap);
    ghost var s := ModeState(None, []);
    var i := 0;
    assert es[0..] == es;
    while i < |es|
      invariant 0 <= i <= |es| && q.Represents(s) && q.heap == heap
      invariant ModeRun(s, es[i..], heap) == ModeRun(ModeState(None, []), es, heap)
    {
      ghost var before := s;
      assert es[i..][1..] == es[i + 1..];
      s := ModeStep(before, es[i], heap);
      i := i + 1;
      match es[i - 1]
      case Start(name) => q.StartMode(name, before);
      case End(name) => q.EndMode(name, before);
      case Data(text) => q.ModeData(text, before);
    }
    return if accepted then Some(q.modes) else None;
  }

  // ---------------------------------------------------------------------------
  // Documents
  // ---------------------------------------------------------------------------

  /** Document content: elements and character data, each followed by what comes next. */
  datatype Content = Nil | Elem(name: string, kids: Content, next: Content) | Chars(text: string, next: Content)

  /** The events of a document, with each piece of character data in one chunk. */
  function Events(c: Content): seq<Event> {
    match c
    case Nil => []
    case Elem(name, kids, next) => [Start(name)] + Events(kids) + [End(name)] + Events(next)
    case Chars(text, next) => [Data(text)] + Events(next)
  }

  /** The events with every chunk cut into single characters. */
  function PerChar(es: seq<Event>): seq<Event> {
    if es == [] then [] else Singles(es[0]) + PerChar(es[1..])
  }

  function Singles(e: Event): seq<Event> {
    if e.Data? then seq(|e.text|, i requires 0 <= i < |e.text| => Data([e.text[i]])) else [e]
  }

  /** A parser run over a document: its chunks may be cut anywhere. */
  ghost predicate ParseOf(es: seq<Event>, c: Content) { PerChar(es) == PerChar(Events(c)) }

  /** The text of a document inside elements of a name, in document order. */
  function Inside(c: Content, node: string, depth: nat): string {
    match c
    case Nil => ""
    case Elem(name, kids, next) => Inside(kids, node, if name == node then depth + 1 else depth) + Inside(next, node, depth)
    case Chars(text, next) => (if depth > 0 then text else "") + Inside(next, node, depth)
  }

  lemma {:induction false} CollectedAppend(a: seq<Event>, b: seq<Event>, node: string, depth: int)
    ensures Collected(a + b, node, depth) == Collected(a, node, depth) + Collected(b, node, DepthAfter(a, node, depth))
  {
    if a == [] {
      assert a + b == b;
    } else {
      assert (a + b)[1..] == a[1..] + b;
      CollectedAppend(a[1..], b, node, Depth(depth, a[0], node));
    }
  }

  function DepthAfter(es: seq<Event>, node: string, depth: int): int {
    if es == [] then depth else DepthAfter(es[1..], node, Depth(depth, es[0], node))
  }

  lemma {:induction false} DepthAppend(a: seq<Event>, b: seq<Event>, node: string, depth: int)
    ensures DepthAfter(a + b, node, depth) == DepthAfter(b, node, DepthAfter(a, node, depth))
  {
    if a == [] {
      assert a + b == b;
    } else {
      assert (a + b)[1..] == a[1..] + b;
      DepthAppend(a[1..], b, node, Depth(depth, a[0], node));
    }
  }

  /** Cutting text into characters changes nothing. */
  lemma {:induction false} CollectedPerChar(es: seq<Event>, node: string, depth: int)
    ensures Collected(PerChar(es), node, depth) == Collected(es, node, depth)
  {
    if es != [] {
      CollectedAppend(Singles(es[0]), PerChar(es[1..]), node, depth);
      CollectedPerChar(es[1..], node, Depth(depth, es[0], node));
      SinglesCollected(es[0], node, depth);
    }
  }

  lemma SinglesCollected(e: Event, node: string, depth: int)
    ensures Collected(Singles(e), node, depth) == if e.Data? && depth > 0 then e.text else ""
    ensures DepthAfter(Singles(e), node, depth) == Depth(depth, e, node)
  {
    if e.Data? {
      TextCollected(e.text, node, depth);
    } else {
      assert Singles(e) == [e];
    }
  }

  lemma {:induction false} TextCollected(text: string, node: string, depth: int)
    ensures Collected(Singles(Data(text)), node, depth) == if depth > 0 then text else ""
    ensures DepthAfter(Singles(Data(text)), node, depth) == depth
  {
    if text != "" {
      var es := Singles(Data(text));
      assert es[0] == Data([text[0]]) && es[1..] == Singles(Data(text[1..]));
      TextCollected(text[1..], node, depth);
    }
  }

  lemma {:induction false} EventsCollected(c: Content, node: string, depth: nat)
    ensures Collected(Events(c), node, depth) == Inside(c, node, depth)
    ensures DepthAfter(Events(c), node, depth) == depth
  {
    match c
    case Nil =>
    case Elem(name, kids, next) =>
      var d := if name == node then depth + 1 else depth;
      EventsCollected(kids, node, d);
      EventsCollected(next, node, depth);
      Append3(Start(name), Events(kids), End(name), Events(next), node, depth);
    case Chars(text, next) =>
      EventsCollected(next, node, depth);
      assert ([Data(text)] + Events(next))[1..] == Events(next);
  }

  lemma Append3(a: Event, b: seq<Event>, c: Event, d: seq<Event>, node: string, depth: int)
    requires !a.Data? && !c.Data?
    ensures var d1 := DepthAfter(b, node, Depth(depth, a, node));
            Collected([a] + b + [c] + d, node, depth) ==
            Collected(b, node, Depth(depth, a, node)) + Collected(d, node, Depth(d1, c, node)) &&
            DepthAfter([a] + b + [c] + d, node, depth) == DepthAfter(d, node, Depth(d1, c, node))
  {
    var rest := b + ([c] + d);
    assert [a] + b + [c] + d == [a] + rest;
    assert ([a] + rest)[1..] == rest;
    CollectedAppend(b, [c] + d, node, Depth(depth, a, node));
    DepthAppend(b, [c] + d, node, Depth(depth, a, node));
    assert ([c] + d)[1..] == d;
  }

  /** xml_search_ex collects all text inside the named elements, however the parser cuts it. */
  lemma SearchIgnoresChunking(es: seq<Event>, c: Content, node: string)
    requires ParseOf(es, c)
    ensures Collected(es, node, 0) == Inside(c, node, 0)
  {
    CollectedPerChar(es, node, 0);
    CollectedPerChar(Events(c), node, 0);
    EventsCollected(c, node, 0);
  }

  // ---------------------------------------------------------------------------
  // Mode lists
  // ---------------------------------------------------------------------------

  predicate TextOnly(c: Content) { c.Nil? || (c.Chars? && TextOnly(c.next)) }

  function AllText(c: Content): string
    requires TextOnly(c)
  {
    if c.Nil? then "" else c.text + AllText(c.next)
  }

  /** Every field holds character data only, and some of it. */
  predicate Flat(c: Content) {
    match c
    case Nil => true
    case Elem(name, kids, next) =>
      Flat(next) && if IsField(name) then TextOnly(kids) && AllText(kids) != "" else Flat(kids)
    case Chars(_, next) => Flat(next)
  }

  /** The modes of a document: each DisplayMode is put in front, each field belongs to the front one. */
  function Modes(c: Content, modes: seq<Mode>): seq<Mode>
    requires Flat(c)
  {
    match c
    case Nil => modes
    case Chars(_, next) => Modes(next, modes)
    case Elem(name, kids, next) =>
      if IsField(name) then
        Modes(next, if modes == [] then [] else [SetField(modes[0], name, Number(AllText(kids)))] + modes[1..])
      else if name == "DisplayMode" then Modes(next, Modes(kids, [Mode(0, 0, 0)] + modes))
      else Modes(next, Modes(kids, modes))
  }

  lemma {:induction false} RunAppend(s: ModeState, a: seq<Event>, b: seq<Event>, heap: char)
    ensures ModeRun(s, a + b, heap) == ModeRun(ModeRun(s, a, heap), b, heap)
    decreases |a|
  {
    if a == [] {
      assert a + b == b;
    } else {
      assert (a + b)[1..] == a[1..] + b;
      RunAppend(ModeStep(s, a[0], heap), a[1..], b, heap);
    }
  }

  lemma RunElem(s: ModeState, name: string, kids: seq<Event>, next: seq<Event>, heap: char)
    ensures ModeRun(s, [Start(name)] + kids + [End(name)] + next, heap) ==
            ModeRun(ModeStep(ModeRun(ModeStep(s, Start(name), heap), kids, heap), End(name), heap), next, heap)
  {
    hide ModeStep;
    var rest := kids + ([End(name)] + next);
    assert [Start(name)] + kids + [End(name)] + next == [Start(name)] + rest;
    assert ([Start(name)] + rest)[1..] == rest;
    RunAppend(ModeStep(s, Start(name), heap), kids, [End(name)] + next, heap);
    assert ([End(name)] + next)[1..] == next;
  }

  lemma {:induction false} RunPerChar(s: ModeState, es: seq<Event>, heap: char)
    ensures ModeRun(s, PerChar(es), heap) == ModeRun(s, es, heap)
    decreases |es|
  {
    hide ModeStep, Singles;
    if es != [] {
      RunAppend(s, Singles(es[0]), PerChar(es[1..]), heap);
      RunSingles(s, es[0], heap);
      RunPerChar(ModeStep(s, es[0], heap), es[1..], heap);
    }
  }

  lemma RunSingles(s: ModeState, e: Event, heap: char)
    ensures ModeRun(s, Singles(e), heap) == ModeStep(s, e, heap)
  {
    if e.Data? {
      RunText(s, e.text, heap);
    } else {
      assert Singles(e) == [e] && [e][1..] == [];
    }
  }

  lemma {:induction false} RunText(s: ModeState, text: string, heap: char)
    ensures ModeRun(s, Singles(Data(text)), heap) == ModeStep(s, Data(text), heap)
    decreases |text|
  {
    if text == "" {
      assert s.open.Some? ==> s.open.value + "" == s.open.value;
    } else {
      var es := Singles(Data(text));
      assert es[0] == Data([text[0]]) && es[1..] == Singles(Data(text[1..]));
      RunText(ModeStep(s, es[0], heap), text[1..], heap);
      assert s.open.Some? ==> s.open.value + [text[0]] + text[1..] == s.open.value + text;
    }
  }

  /** Character data outside a field is skipped, inside it is appended. */
  lemma {:induction false} RunTextOnly(s: ModeState, c: Content, heap: char)
    requires TextOnly(c)
    ensures ModeRun(s, Events(c), heap) == if s.open.Some? then s.(open := Some(s.open.value + AllText(c))) else s
    decreases c
  {
    if c.Chars? {
      var s' := ModeStep(s, Data(c.text), heap);
      assert Events(c)[1..] == Events(c.next);
      RunTextOnly(s', c.next, heap);
      assert s.open.Some? ==> s.open.value + c.text + AllText(c.next) == s.open.value + AllText(c);
    } else {
      assert s.open.Some? ==> s.open.value + "" == s.open.value;
    }
  }

  /** The state after a field element, from its start to its end. */
  function FieldRead(modes: seq<Mode>, name: string, kids: Content, heap: char): ModeState {
    ModeStep(ModeRun(ModeStep(ModeState(None, modes), Start(name), heap), Events(kids), heap), End(name), heap)
  }

  /** A field's number is read from its text, or from fresh memory if it has none. */
  lemma FieldRun(modes: seq<Mode>, name: string, kids: Content, heap: char)
    requires IsField(name) && TextOnly(kids)
    ensures FieldRead(modes, name, kids, heap) ==
            ModeState(None, if modes == [] then []
                            else [SetField(modes[0], name, Number(if AllText(kids) == "" then [heap] else AllText(kids)))] +
                                 modes[1..])
  {
    hide Number, SetField;
    RunTextOnly(ModeStep(ModeState(None, modes), Start(name), heap), kids, heap);
    assert "" + AllText(kids) == AllText(kids);
  }

  lemma {:induction false} DocumentRun(c: Content, modes: seq<Mode>, heap: char)
    requires Flat(c)
    ensures ModeRun(ModeState(None, modes), Events(c), heap) == ModeState(None, Modes(c, modes))
  {
    hide Number, SetField;
    match c
    case Nil =>
    case Chars(text, next) =>
      assert Events(c)[1..] == Events(next);
      DocumentRun(next, modes, heap);
    case Elem(name, kids, next) =>
      RunElem(ModeState(None, modes), name, Events(kids), Events(next), heap);
      if IsField(name) {
        FieldRun(modes, name, kids, heap);
        DocumentRun(next, if modes == [] then [] else [SetField(modes[0], name, Number(AllText(kids)))] + modes[1..], heap);
      } else {
        var inner := if name == "DisplayMode" then [Mode(0, 0, 0)] + modes else modes;
        DocumentRun(kids, inner, heap);
        DocumentRun(next, Modes(kids, inner), heap);
      }
  }

  /** For a flat document the list does not depend on the chunks, nor on what fresh memory held. */
  lemma ModesIgnoreChunking(es: seq<Event>, c: Content, heap: char)
    requires ParseOf(es, c) && Flat(c)
    ensures ModeRun(ModeState(None, []), es, heap) == ModeState(None, Modes(c, []))
  {
    RunPerChar(ModeState(None, []), es, heap);
    RunPerChar(ModeState(None, []), Events(c), heap);
    DocumentRun(c, [], heap);
  }

  /** What a field leaves is independent of what fresh memory held exactly when the field has text. */
  lemma EmptyFieldReadsHeap(modes: seq<Mode>, name: string, kids: Content)
    requires IsField(name) && TextOnly(kids) && modes != []
    ensures (forall heap1: char, heap2: char ::
               FieldRead(modes, name, kids, heap1) == FieldRead(modes, name, kids, heap2)) <==> AllText(kids) != ""
  {
    hide FieldRead, Number, SetField;
    if AllText(kids) == "" {
      FieldRun(modes, name, kids, '7');
      FieldRun(modes, name, kids, '0');
      OneDigit('7');
      OneDigit('0');
      FieldsDiffer(modes, name, 7, 0);
      var heap1: char, heap2: char := '7', '0';
      assert FieldRead(modes, name, kids, heap1) != FieldRead(modes, name, kids, heap2);
    } else {
      forall heap1: char, heap2: char
        ensures FieldRead(modes, name, kids, heap1) == FieldRead(modes, name, kids, heap2)
      {
        FieldRun(modes, name, kids, heap1);
        FieldRun(modes, name, kids, heap2);
      }
    }
  }

  lemma FieldsDiffer(modes: seq<Mode>, name: string, a: nat, b: nat)
    requires IsField(name) && modes != [] && a != b
    ensures [SetField(modes[0], name, a)] + modes[1..] != [SetField(modes[0], name, b)] + modes[1..]
  {
    assert ([SetField(modes[0], name, a)] + modes[1..])[0] == SetField(modes[0], name, a);
    assert ([SetField(modes[0], name, b)] + modes[1..])[0] == SetField(modes[0], name, b);
  }

  lemma OneDigit(c: char)
    requires IsDigit(c)
    ensures Number([c]) == DigitValue(c)
  {
    assert PrintNat(DigitValue(c)) == [c];
    PrintedNumber(DigitValue(c));
  }

  // ---------------------------------------------------------------------------
  // The elements by name
  // ---------------------------------------------------------------------------

  /** The number of a text as an unsigned 32-bit field keeps it. */
  function FieldValue(text: string): nat { StrTol(CString(text)) % 0x1_0000_0000 }

  /** A field element with text sets its own field of the mode begun last, and no other. */
  lemma FieldsByName(m: Mode, modes: seq<Mode>, kids: Content, next: Content)
    requires TextOnly(kids) && AllText(kids) != "" && Flat(next)
    ensures Flat(Elem("Width", kids, next)) && Flat(Elem("Height", kids, next)) && Flat(Elem("RefreshRate", kids, next))
    ensures Modes(Elem("Width", kids, next), [m] + modes) == Modes(next, [m.(width := FieldValue(AllText(kids)))] + modes)
    ensures Modes(Elem("Height", kids, next), [m] + modes) == Modes(next, [m.(height := FieldValue(AllText(kids)))] + modes)
    ensures Modes(Elem("RefreshRate", kids, next), [m] + modes) == Modes(next, [m.(refresh := FieldValue(AllText(kids)))] + modes)
  {
    hide StrTol, CString;
    assert ([m] + modes)[1..] == modes;
  }

  /** Before the first mode it does nothing. */
  lemma FieldsWithoutMode(name: string, kids: Content, next: Content)
    requires name == "Width" || name == "Height" || name == "RefreshRate"
    requires TextOnly(kids) && AllText(kids) != "" && Flat(next)
    ensures Modes(Elem(name, kids, next), []) == Modes(next, [])
  {
  }

  /** A DisplayMode begins a mode of zeros; an element of any other name counts for its content alone. */
  lemma OtherElements(name: string, modes: seq<Mode>, kids: Content, next: Content)
    requires Flat(kids) && Flat(next) && name != "Width" && name != "Height" && name != "RefreshRate"
    ensures Flat(Elem(name, kids, next))
    ensures Modes(Elem(name, kids, next), modes) ==
            Modes(next, Modes(kids, if name == "DisplayMode" then [Mode(0, 0, 0)] + modes else modes))
  {
  }

  // ---------------------------------------------------------------------------
  // Lists of records
  // ---------------------------------------------------------------------------

  predicate InRange(m: Mode) { m.width <= INT_MAX && m.height <= INT_MAX && m.refresh <= INT_MAX }

  function Field(name: string, n: nat, next: Content): Content { Elem(name, Chars(PrintNat(n), Nil), next) }

  /** A list of modes written as DisplayMode elements. */
  function Records(ms: seq<Mode>): Content {
    if ms == [] then Nil
    else
      Elem("DisplayMode",
           Field("Width", ms[0].width, Field("Height", ms[0].height, Field("RefreshRate", ms[0].refresh, Nil))),
           Records(ms[1..]))
  }

  function Reversed(ms: seq<Mode>): seq<Mode> { if ms == [] then [] else Reversed(ms[1..]) + [ms[0]] }

  lemma PrintedNumber(n: nat)
    requires n <= INT_MAX
    ensures Number(PrintNat(n)) == n && PrintNat(n) != ""
  {
    PrintNatIsDigits(n);
    IntRoundTrip(n, "");
    assert PrintNat(n) + "" == PrintNat(n);
    CStringOf(PrintNat(n), "");
  }

  /** Written modes come back with their numbers, last written first. */
  lemma {:induction false} RecordsComeBackReversed(ms: seq<Mode>, modes: seq<Mode>)
    requires forall i :: 0 <= i < |ms| ==> InRange(ms[i])
    ensures Flat(Records(ms)) && Modes(Records(ms), modes) == Reversed(ms) + modes
  {
    hide Number, PrintNat;
    if ms == [] {
      assert [] + modes == modes;
    } else {
      var m := ms[0];
      RecordsComeBackReversed(ms[1..], [m] + modes);
      OneRecord(m, modes);
      assert Reversed(ms[1..]) + ([m] + modes) == Reversed(ms) + modes;
    }
  }

  lemma OneRecord(m: Mode, modes: seq<Mode>)
    requires InRange(m)
    ensures var c := Field("Width", m.width, Field("Height", m.height, Field("RefreshRate", m.refresh, Nil)));
            Flat(c) && Modes(c, [Mode(0, 0, 0)] + modes) == [m] + modes
  {
    hide Number, PrintNat;
    PrintedNumber(m.width);
    PrintedNumber(m.height);
    PrintedNumber(m.refresh);
    OneField("RefreshRate", m.refresh, Nil, Mode(m.width, m.height, 0), modes);
    OneField("Height", m.height, Field("RefreshRate", m.refresh, Nil), Mode(m.width, 0, 0), modes);
    OneField("Width", m.width, Field("Height", m.height, Field("RefreshRate", m.refresh, Nil)), Mode(0, 0, 0), modes);
  }

  lemma OneField(name: string, n: nat, next: Content, m: Mode, modes: seq<Mode>)
    requires IsField(name) && n <= INT_MAX && Flat(next)
    ensures Flat(Field(name, n, next))
    ensures Modes(Field(name, n, next), [m] + modes) == Modes(next, [SetField(m, name, n)] + modes)
  {
    hide Number, PrintNat, SetField;
    PrintedNumber(n);
    var text := Chars(PrintNat(n), Nil);
    assert TextOnly(text.next) && TextOnly(text);
    assert AllText(text.next) == "" && AllText(text) == PrintNat(n) + "" == PrintNat(n);
    assert ([m] + modes)[1..] == modes;
  }
}
