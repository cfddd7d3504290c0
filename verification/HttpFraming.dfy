/**
 HTTP response framing: the growing receive buffer, the search for the end of the headers,
 the content length, and the two read loops. A buffer is a string of 8-bit characters; the
 terminating NUL that the program keeps behind it is left implicit.
 */
module HttpFraming {
  import opened CText
  import opened CTypes

  const FIELD := "content-length"
  const RECV_SIZE := 4096

  // ---------------------------------------------------------------------------
  // Headers
  // ---------------------------------------------------------------------------

  /** The length of the header block, if its end is in the buffer. */
  function HeaderLength(mem: string): (r: Option<nat>)
    ensures r.Some? ==> r.value <= |mem|
  {
    var text := CString(mem);
    CStringIsPrefix(mem);
    match StrStr(text, "\r\n\r\n")
    case At(i) => Some(i + 4)
    case NotFound =>
      match StrStr(text, "\n\n")
      case At(i) => Some(i + 2)
      case NotFound => None
  }

  /** The field name starts at position `i`, in any case. */
  predicate FieldAt(mem: string, i: nat) {
    i + |FIELD| <= |mem| && forall j :: 0 <= j < |FIELD| ==> Lower(mem[i + j]) == FIELD[j]
  }

  predicate IsSeparator(c: char) { c == ' ' || c == '\t' || c == ':' }

  function SkipSeparators(mem: string, i: nat): (r: nat)
    requires i <= |mem|
    ensures i <= r <= |mem| && (r < |mem| ==> !IsSeparator(mem[r]))
    ensures forall k :: i <= k < r ==> IsSeparator(mem[k])
    decreases |mem| - i
  {
    if i < |mem| && IsSeparator(mem[i]) then SkipSeparators(mem, i + 1) else i
  }

  /** The number behind the first field name that lies within the first `len` bytes, or -1. */
  function ContentLength(mem: string, len: nat, i: nat := 0): int
    requires len <= |mem|
    decreases len + |FIELD| - i
  {
    if i + |FIELD| > len then -1
    else if FieldAt(mem, i) then StrTol(CString(mem[SkipSeparators(mem, i + |FIELD|)..]))
    else ContentLength(mem, len, i + 1)
  }

  /** The response needs no more bytes: header and announced body are in the buffer. */
  predicate Complete(mem: string) {
    match HeaderLength(mem)
    case None => false
    case Some(h) => ContentLength(mem, h) >= 0 && |mem| - h >= ContentLength(mem, h)
  }

  /** The buffer without its header block; all of it when there is none. */
  function Stripped(mem: string): string {
    match HeaderLength(mem)
    case None => mem
    case Some(h) => mem[h..]
  }

  lemma {:induction false} DigitsStop(s: string, t: string, value: nat)
    requires s != "" && !IsDigit(s[|s| - 1])
    ensures DigitsValue(s + t, value) == DigitsValue(s, value)
  {
    if IsDigit(s[0]) {
      assert (s + t)[1..] == s[1..] + t;
      DigitsStop(s[1..], t, 10 * value + DigitValue(s[0]));
    }
  }

  // ---------------------------------------------------------------------------
  // The receive buffer
  // ---------------------------------------------------------------------------

  class HttpData {
    var memory: string

    constructor ()
      ensures memory == ""
    {
      memory := "";
    }

    /** append_data; the allocation may fail. */
    method Append(buf: string, granted: bool) returns (ok: bool)
      modifies this
      ensures ok == granted && memory == if granted then old(memory) + buf else old(memory)
    {
      ok := granted;
      if granted {
        memory := memory + buf;
      }
    }

    /** strip_headers. */
    method StripHeaders()
      modifies this
      ensures memory == Stripped(old(memory))
    {
      CStringIsPrefix(memory);
      var sep := StrStr(CString(memory), "\r\n\r\n");
      var skip: nat;
      if sep.At? {
        skip := sep.index + 4;
      } else {
        sep := StrStr(CString(memory), "\n\n");
        if sep.NotFound? {
          return;
        }
        skip := sep.index + 2;
      }
      memory := memory[skip..];
    }
  }

  /** The pattern loop of parse_content_length. */
  method MatchField(headers: string, i: nat) returns (found: bool)
    requires i + |FIELD| <= |headers|
    ensures found <==> FieldAt(headers, i)
  {
    var j := 0;
    while j < |FIELD|
      invariant 0 <= j <= |FIELD|
      invariant forall k :: 0 <= k < j ==> Lower(headers[i + k]) == FIELD[k]
    {
      var c := headers[i + j];
      if 'A' <= c <= 'Z' {
        c := c + 32 as char;
      }
      if c != FIELD[j] {
        return false;
      }
      j := j + 1;
    }
    return true;
  }

  /** parse_content_length. */
  method ParseContentLength(headers: string, len: nat) returns (value: int)
    requires len <= |headers|
    ensures value == ContentLength(headers, len)
  {
    var i := 0;
    while i + |FIELD| <= len
      invariant 0 <= i && ContentLength(headers, len, i) == ContentLength(headers, len)
    {
      var found := MatchField(headers, i);
      if found {
        var p := i + |FIELD|;
        while p < |headers| && IsSeparator(headers[p])
          invariant i + |FIELD| <= p <= |headers|
          invariant SkipSeparators(headers, p) == SkipSeparators(headers, i + |FIELD|)
        {
          p := p + 1;
        }
        return StrTol(CString(headers[p..]));
      }
      i := i + 1;
    }
    return -1;
  }

  /** response_complete. */
  method ResponseComplete(data: HttpData) returns (complete: bool)
    ensures complete == Complete(data.memory)
  {
    var mem := data.memory;
    CStringIsPrefix(mem);
    var sep := StrStr(CString(mem), "\r\n\r\n");
    var headerLen: nat;
    if sep.At? {
      headerLen := sep.index + 4;
    } else {
      sep := StrStr(CString(mem), "\n\n");
      if sep.NotFound? {
        return false;
      }
      headerLen := sep.index + 2;
    }
    var cl := ParseContentLength(mem, headerLen);
    if cl < 0 {
      return false;
    }
    return |mem| - headerLen >= cl;
  }

  // ---------------------------------------------------------------------------
  // The read loops
  // ---------------------------------------------------------------------------

  /** What one turn of the plain read loop meets. */
  datatype Event =
    | SelectInterrupted | SelectFailed | Timeout
    | RecvInterrupted | RecvEnd
    | Data(chunk: string, granted: bool)

  /** The buffer after the loop; a list that runs out stands for the end of the stream. */
  function Received(events: seq<Event>, mem: string): string
    decreases |events|
  {
    if events == [] then mem
    else
      match events[0]
      case SelectInterrupted => Received(events[1..], mem)
      case RecvInterrupted => Received(events[1..], mem)
      case Data(chunk, granted) =>
        if !granted then mem
        else if Complete(mem + chunk) then mem + chunk
        else Received(events[1..], mem + chunk)
      case _ => mem
  }

  /** read_response. */
  method ReadResponse(data: HttpData, events: seq<Event>) returns (result: int)
    modifies data
    ensures data.memory == Stripped(Received(events, ""))
    ensures result == if data.memory != "" then 0 else -1
  {
    data.memory := "";
    var n, reading := 0, true;
    while n < |events| && reading
      invariant 0 <= n <= |events|
      invariant reading ==> Received(events[n..], data.memory) == Received(events, "")
      invariant !reading ==> data.memory == Received(events, "")
    {
      assert events[n..][1..] == events[n + 1..];
      var event := events[n];
      n := n + 1;
      match event
      case SelectInterrupted =>
      case RecvInterrupted =>
      case Data(chunk, granted) =>
        var ok := data.Append(chunk, granted);
        if !ok {
          reading := false;
        } else {
          var complete := ResponseComplete(data);
          reading := !complete;
        }
      case _ => reading := false;
    }
    data.StripHeaders();
    result := if data.memory != "" then 0 else -1;
  }

  /** The buffer after the read-to-close loop of tls_request; None when memory runs out. */
  function TlsReceived(turns: seq<Event>, mem: string): Option<string>
    decreases |turns|
  {
    if turns == [] || !turns[0].Data? then Some(mem)
    else if !turns[0].granted then None
    else TlsReceived(turns[1..], mem + turns[0].chunk)
  }

  /** The read loop of tls_request: until the stream ends, without regard to the length. */
  method TlsReadResponse(data: HttpData, turns: seq<Event>) returns (result: int)
    modifies data
    ensures result == if TlsReceived(turns, "").Some? then 0 else -1
    ensures result == 0 ==> data.memory == Stripped(TlsReceived(turns, "").value)
  {
    data.memory := "";
    var n := 0;
    while n < |turns| && turns[n].Data?
      invariant 0 <= n <= |turns|
      invariant TlsReceived(turns[n..], data.memory) == TlsReceived(turns, "")
    {
      assert turns[n..][1..] == turns[n + 1..];
      var ok := data.Append(turns[n].chunk, turns[n].granted);
      if !ok {
        return -1;
      }
      n := n + 1;
    }
    data.StripHeaders();
    return 0;
  }

  // ---------------------------------------------------------------------------
  // Well-framed responses
  // ---------------------------------------------------------------------------

  /** A header block: no NUL, no bare empty line, and its only CRLF CRLF is its end. */
  predicate Framed(header: string) {
    && NoNul(header) && |header| >= 4
    && OccursAt(header, "\r\n\r\n", |header| - 4)
    && (forall i :: 0 <= i < |header| - 4 ==> !OccursAt(header, "\r\n\r\n", i))
    && (forall i :: 0 <= i <= |header| ==> !OccursAt(header, "\n\n", i))
  }

  /** What follows the field name at `i` and its separators. */
  function FieldText(header: string, i: nat): string
    requires i + |FIELD| <= |header|
  {
    header[SkipSeparators(header, i + |FIELD|)..]
  }

  /** The first field name is at `i`, and `n` is what strtol makes of what follows it in the header. */
  predicate Announces(header: string, i: nat, n: int) {
    && FieldAt(header, i) && (forall k :: 0 <= k < i ==> !FieldAt(header, k))
    && n == StrTol(FieldText(header, i))
  }

  /** There is more than blanks behind the field name, so that the number ends in the header. */
  predicate Decided(header: string, i: nat)
    requires i + |FIELD| <= |header|
  {
    SkipSpaces(FieldText(header, i)) != ""
  }

  /** A field with nothing but blanks behind it announces 0. */
  lemma BlankIsZero(header: string, i: nat)
    requires i + |FIELD| <= |header| && !Decided(header, i)
    ensures StrTol(FieldText(header, i)) == 0
  {
  }

  /** Every header either has no field name or announces some number. */
  lemma AnnouncedOrNot(header: string)
    ensures AnnouncesNothing(header) || exists i: nat, n: int :: Announces(header, i, n)
  {
    if !AnnouncesNothing(header) {
      var k :| 0 <= k <= |header| && FieldAt(header, k);
      var i := FirstField(header, k);
      assert Announces(header, i, StrTol(FieldText(header, i)));
    }
  }

  lemma {:induction false} FirstField(header: string, k: nat) returns (i: nat)
    requires FieldAt(header, k)
    ensures i <= k && FieldAt(header, i) && forall j :: 0 <= j < i ==> !FieldAt(header, j)
  {
    i := k;
    if j :| 0 <= j < k && FieldAt(header, j) {
      i := FirstField(header, j);
    }
  }

  lemma OccursInPrefix(s: string, t: string, pat: string, i: nat)
    requires i + |pat| <= |s| && s <= t
    ensures OccursAt(t, pat, i) <==> OccursAt(s, pat, i)
  {
    assert t[i..i + |pat|] == s[i..i + |pat|];
  }

  /** Before the header is complete no end of headers is found. */
  lemma HeaderIncomplete(header: string, mem: string)
    requires Framed(header) && mem < header
    ensures HeaderLength(mem) == None
  {
    CStringConcat(mem, "");
    assert mem + "" == mem;
    forall i: nat | i + 4 <= |mem|
      ensures !OccursAt(mem, "\r\n\r\n", i)
    {
      OccursInPrefix(mem, header, "\r\n\r\n", i);
    }
    forall i: nat | i + 2 <= |mem|
      ensures !OccursAt(mem, "\n\n", i)
    {
      OccursInPrefix(mem, header, "\n\n", i);
    }
  }

  /** Once it is, its end is found whatever follows, NULs included. */
  lemma HeaderComplete(header: string, rest: string)
    requires Framed(header)
    ensures HeaderLength(header + rest) == Some(|header|)
  {
    CStringConcat(header, rest);
    var text := header + CString(rest);
    OccursInPrefix(header, text, "\r\n\r\n", |header| - 4);
    forall i: nat | i < |header| - 4
      ensures !OccursAt(text, "\r\n\r\n", i)
    {
      OccursInPrefix(header, text, "\r\n\r\n", i);
    }
  }

  lemma FieldInPrefix(header: string, rest: string, i: nat)
    requires i + |FIELD| <= |header|
    ensures FieldAt(header + rest, i) <==> FieldAt(header, i)
  {
    var mem := header + rest;
    assert forall j :: i <= j < i + |FIELD| ==> mem[j] == header[j];
  }

  lemma {:induction false} SeparatorsInPrefix(header: string, rest: string, i: nat)
    requires i <= |header| && SkipSeparators(header, i) < |header|
    ensures SkipSeparators(header + rest, i) == SkipSeparators(header, i)
    decreases |header| - i
  {
    if i < |header| && IsSeparator(header[i]) {
      SeparatorsInPrefix(header, rest, i + 1);
    }
  }

  /** Positions where the field name does not start are passed over. */
  lemma {:induction false} LengthSkips(mem: string, len: nat, at: nat, i: nat)
    requires i <= at && at + |FIELD| <= len <= |mem| && forall k :: i <= k < at ==> !FieldAt(mem, k)
    ensures ContentLength(mem, len, i) == ContentLength(mem, len, at)
    decreases at - i
  {
    if i < at {
      LengthSkips(mem, len, at, i + 1);
    }
  }

  /** The announced length is read from the header alone, unless that leaves it blank. */
  lemma LengthFromHeader(header: string, rest: string, at: nat, n: int)
    requires Framed(header) && Announces(header, at, n) && (Decided(header, at) || rest == "")
    ensures ContentLength(header + rest, |header|, 0) == n
  {
    hide Decided, FieldText, StrTol, CString;
    forall k: nat | k <= at
      ensures FieldAt(header + rest, k) <==> FieldAt(header, k)
    {
      FieldInPrefix(header, rest, k);
    }
    LengthSkips(header + rest, |header|, at, 0);
    FieldEndsBefore(header, at);
    SeparatorsEnd(header, at + |FIELD|);
    SeparatorsInPrefix(header, rest, at + |FIELD|);
    NumberFromHeader(header, rest, at);
  }

  lemma FieldEndsBefore(header: string, at: nat)
    requires Framed(header) && FieldAt(header, at)
    ensures at + |FIELD| < |header|
  {
    assert header[|header| - 4..|header|][3] == '\n';
    assert Lower(header[at + 13]) == FIELD[13];
  }

  /** Separators do not run past the header, which ends in a newline. */
  lemma {:induction false} SeparatorsEnd(header: string, i: nat)
    requires Framed(header) && i <= |header| - 1
    ensures SkipSeparators(header, i) < |header|
    decreases |header| - i
  {
    assert header[|header| - 4..|header|][3] == '\n';
    if i < |header| - 1 && IsSeparator(header[i]) {
      SeparatorsEnd(header, i + 1);
    }
  }

  lemma {:induction false} SkipSpacesAppend(s: string, t: string)
    requires SkipSpaces(s) != ""
    ensures SkipSpaces(s + t) == SkipSpaces(s) + t
    ensures SkipSpaces(s)[|SkipSpaces(s)| - 1] == s[|s| - 1]
  {
    if IsSpace(s[0]) {
      assert (s + t)[1..] == s[1..] + t;
      SkipSpacesAppend(s[1..], t);
    }
  }

  /** A number that does not start with a newline and ends before one ignores what follows. */
  lemma NumberEnds(s: string, t: string)
    requires SkipSpaces(s) != "" && s[|s| - 1] == '\n'
    ensures StrTol(s + t) == StrTol(s)
  {
    SkipSpacesAppend(s, t);
    var u := SkipSpaces(s);
    SkipSpacesStops(s);
    if u[0] == '-' || u[0] == '+' {
      assert (u + t)[1..] == u[1..] + t;
      DigitsStop(u[1..], t, 0);
    } else {
      DigitsStop(u, t, 0);
    }
  }

  lemma {:induction false} SkipSpacesStops(s: string)
    ensures SkipSpaces(s) == "" || !IsSpace(SkipSpaces(s)[0])
  {
    if s != "" && IsSpace(s[0]) {
      SkipSpacesStops(s[1..]);
    }
  }

  /** A number that starts in the header also ends there: the header's last character is no digit. */
  lemma NumberFromHeader(header: string, rest: string, at: nat)
    requires Framed(header) && at + |FIELD| <= |header| && SkipSeparators(header, at + |FIELD|) < |header|
    requires Decided(header, at) || rest == ""
    ensures StrTol(CString((header + rest)[SkipSeparators(header, at + |FIELD|)..])) == StrTol(FieldText(header, at))
  {
    hide StrTol;
    var tail := FieldText(header, at);
    assert (header + rest)[SkipSeparators(header, at + |FIELD|)..] == tail + rest;
    CStringConcat(tail, rest);
    if rest == "" {
      assert tail + "" == tail;
    } else {
      assert header[|header| - 4..|header|][3] == '\n';
      NumberEnds(tail, CString(rest));
    }
  }

  /** A partial response is complete exactly when the announced number of body bytes is there. */
  lemma CompleteAsAnnounced(header: string, body: string, at: nat, n: int, mem: string)
    requires Framed(header) && Announces(header, at, n) && mem <= header + body
    requires Decided(header, at) || |mem| <= |header|
    ensures Complete(mem) <==> |header| <= |mem| && 0 <= n && |header| + n <= |mem|
  {
    hide Framed, Announces, Decided;
    if |mem| < |header| {
      assert mem < header;
      HeaderIncomplete(header, mem);
    } else {
      var rest := mem[|header|..];
      assert mem == header + rest;
      HeaderComplete(header, rest);
      LengthFromHeader(header, rest, at, n);
    }
  }

  /** With the right length announced that is the whole response and no proper prefix of it. */
  lemma CompleteExactlyAtEnd(header: string, body: string, at: nat, mem: string)
    requires Framed(header) && Announces(header, at, |body|) && mem <= header + body
    ensures Complete(mem) <==> mem == header + body
  {
    if !Decided(header, at) {
      BlankIsZero(header, at);
    }
    CompleteAsAnnounced(header, body, at, |body|, mem);
  }

  // ---------------------------------------------------------------------------
  // Headers as servers write them
  // ---------------------------------------------------------------------------

  predicate IsFieldName(name: string) { Spells(name, "content-length", "CONTENT-LENGTH") }

  predicate Separates(sep: string) {
    forall i :: 0 <= i < |sep| ==> sep[i] == ':' || sep[i] == ' ' || sep[i] == '\t'
  }

  /** A header block with the line "name: n", where the colon and the blanks may vary. */
  function LengthHeader(before: string, name: string, sep: string, n: nat, after: string): string {
    before + name + sep + PrintNat(n) + "\r\n" + after
  }

  /** It is well framed, and the field name does not occur before that line. */
  predicate IsLengthHeader(before: string, name: string, sep: string, n: nat, after: string) {
    && Framed(LengthHeader(before, name, sep, n, after)) && IsFieldName(name) && Separates(sep) && n <= 0x7fff_ffff
    && (forall k {:trigger NameAt(LengthHeader(before, name, sep, n, after), k)} :: 0 <= k < |before| ==>
          !NameAt(LengthHeader(before, name, sep, n, after), k))
  }

  predicate NameAt(header: string, k: nat) { k + 14 <= |header| && IsFieldName(header[k..k + 14]) }

  lemma NameIsField(mem: string, k: nat)
    ensures FieldAt(mem, k) <==> NameAt(mem, k)
  {
    var lower, upper := "content-length", "CONTENT-LENGTH";
    if k + 14 <= |mem| {
      forall j | 0 <= j < 14
        ensures Lower(mem[k + j]) == FIELD[j] <==> mem[k + j] == lower[j] || mem[k + j] == upper[j]
      {
        FieldLetter(j);
        LowerIs(mem[k + j], lower[j], upper[j]);
      }
      var name := mem[k..k + 14];
      assert forall j :: 0 <= j < 14 ==> name[j] == mem[k + j];
      if FieldAt(mem, k) {
        assert forall j :: 0 <= j < |FIELD| ==> Lower(mem[k + j]) == FIELD[j];
      }
    }
  }

  lemma FieldLetter(j: nat)
    requires j < 14
    ensures Cases("content-length"[j], "CONTENT-LENGTH"[j]) && FIELD[j] == "content-length"[j] && |FIELD| == 14
  {
  }

  lemma {:induction false} SkipsSeparators(mem: string, i: nat, sep: string, rest: string)
    requires i <= |mem| && mem[i..] == sep + rest && Separates(sep) && rest != "" && '0' <= rest[0] <= '9'
    ensures SkipSeparators(mem, i) == i + |sep|
    decreases |sep|
  {
    if sep == "" {
      assert mem[i] == mem[i..][0];
    } else {
      assert mem[i] == mem[i..][0] && mem[i + 1..] == mem[i..][1..] == sep[1..] + rest;
      SkipsSeparators(mem, i + 1, sep[1..], rest);
    }
  }

  lemma NameLength(name: string)
    requires IsFieldName(name)
    ensures |name| == 14
  {
  }

  lemma LineParts(before: string, name: string, sep: string, n: nat, after: string)
    requires IsFieldName(name)
    ensures var header, at := LengthHeader(before, name, sep, n, after), |before|;
            var number := PrintNat(n) + ("\r\n" + after);
            at + 14 + |sep| <= |header| && header[at..at + 14] == name && header[at + 14..] == sep + number &&
            header[at + 14 + |sep|..] == number
  {
    hide PrintNat, IsFieldName;
    NameLength(name);
    var number := PrintNat(n) + ("\r\n" + after);
    assert LengthHeader(before, name, sep, n, after) == before + (name + (sep + number));
  }

  lemma FieldIsFirst(header: string, at: nat)
    requires NameAt(header, at) && forall k {:trigger NameAt(header, k)} :: 0 <= k < at ==> !NameAt(header, k)
    ensures FieldAt(header, at) && forall k :: 0 <= k < at ==> !FieldAt(header, k)
  {
    hide FieldAt, NameAt;
    NameIsField(header, at);
    forall k | 0 <= k < at
      ensures !FieldAt(header, k)
    {
      NameIsField(header, k);
    }
  }

  /** Such a header announces the number on that line. */
  lemma LineAnnounces(before: string, name: string, sep: string, n: nat, after: string)
    requires IsLengthHeader(before, name, sep, n, after)
    ensures var header := LengthHeader(before, name, sep, n, after);
            |before| + |FIELD| <= |header| && Announces(header, |before|, n) && Decided(header, |before|)
  {
    hide StrTol, PrintNat, IsFieldName, Separates, SkipSpaces, FieldAt, Framed, LengthHeader;
    var header, number := LengthHeader(before, name, sep, n, after), PrintNat(n) + ("\r\n" + after);
    var at := |before|;
    LineParts(before, name, sep, n, after);
    FieldIsFirst(header, at);
    PrintNatIsDigits(n);
    SkipsSeparators(header, at + 14, sep, number);
    assert FieldText(header, at) == number;
    IntRoundTrip(n, "\r\n" + after);
    SkipBlanks("", number);
    assert "" + number == number;
  }

  /** Its number is what is read, whatever follows the header. */
  lemma LengthIsRead(before: string, name: string, sep: string, n: nat, after: string, rest: string)
    requires IsLengthHeader(before, name, sep, n, after)
    ensures var header := LengthHeader(before, name, sep, n, after); ContentLength(header + rest, |header|) == n
  {
    hide Announces, Decided, Framed, ContentLength;
    LineAnnounces(before, name, sep, n, after);
    LengthFromHeader(LengthHeader(before, name, sep, n, after), rest, |before|, n);
  }

  /** A header that ends in a bare LF LF is found as long as no CR LF CR LF comes after it. */
  lemma BareHeader(header: string, rest: string)
    requires NoNul(header) && |header| >= 2 && OccursAt(header, "\n\n", |header| - 2)
    requires forall i :: 0 <= i < |header| - 2 ==> !OccursAt(header, "\n\n", i)
    ensures HeaderLength(header + rest) == Some(|header|) <==>
            forall i {:trigger OccursAt(CString(header + rest), "\r\n\r\n", i)} :: 0 <= i ==> !OccursAt(CString(header + rest), "\r\n\r\n", i)
    ensures HeaderLength(header + rest) == Some(|header|) ==> Stripped(header + rest) == rest
  {
    CStringConcat(header, rest);
    var text := header + CString(rest);
    OccursInPrefix(header, text, "\n\n", |header| - 2);
    assert header[|header| - 2..][0] == '\n';
    forall i: nat | i < |header| - 2
      ensures !OccursAt(text, "\n\n", i)
    {
      OccursInPrefix(header, text, "\n\n", i);
    }
    assert text[|header| - 2] == '\n';
    assert (header + rest)[|header|..] == rest;
  }

  // ---------------------------------------------------------------------------
  // Independence of the chunking
  // ---------------------------------------------------------------------------

  /** The events bring `msg` in chunks that a receive can return, with interruptions anywhere; then come any. */
  predicate Delivers(events: seq<Event>, msg: string)
    decreases |events|
  {
    msg == "" ||
    (events != [] &&
     match events[0]
     case SelectInterrupted => Delivers(events[1..], msg)
     case RecvInterrupted => Delivers(events[1..], msg)
     case Data(chunk, granted) =>
       granted && "" < chunk <= msg && |chunk| <= RECV_SIZE && Delivers(events[1..], msg[|chunk|..])
     case _ => false)
  }

  lemma {:induction false} ReceivesAll(header: string, body: string, at: nat, events: seq<Event>, mem: string, msg: string)
    requires Framed(header) && Announces(header, at, |body|)
    requires mem + msg == header + body && msg != "" && Delivers(events, msg)
    ensures Received(events, mem) == header + body
    decreases |events|
  {
    match events[0]
    case SelectInterrupted => ReceivesAll(header, body, at, events[1..], mem, msg);
    case RecvInterrupted => ReceivesAll(header, body, at, events[1..], mem, msg);
    case Data(chunk, _) =>
      assert mem + chunk + msg[|chunk|..] == mem + msg;
      CompleteExactlyAtEnd(header, body, at, mem + chunk);
      if mem + chunk != header + body {
        ReceivesAll(header, body, at, events[1..], mem + chunk, msg[|chunk|..]);
      }
  }

  /**
   The plain read loop leaves exactly the body, however the response was split and whatever
   the peer does afterwards; the caller sees success exactly when the body is not empty.
   */
  lemma ChunkingIndependent(header: string, body: string, at: nat, events: seq<Event>)
    requires Framed(header) && Announces(header, at, |body|) && Delivers(events, header + body)
    ensures Stripped(Received(events, "")) == body
  {
    ReceivesAll(header, body, at, events, "", header + body);
    HeaderComplete(header, body);
  }

  /** The same for headers as servers write them, with the length of the body in decimal. */
  lemma LengthHeaderDelivers(before: string, name: string, sep: string, after: string, body: string, events: seq<Event>)
    requires IsLengthHeader(before, name, sep, |body|, after)
    requires Delivers(events, LengthHeader(before, name, sep, |body|, after) + body)
    ensures Stripped(Received(events, "")) == body
  {
    hide LengthHeader, Framed, Announces, Delivers, Received, Stripped, Decided;
    LineAnnounces(before, name, sep, |body|, after);
    ChunkingIndependent(LengthHeader(before, name, sep, |body|, after), body, |before|, events);
  }

  lemma LengthHeaderCompletes(before: string, name: string, sep: string, after: string, body: string, mem: string)
    requires IsLengthHeader(before, name, sep, |body|, after)
    requires mem <= LengthHeader(before, name, sep, |body|, after) + body
    ensures Complete(mem) <==> mem == LengthHeader(before, name, sep, |body|, after) + body
  {
    hide LengthHeader, Framed, Announces, Complete, Decided;
    LineAnnounces(before, name, sep, |body|, after);
    CompleteExactlyAtEnd(LengthHeader(before, name, sep, |body|, after), body, |before|, mem);
  }

  /** A turn of the loop that neither fails nor ends the stream. */
  predicate KeepsReading(e: Event) {
    e == SelectInterrupted || e == RecvInterrupted || (e.Data? && e.granted)
  }

  /** The bytes that a number of turns bring. */
  function Brought(events: seq<Event>): string {
    if events == [] then "" else (if events[0].Data? then events[0].chunk else "") + Brought(events[1..])
  }

  lemma StrippedPart(header: string, body: string, mem: string)
    requires Framed(header) && mem <= header + body
    ensures Stripped(mem) == if |mem| < |header| then mem else mem[|header|..]
  {
    hide Framed;
    if |mem| < |header| {
      assert mem == header[..|mem|];
      HeaderIncomplete(header, mem);
    } else {
      assert mem == header + mem[|header|..];
      HeaderComplete(header, mem[|header|..]);
    }
  }

  /**
   A response that breaks off before it is complete, because of a failure, a timeout, the end of
   the stream or lack of memory: what had come by then is kept, and what comes afterwards ignored.
   */
  lemma {:induction false} BrokenOff(header: string, body: string, at: nat, events: seq<Event>, stop: Event,
                                     more: seq<Event>, mem: string)
    requires Framed(header) && Announces(header, at, |body|) && mem + Brought(events) < header + body
    requires (forall i :: 0 <= i < |events| ==> KeepsReading(events[i])) && !KeepsReading(stop)
    ensures Received(events + [stop] + more, mem) == mem + Brought(events)
    ensures var got := mem + Brought(events); Stripped(got) == if |got| < |header| then got else got[|header|..]
    decreases |events|
  {
    hide Framed, Announces, Complete;
    var all := events + [stop] + more;
    if events == [] {
      assert all[0] == stop && mem + "" == mem;
      StrippedPart(header, body, mem);
    } else {
      var now := mem + if events[0].Data? then events[0].chunk else "";
      assert all[0] == events[0] && all[1..] == events[1..] + [stop] + more;
      assert now + Brought(events[1..]) == mem + Brought(events);
      assert mem + "" == mem;
      CompleteExactlyAtEnd(header, body, at, now);
      BrokenOff(header, body, at, events[1..], stop, more, now);
    }
  }

  /** A message in full receives and a last, shorter one. */
  function SplitUp(msg: string): (events: seq<Event>)
    decreases |msg|
  {
    if msg == "" then []
    else if |msg| <= RECV_SIZE then [Data(msg, true)]
    else [Data(msg[..RECV_SIZE], true)] + SplitUp(msg[RECV_SIZE..])
  }

  lemma {:induction false} SplitDelivers(msg: string, events: seq<Event>, more: string)
    requires Delivers(events, more)
    ensures Delivers(SplitUp(msg) + events, msg + more)
    decreases |msg|
  {
    if msg == "" {
      assert SplitUp(msg) + events == events && msg + more == more;
    } else {
      var chunk := if |msg| <= RECV_SIZE then msg else msg[..RECV_SIZE];
      var rest := msg[|chunk|..];
      SplitDelivers(rest, events, more);
      assert SplitUp(msg) == [Data(chunk, true)] + SplitUp(rest);
      assert (SplitUp(msg) + events)[1..] == SplitUp(rest) + events;
      assert (msg + more)[|chunk|..] == rest + more && chunk <= msg + more;
    }
  }

  /** A smaller announced number loses the end of the body when that comes in a receive of its own. */
  lemma WrongLengthLosesBody(header: string, body: string, at: nat, n: nat)
    requires Framed(header) && Announces(header, at, n) && n < |body|
    ensures var events := SplitUp(header + body[..n]) + SplitUp(body[n..]);
            Delivers(events, header + body) && Stripped(Received(events, "")) == body[..n]
  {
    hide *;
    var first := header + body[..n];
    assert body == body[..n] + body[n..];
    Joined(header, body[..n], body[n..]);
    NothingAdded(body[n..]);
    NothingAdded(first);
    NothingDelivered([]);
    NothingDelivered(SplitUp(body[n..]));
    SplitDelivers(body[n..], [], "");
    assert SplitUp(body[n..]) + [] == SplitUp(body[n..]);
    SplitDelivers(first, SplitUp(body[n..]), body[n..]);
    SplitDelivers(first, SplitUp(body[n..]), "");
    HeaderNotEmpty(header);
    ReceivesAll(header, body[..n], at, SplitUp(first) + SplitUp(body[n..]), "", first);
    StrippedFramed(header, body[..n]);
  }

  lemma Joined(a: string, b: string, c: string)
    ensures a + (b + c) == a + b + c
  {
  }

  lemma NothingAdded(s: string)
    ensures s + "" == s && "" + s == s
  {
  }

  lemma NonzeroIsDecided(header: string, at: nat, n: int)
    requires Announces(header, at, n) && n != 0
    ensures at + |FIELD| <= |header| && Decided(header, at)
  {
    if !Decided(header, at) {
      BlankIsZero(header, at);
    }
  }

  lemma NothingDelivered(events: seq<Event>)
    ensures Delivers(events, "")
  {
  }

  /** A larger or a negative one lets the loop read on, and whatever the peer still sends is appended. */
  lemma LargerLengthReadsOn(header: string, body: string, at: nat, n: int, extra: string)
    requires Framed(header) && Announces(header, at, n) && (n < 0 || |body| < n) && 0 < |extra| <= RECV_SIZE
    ensures var events := SplitUp(header + body) + [Data(extra, true)];
            Delivers(events, header + body) && Stripped(Received(events, "")) == body + extra
  {
    hide *;
    var msg := header + body;
    NothingAdded(msg);
    Joined(header, body, extra);
    NothingDelivered([Data(extra, true)]);
    SplitDelivers(msg, [Data(extra, true)], "");
    NonzeroIsDecided(header, at, n);
    ReceivesOn(header, body, at, n, "", msg, extra);
    StrippedFramed(header, body + extra);
  }

  lemma {:induction false} ReceivesOn(header: string, body: string, at: nat, n: int, mem: string, msg: string, extra: string)
    requires Framed(header) && Announces(header, at, n) && Decided(header, at) && (n < 0 || |body| < n)
    requires mem + msg == header + body
    ensures Received(SplitUp(msg) + [Data(extra, true)], mem) == mem + msg + extra
    decreases |msg|
  {
    hide Complete, Framed, Announces, Decided;
    if msg == "" {
      assert SplitUp(msg) + [Data(extra, true)] == [Data(extra, true)] && mem + msg == mem;
      assert [Data(extra, true)][1..] == [];
    } else {
      var chunk := if |msg| <= RECV_SIZE then msg else msg[..RECV_SIZE];
      var rest := msg[|chunk|..];
      var events := SplitUp(msg) + [Data(extra, true)];
      assert SplitUp(msg) == [Data(chunk, true)] + SplitUp(rest);
      assert events[1..] == SplitUp(rest) + [Data(extra, true)];
      assert mem + chunk + rest == mem + msg;
      CompleteAsAnnounced(header, body, at, n, mem + chunk);
      ReceivesOn(header, body, at, n, mem + chunk, rest, extra);
    }
  }

  lemma HeaderNotEmpty(header: string)
    requires Framed(header)
    ensures header != ""
  {
  }

  lemma StrippedFramed(header: string, body: string)
    requires Framed(header)
    ensures Stripped(header + body) == body
  {
    HeaderComplete(header, body);
    assert (header + body)[|header|..] == body;
  }

  /** Every delivery leaves the body exactly when the announced number is its length, whatever follows the field name. */
  lemma DeliveredExactly(header: string, body: string, at: nat, n: int)
    requires Framed(header) && Announces(header, at, n)
    ensures (forall events {:trigger Received(events, "")} ::
               Delivers(events, header + body) ==> Stripped(Received(events, "")) == body) <==> n == |body|
  {
    hide Framed, Announces, Received, Delivers, Stripped;
    if n == |body| {
      forall events | Delivers(events, header + body)
        ensures Stripped(Received(events, "")) == body
      {
        ChunkingIndependent(header, body, at, events);
      }
    } else if 0 <= n < |body| {
      WrongLengthLosesBody(header, body, at, n);
    } else {
      LargerLengthReadsOn(header, body, at, n, "x");
    }
  }

  /** The TLS stream brings `msg` in non-empty chunks and then ends. */
  predicate TlsDelivers(turns: seq<Event>, msg: string)
    decreases |turns|
  {
    if msg == "" then turns == [] || !turns[0].Data?
    else
      && turns != [] && turns[0].Data? && turns[0].granted
      && "" < turns[0].chunk <= msg && |turns[0].chunk| <= RECV_SIZE && TlsDelivers(turns[1..], msg[|turns[0].chunk|..])
  }

  lemma {:induction false} TlsReceivesAll(turns: seq<Event>, mem: string, msg: string)
    requires TlsDelivers(turns, msg)
    ensures TlsReceived(turns, mem) == Some(mem + msg)
    decreases |turns|
  {
    if msg == "" {
      assert mem + msg == mem;
    } else {
      var chunk := turns[0].chunk;
      TlsReceivesAll(turns[1..], mem + chunk, msg[|chunk|..]);
      assert mem + chunk + msg[|chunk|..] == mem + msg;
    }
  }

  /**
   The TLS loop reads to the end of the stream without looking for a length, and leaves the
   same body.
   */
  lemma TlsAgrees(header: string, body: string, turns: seq<Event>)
    requires Framed(header) && TlsDelivers(turns, header + body)
    ensures TlsReceived(turns, "").Some? && Stripped(TlsReceived(turns, "").value) == body
  {
    TlsReceivesAll(turns, "", header + body);
    assert "" + (header + body) == header + body;
    HeaderComplete(header, body);
  }

  /** No field name anywhere in the header. */
  predicate AnnouncesNothing(header: string) { forall k :: 0 <= k <= |header| ==> !FieldAt(header, k) }

  lemma {:induction false} NoLength(header: string, rest: string, i: nat)
    requires AnnouncesNothing(header)
    ensures ContentLength(header + rest, |header|, i) == -1
    decreases |header| + |FIELD| - i
  {
    if i + |FIELD| <= |header| {
      FieldInPrefix(header, rest, i);
      NoLength(header, rest, i + 1);
    }
  }

  lemma {:induction false} ReceivesToClose(header: string, body: string, turns: seq<Event>, mem: string, msg: string)
    requires Framed(header) && AnnouncesNothing(header) && mem + msg == header + body
    requires TlsDelivers(turns, msg)
    requires forall i :: 0 <= i < |turns| ==> turns[i].Data? || turns[i].RecvEnd?
    ensures Received(turns, mem) == header + body
    decreases |turns|
  {
    if msg == "" {
      assert mem == header + body;
    } else {
      var chunk := turns[0].chunk;
      var now := mem + chunk;
      assert now + msg[|chunk|..] == mem + msg;
      assert now == (header + body)[..|now|];
      if |now| < |header| {
        assert now < header;
        HeaderIncomplete(header, now);
      } else {
        assert now == header + now[|header|..];
        HeaderComplete(header, now[|header|..]);
        NoLength(header, now[|header|..], 0);
      }
      ReceivesToClose(header, body, turns[1..], now, msg[|chunk|..]);
    }
  }

  /** Without an announced length the plain loop and the TLS loop read the same body to the close. */
  lemma LoopsAgreeWithoutLength(header: string, body: string, turns: seq<Event>)
    requires Framed(header) && AnnouncesNothing(header) && TlsDelivers(turns, header + body)
    requires forall i :: 0 <= i < |turns| ==> turns[i].Data? || turns[i].RecvEnd?
    ensures Stripped(Received(turns, "")) == body
    ensures TlsReceived(turns, "") == Some(Received(turns, ""))
  {
    assert "" + (header + body) == header + body;
    ReceivesToClose(header, body, turns, "", header + body);
    TlsReceivesAll(turns, "", header + body);
    HeaderComplete(header, body);
  }
}
