/**
 Request URLs: built into a fixed-size buffer by construct_url and append_param, and taken
 apart again by parse_url. The argument lists behind the format strings arrive here already
 formatted.
 */
module UrlCodec {
  import opened CText

  // ---------------------------------------------------------------------------
  // Building
  // ---------------------------------------------------------------------------

  /** snprintf into a buffer of `size` bytes: the text, cut to leave room for the NUL. */
  function Truncate(text: string, size: nat): string
    requires size > 0
  {
    if |text| < size then text else text[..size - 1]
  }

  /** What a request is made of; `query` is the formatted extra query, if any. */
  datatype Request = Request(secure: bool, address: string, action: string, uniqueId: string, uuid: string,
                             hasQuery: bool, query: string)

  function Proto(secure: bool): string { if secure then "https" else "http" }
  function Port(secure: bool): int { if secure then 47984 else 47989 }

  function Base(r: Request): string {
    "/" + r.action + "?uniqueid=" + r.uniqueId + "&uuid=" + (if |r.uuid| > 36 then r.uuid[..36] else r.uuid) +
    if r.hasQuery then "&" + Truncate(r.query, 4096) else ""
  }

  function FullUrl(r: Request): string {
    Proto(r.secure) + "://" + (r.address + ":" + PrintInt(Port(r.secure)) + Base(r))
  }

  datatype Param = Param(name: string, value: string)

  /** The text one parameter adds; values are formatted into 256 bytes. */
  function ParamText(p: Param): string { "&" + p.name + "=" + Truncate(p.value, 256) }

  predicate ParamFits(urlLength: nat, ulen: nat, p: Param) {
    urlLength + |p.name| + |Truncate(p.value, 256)| + 3 <= ulen
  }

  /** Everything a sequence of parameters adds to a URL of this length: each fits whole or not at all. */
  function Appended(urlLength: nat, ulen: nat, params: seq<Param>): string
    decreases |params|
  {
    if params == [] then ""
    else if ParamFits(urlLength, ulen, params[0]) then
      ParamText(params[0]) + Appended(urlLength + |ParamText(params[0])|, ulen, params[1..])
    else Appended(urlLength, ulen, params[1..])
  }

  lemma ValueIsCut(p: Param)
    ensures Truncate(p.value, 256) == if |p.value| > 255 then p.value[..255] else p.value
    ensures ParamText(p) == "&" + p.name + "=" + Truncate(p.value, 256)
  {
  }

  /** A URL in a caller's buffer of `ulen` bytes. */
  class UrlBuffer {
    const ulen: nat
    var text: string

    ghost predicate Valid()
      reads this
    {
      |text| < ulen
    }

    constructor (ulen: nat)
      requires ulen > 0
      ensures Valid() && this.ulen == ulen && text == ""
    {
      this.ulen := ulen;
      text := "";
    }

    /** construct_url, given what the random identifier came out as. */
    method Construct(r: Request, uuidMade: bool) returns (ok: bool)
      requires Valid()
      modifies this
      ensures Valid() && ok == uuidMade
      ensures text == if ok then Truncate(FullUrl(r), ulen) else old(text)
    {
      if !uuidMade {
        return false;
      }
      var port := if r.secure then 47984 else 47989;
      var proto := if r.secure then "https" else "http";
      var uuid := if |r.uuid| > 36 then r.uuid[..36] else r.uuid;
      var whole := proto + "://" + (r.address + ":" + PrintInt(port) + ("/" + r.action + "?uniqueid=" + r.uniqueId + "&uuid=" + uuid +
                   if r.hasQuery then "&" + Truncate(r.query, 4096) else ""));
      text := Truncate(whole, ulen);
      return true;
    }

    /** append_param: all of "&name=value", or nothing. */
    method AppendParam(p: Param) returns (ok: bool)
      requires Valid()
      modifies this
      ensures Valid() && ok == ParamFits(|old(text)|, ulen, p)
      ensures text == old(text) + if ok then ParamText(p) else ""
      ensures var value := if |p.value| > 255 then p.value[..255] else p.value;
              var added := "&" + p.name + "=" + value;
              ok == (|old(text)| + |added| < ulen) && text == old(text) + if ok then added else ""
    {
      ValueIsCut(p);
      hide Truncate, ParamText;
      var value := Truncate(p.value, 256);
      var appendLen := |p.name| + |value| + 3;
      if |text| + appendLen > ulen {
        return false;
      }
      text := text + "&";
      text := text + p.name;
      text := text + "=";
      text := text + value;
      return true;
    }

    /** Any sequence of append_param calls whose results the caller ignores. */
    method AppendParams(params: seq<Param>)
      requires Valid()
      modifies this
      ensures Valid() && text == old(text) + Appended(|old(text)|, ulen, params)
    {
      var n := 0;
      while n < |params|
        invariant 0 <= n <= |params| && Valid()
        invariant text + Appended(|text|, ulen, params[n..]) == old(text) + Appended(|old(text)|, ulen, params)
      {
        ghost var was := text;
        assert params[n..][1..] == params[n + 1..];
        var ok := AppendParam(params[n]);
        if ok {
          assert was + (ParamText(params[n]) + Appended(|text|, ulen, params[n + 1..])) ==
                 text + Appended(|text|, ulen, params[n + 1..]);
        }
        n := n + 1;
      }
    }
  }

  // ---------------------------------------------------------------------------
  // Parsing
  // ---------------------------------------------------------------------------

  datatype ParsedUrl = BadUrl | Url(isHttps: bool, host: string, port: int, path: string)

  /** parse_url, for host and path buffers of the given sizes. */
  function ParseUrl(url: string, hostSize: nat, pathSize: nat): ParsedUrl {
    if "https://" <= url then ParseHost(true, url[8..], hostSize, pathSize)
    else if "http://" <= url then ParseHost(false, url[7..], hostSize, pathSize)
    else BadUrl
  }

  function ParseHost(isHttps: bool, p: string, hostSize: nat, pathSize: nat): ParsedUrl {
    var hostEnd, colon := StrChr(p, '/'), StrChr(p, ':');
    var withPort := colon.At? && (hostEnd.NotFound? || colon.index < hostEnd.index);
    var hostLen := if withPort then colon.index else if hostEnd.At? then hostEnd.index else |p|;
    var port := if withPort then Atoi(p[colon.index + 1..]) else if isHttps then 443 else 80;
    var path := if hostEnd.At? then p[hostEnd.index..] else p[hostLen..];
    if hostLen >= hostSize || |path| >= pathSize then BadUrl else Url(isHttps, p[..hostLen], port, path)
  }

  predicate IsHost(address: string) { forall i :: 0 <= i < |address| ==> address[i] != ':' && address[i] != '/' }

  /** The authority is split at its colon, and the path starts at its slash; both must fit their buffers. */
  lemma HostOfAuthority(isHttps: bool, address: string, port: string, path: string, hostSize: nat, pathSize: nat)
    requires IsHost(address) && IsHost(port) && path != "" && path[0] == '/'
    ensures ParseHost(isHttps, address + ":" + port + path, hostSize, pathSize) ==
            if |address| < hostSize && |path| < pathSize then Url(isHttps, address, Atoi(port + path), path) else BadUrl
  {
    hide Atoi;
    var p := address + ":" + port + path;
    assert p[..|address|] == address && p[|address| + 1..] == port + path;
    assert p[|address| + 1 + |port|..] == path;
    assert p[|address|] == ':' && p[|address| + 1 + |port|] == '/';
    assert forall i :: 0 <= i < |address| ==> p[i] == address[i];
    assert forall i :: |address| + 1 <= i < |address| + 1 + |port| ==> p[i] == port[i - |address| - 1];
  }

  /** Without a colon before the path the port is the scheme's, and a colon in the path is no port. */
  lemma DefaultPort(isHttps: bool, address: string, path: string, hostSize: nat, pathSize: nat)
    requires IsHost(address) && (path == "" || path[0] == '/')
    ensures ParseHost(isHttps, address + path, hostSize, pathSize) ==
            if |address| < hostSize && |path| < pathSize then Url(isHttps, address, if isHttps then 443 else 80, path) else BadUrl
  {
    hide Atoi;
    var p := address + path;
    assert p[..|address|] == address && p[|address|..] == path;
    assert forall i :: 0 <= i < |address| ==> p[i] == address[i];
    assert path != "" ==> p[|address|] == '/';
  }

  /** Without a path the port stays behind the host as if it were one. */
  lemma AuthorityAlone(isHttps: bool, address: string, port: string, hostSize: nat, pathSize: nat)
    requires IsHost(address) && IsHost(port)
    ensures ParseHost(isHttps, address + ":" + port, hostSize, pathSize) ==
            if |address| < hostSize && |port| + 1 < pathSize then Url(isHttps, address, Atoi(port), ":" + port) else BadUrl
  {
    hide Atoi;
    var p := address + ":" + port;
    assert p[..|address|] == address && p[|address| + 1..] == port && p[|address|..] == ":" + port;
    assert forall i :: 0 <= i < |address| ==> p[i] == address[i];
    assert forall i :: |address| + 1 <= i < |p| ==> p[i] == port[i - |address| - 1];
    assert p[|address|] == ':';
  }

  lemma SchemeIsStripped(secure: bool, rest: string, hostSize: nat, pathSize: nat)
    ensures ParseUrl(Proto(secure) + "://" + rest, hostSize, pathSize) == ParseHost(secure, rest, hostSize, pathSize)
  {
    hide ParseHost;
    var scheme := Proto(secure) + "://";
    var url := scheme + rest;
    assert url[|scheme|..] == rest;
    if secure {
      assert scheme == "https://";
    } else {
      assert scheme == "http://" && url[4] == ':';
    }
  }

  /**
   Parsing what was built gives back the scheme, the host, the port and the path, and the
   path is the base followed by each parameter that fitted, whole and in order. It fails
   exactly when the host or that path is too long for its buffer.
   */
  lemma UrlRoundTrip(r: Request, ulen: nat, params: seq<Param>, hostSize: nat, pathSize: nat)
    requires IsHost(r.address) && |FullUrl(r)| < ulen
    ensures var url := Truncate(FullUrl(r), ulen);
            var path := Base(r) + Appended(|url|, ulen, params);
            ParseUrl(url + Appended(|url|, ulen, params), hostSize, pathSize) ==
            if |r.address| < hostSize && |path| < pathSize then Url(r.secure, r.address, Port(r.secure), path) else BadUrl
  {
    hide Base, Appended, ParseUrl, ParseHost, PrintInt, StrTol, Proto;
    var tail := Appended(|FullUrl(r)|, ulen, params);
    BaseStartsThePath(r);
    var base := Base(r);
    var port, path := PrintInt(Port(r.secure)), base + tail;
    var scheme := Proto(r.secure) + "://";
    assert FullUrl(r) + tail == scheme + (r.address + ":" + port + path);
    SchemeIsStripped(r.secure, r.address + ":" + port + path, hostSize, pathSize);
    PortIsDigits(r.secure);
    IntRoundTrip(Port(r.secure), path);
    HostOfAuthority(r.secure, r.address, port, path, hostSize, pathSize);
  }

  /** The texts a request is made of: 36 characters of the identifier and 4095 of the query at most. */
  function Uuid(r: Request): string { if |r.uuid| > 36 then r.uuid[..36] else r.uuid }

  function Query(r: Request): string {
    if !r.hasQuery then "" else "&" + if |r.query| > 4095 then r.query[..4095] else r.query
  }

  lemma PortDigits()
    ensures PrintInt(47984) == "47984" && PrintInt(47989) == "47989"
  {
    assert PrintNat(47) == "47";
    assert PrintNat(4798) == PrintNat(47) + "9" + "8";
    assert PrintNat(47984) == PrintNat(4798) + "4" && PrintNat(47989) == PrintNat(4798) + "9";
  }

  /** The URL of a request in full; the HTTPS port and the HTTP one are fixed. */
  lemma RequestUrl(r: Request)
    ensures FullUrl(r) ==
            (if r.secure then "https://" + r.address + ":47984" else "http://" + r.address + ":47989") +
            ("/" + r.action + "?uniqueid=" + r.uniqueId + "&uuid=" + Uuid(r) + Query(r))
  {
    hide PrintInt;
    PortDigits();
    assert Base(r) == "/" + r.action + "?uniqueid=" + r.uniqueId + "&uuid=" + Uuid(r) + Query(r);
    if r.secure {
      assert FullUrl(r) == "https" + "://" + (r.address + ":" + "47984" + Base(r));
      assert "https" + "://" == "https://" && ":" + "47984" == ":47984";
    } else {
      assert FullUrl(r) == "http" + "://" + (r.address + ":" + "47989" + Base(r));
      assert "http" + "://" == "http://" && ":" + "47989" == ":47989";
    }
  }

  /** What parsing gives back, in the request's own terms. */
  lemma RequestIsRecovered(r: Request, ulen: nat, params: seq<Param>, hostSize: nat, pathSize: nat)
    requires IsHost(r.address) && |FullUrl(r)| < ulen && |r.address| < hostSize
    ensures var path := "/" + r.action + "?uniqueid=" + r.uniqueId + "&uuid=" + Uuid(r) + Query(r) +
                        Appended(|FullUrl(r)|, ulen, params);
            |path| < pathSize ==>
              ParseUrl(FullUrl(r) + Appended(|FullUrl(r)|, ulen, params), hostSize, pathSize) ==
              Url(r.secure, r.address, if r.secure then 47984 else 47989, path)
  {
    hide ParseUrl, FullUrl, Appended, IsHost;
    assert Base(r) == "/" + r.action + "?uniqueid=" + r.uniqueId + "&uuid=" + Uuid(r) + Query(r);
    UrlRoundTrip(r, ulen, params, hostSize, pathSize);
  }

  lemma BaseStartsThePath(r: Request)
    ensures Base(r) != "" && Base(r)[0] == '/'
  {
  }

  lemma PortIsDigits(secure: bool)
    ensures IsHost(PrintInt(Port(secure)))
  {
    PrintNatIsDigits(Port(secure));
  }
}
