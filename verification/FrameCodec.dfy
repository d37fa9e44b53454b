/** The frames the engine writes to its client, byte by byte, and a decoder for them. Lengths and counts
    take two bytes, high byte first; payload lengths take four. */
module FrameCodec {
  import opened Text

  type Byte = n: nat | n < 256
  type Bytes = seq<Byte>

  datatype Header = Header(name: Bytes, values: seq<Bytes>)

  datatype Frame =
    | Response(id: Bytes, status: int, url: Bytes, headers: seq<Header>)
    | Data(id: Bytes, payload: Bytes)
    | Error(id: Bytes, status: int, message: Bytes)
    | End(id: Bytes)

  const RESPONSE: Bytes := [114, 101, 115, 112, 111, 110, 115, 101]
  const DATA: Bytes := [100, 97, 116, 97]
  const ERROR: Bytes := [101, 114, 114, 111, 114]
  const END: Bytes := [101, 110, 100]

  /** The bytes of an ASCII string. */
  function Ascii(s: string): Bytes
    requires forall i :: 0 <= i < |s| ==> s[i] as int < 256
  {
    seq(|s|, i requires 0 <= i < |s| => s[i] as nat)
  }

  /** The tags on the wire are the words. */
  lemma TagWords()
    ensures RESPONSE == Ascii("response") && DATA == Ascii("data") && ERROR == Ascii("error") && END == Ascii("end")
  {
  }

  // ---- Writing -------------------------------------------------------------------------------------

  /** `byte(n >> 8), byte(n)`: the conversion to a byte keeps the low eight bits. */
  function Two(n: int): Bytes {
    [n / 256 % 256, n % 256]
  }

  function Four(n: int): Bytes {
    [n / 0x100_0000 % 256, n / 0x1_0000 % 256, n / 256 % 256, n % 256]
  }

  function Str(s: Bytes): Bytes {
    Two(|s|) + s
  }

  function Strs(ss: seq<Bytes>): Bytes {
    if ss == [] then [] else Str(ss[0]) + Strs(ss[1..])
  }

  function HeaderBytes(h: Header): Bytes {
    Str(h.name) + (Two(|h.values|) + Strs(h.values))
  }

  function HeadersBytes(hs: seq<Header>): Bytes {
    if hs == [] then [] else HeaderBytes(hs[0]) + HeadersBytes(hs[1..])
  }

  function Tag(f: Frame): Bytes {
    match f case Response(_, _, _, _) => RESPONSE case Data(_, _) => DATA case Error(_, _,
        _) => ERROR case End(_) => END
  }

  function BodyBytes(f: Frame): Bytes {
    match f
    case Response(_, status, url, headers) => Two(status) + (Str(url) + (Two(|headers|) + HeadersBytes(headers)))
    case Data(_, payload) => Four(|payload|) + payload
    case Error(_, status, message) => Two(status) + Str(message)
    case End(_) => []
  }

  function Encode(f: Frame): Bytes {
    Str(f.id) + (Str(Tag(f)) + BodyBytes(f))
  }

  // ---- Reading -------------------------------------------------------------------------------------

  /** A parsed value and the bytes after it. */
  datatype Got<+T> = Got(value: T, rest: Bytes)

  function TakeTwo(b: Bytes): (r: Option<Got<nat>>)
    ensures r.Some? ==> r.value.value < 0x1_0000 && |r.value.rest| < |b|
  {
    if |b| < 2 then None else Some(Got(b[0] as nat * 256 + b[1], b[2..]))
  }

  function TakeFour(b: Bytes): (r: Option<Got<nat>>)
    ensures r.Some? ==> r.value.value < 0x1_0000_0000
  {
    if |b| < 4 then None else Some(Got(b[0] as nat * 0x100_0000 + b[1] as nat * 0x1_0000 + b[2] as nat * 256 + b[3],
        b[4..]))
  }

  function TakeStr(b: Bytes): (r: Option<Got<Bytes>>)
    ensures r.Some? ==> |r.value.value| < 0x1_0000 && |r.value.rest| < |b|
  {
    match TakeTwo(b)
    case None => None
    case Some(n) => if |n.rest| < n.value then None else Some(Got(n.rest[..n.value], n.rest[n.value..]))
  }

  function TakeStrs(b: Bytes, count: nat): (r: Option<Got<seq<Bytes>>>)
    ensures r.Some? ==> |r.value.value| == count && forall i :: 0 <= i < count ==> |r.value.value[i]| < 0x1_0000
    decreases count
  {
    if count == 0 then Some(Got([], b))
    else match TakeStr(b)
      case None => None
      case Some(first) =>
        match TakeStrs(first.rest, count - 1)
        case None => None
        case Some(others) => Some(Got([first.value] + others.value, others.rest))
  }

  function TakeHeader(b: Bytes): (r: Option<Got<Header>>)
    ensures r.Some? ==> HeaderFits(r.value.value)
  {
    match TakeStr(b)
    case None => None
    case Some(name) =>
      match TakeTwo(name.rest)
      case None => None
      case Some(count) =>
        match TakeStrs(count.rest, count.value)
        case None => None
        case Some(values) => Some(Got(Header(name.value, values.value), values.rest))
  }

  function TakeHeaders(b: Bytes, count: nat): (r: Option<Got<seq<Header>>>)
    ensures r.Some? ==> |r.value.value| == count && forall i :: 0 <= i < count ==> HeaderFits(r.value.value[i])
    decreases count
  {
    if count == 0 then Some(Got([], b))
    else match TakeHeader(b)
      case None => None
      case Some(first) =>
        match TakeHeaders(first.rest, count - 1)
        case None => None
        case Some(others) => Some(Got([first.value] + others.value, others.rest))
  }

  function DecodeResponse(id: Bytes, b: Bytes): Option<Frame> {
    match TakeTwo(b)
    case None => None
    case Some(status) =>
      match TakeStr(status.rest)
      case None => None
      case Some(url) =>
        match TakeTwo(url.rest)
        case None => None
        case Some(count) =>
          match TakeHeaders(count.rest, count.value)
          case None => None
          case Some(headers) =>
            if headers.rest == [] then Some(Response(id, status.value, url.value, headers.value)) else None
  }

  function DecodeData(id: Bytes, b: Bytes): Option<Frame> {
    match TakeFour(b)
    case None => None
    case Some(n) => if |n.rest| == n.value then Some(Data(id, n.rest)) else None
  }

  function DecodeError(id: Bytes, b: Bytes): Option<Frame> {
    match TakeTwo(b)
    case None => None
    case Some(status) =>
      match TakeStr(status.rest)
      case None => None
      case Some(message) => if message.rest == [] then Some(Error(id, status.value, message.value)) else None
  }

  function Decode(b: Bytes): Option<Frame> {
    match TakeStr(b)
    case None => None
    case Some(id) =>
      match TakeStr(id.rest)
      case None => None
      case Some(tag) =>
        if tag.value == RESPONSE then DecodeResponse(id.value, tag.rest)
        else if tag.value == DATA then DecodeData(id.value, tag.rest)
        else if tag.value == ERROR then DecodeError(id.value, tag.rest)
        else if tag.value == END && tag.rest == [] then Some(End(id.value))
        else None
  }

  // ---- Round trips ---------------------------------------------------------------------------------

  predicate HeaderFits(h: Header) {
    |h.name| < 0x1_0000 && |h.values| < 0x1_0000 && forall i :: 0 <= i < |h.values| ==> |h.values[i]| < 0x1_0000
  }

  /** Every length, count and status fits its field. */
  predicate Fits(f: Frame) {
    |f.id| < 0x1_0000 &&
    match f
    case Response(_, status, url, headers) =>
      0 <= status < 0x1_0000 && |url| < 0x1_0000 && |headers| < 0x1_0000 &&
      forall i :: 0 <= i < |headers| ==> HeaderFits(headers[i])
    case Data(_, payload) => |payload| < 0x1_0000_0000
    case Error(_, status, message) => 0 <= status < 0x1_0000 && |message| < 0x1_0000
    case End(_) => true
  }

  lemma TwoRoundTrip(n: nat, rest: Bytes)
    requires n < 0x1_0000
    ensures TakeTwo(Two(n) + rest) == Some(Got(n, rest))
  {
    assert (Two(n) + rest)[2..] == rest;
  }

  lemma FourRoundTrip(n: nat, rest: Bytes)
    requires n < 0x1_0000_0000
    ensures TakeFour(Four(n) + rest) == Some(Got(n, rest))
  {
    assert (Four(n) + rest)[4..] == rest;
    var a := n / 256;
    var c := a / 256;
    assert n / 0x1_0000 == c && n / 0x100_0000 == c / 256;
  }

  lemma StrRoundTrip(s: Bytes, rest: Bytes)
    requires |s| < 0x1_0000
    ensures TakeStr(Str(s) + rest) == Some(Got(s, rest))
  {
    hide Two, TakeTwo;
    assert Str(s) + rest == Two(|s|) + (s + rest);
    TwoRoundTrip(|s|, s + rest);
    assert (s + rest)[..|s|] == s && (s + rest)[|s|..] == rest;
  }

  lemma {:induction false} StrsRoundTrip(ss: seq<Bytes>, rest: Bytes)
    requires forall i :: 0 <= i < |ss| ==> |ss[i]| < 0x1_0000
    ensures TakeStrs(Strs(ss) + rest, |ss|) == Some(Got(ss, rest))
  {
    hide Str, TakeStr;
    if ss == [] {
      assert Strs(ss) + rest == rest;
    } else {
      assert Strs(ss) + rest == Str(ss[0]) + (Strs(ss[1..]) + rest);
      StrRoundTrip(ss[0], Strs(ss[1..]) + rest);
      StrsRoundTrip(ss[1..], rest);
      assert [ss[0]] + ss[1..] == ss;
    }
  }

  lemma HeaderRoundTrip(h: Header, rest: Bytes)
    requires HeaderFits(h)
    ensures TakeHeader(HeaderBytes(h) + rest) == Some(Got(h, rest))
  {
    hide Str, TakeStr, Two, TakeTwo, Strs, TakeStrs;
    var tail := Strs(h.values) + rest;
    assert HeaderBytes(h) + rest == Str(h.name) + (Two(|h.values|) + tail);
    StrRoundTrip(h.name, Two(|h.values|) + tail);
    TwoRoundTrip(|h.values|, tail);
    StrsRoundTrip(h.values, rest);
  }

  lemma {:induction false} HeadersRoundTrip(hs: seq<Header>, rest: Bytes)
    requires forall i :: 0 <= i < |hs| ==> HeaderFits(hs[i])
    ensures TakeHeaders(HeadersBytes(hs) + rest, |hs|) == Some(Got(hs, rest))
  {
    hide HeaderBytes, TakeHeader;
    if hs == [] {
      assert HeadersBytes(hs) + rest == rest;
    } else {
      assert HeadersBytes(hs) + rest == HeaderBytes(hs[0]) + (HeadersBytes(hs[1..]) + rest);
      HeaderRoundTrip(hs[0], HeadersBytes(hs[1..]) + rest);
      HeadersRoundTrip(hs[1..], rest);
      assert [hs[0]] + hs[1..] == hs;
    }
  }

  lemma ResponseRoundTrip(f: Frame)
    requires f.Response? && Fits(f)
    ensures DecodeResponse(f.id, BodyBytes(f)) == Some(f)
  {
    hide Str, TakeStr, Two, TakeTwo, HeadersBytes, TakeHeaders;
    var tail := HeadersBytes(f.headers) + [];
    assert HeadersBytes(f.headers) == tail;
    TwoRoundTrip(f.status, Str(f.url) + (Two(|f.headers|) + HeadersBytes(f.headers)));
    StrRoundTrip(f.url, Two(|f.headers|) + HeadersBytes(f.headers));
    TwoRoundTrip(|f.headers|, HeadersBytes(f.headers));
    HeadersRoundTrip(f.headers, []);
  }

  lemma ErrorRoundTrip(f: Frame)
    requires f.Error? && Fits(f)
    ensures DecodeError(f.id, BodyBytes(f)) == Some(f)
  {
    hide Str, TakeStr, Two, TakeTwo;
    TwoRoundTrip(f.status, Str(f.message));
    StrRoundTrip(f.message, []);
    assert Str(f.message) + [] == Str(f.message);
  }

  lemma DataRoundTrip(f: Frame)
    requires f.Data? && Fits(f)
    ensures DecodeData(f.id, BodyBytes(f)) == Some(f)
  {
    hide Four, TakeFour;
    FourRoundTrip(|f.payload|, f.payload);
  }

  lemma TagsDiffer(f: Frame)
    ensures f.End? ==> BodyBytes(f) == []
    ensures RESPONSE != DATA && RESPONSE != ERROR && RESPONSE != END && DATA != ERROR && DATA != END && ERROR != END
  {
    assert |RESPONSE| == 8 && |DATA| == 4 && |ERROR| == 5 && |END| == 3;
  }

  lemma DecodeOfEncode(f: Frame)
    requires Fits(f)
    ensures Decode(Encode(f)) == Some(f)
  {
    hide Str, TakeStr, BodyBytes, DecodeResponse, DecodeData, DecodeError;
    StrRoundTrip(f.id, Str(Tag(f)) + BodyBytes(f));
    StrRoundTrip(Tag(f), BodyBytes(f));
    TagsDiffer(f);
    match f
    case Response(_, _, _, _) => ResponseRoundTrip(f);
    case Data(_, _) => DataRoundTrip(f);
    case Error(_, _, _) => ErrorRoundTrip(f);
    case End(_) =>
  }

  /** The decoder only produces frames that fit. */
  lemma DecodedFits(b: Bytes)
    requires Decode(b).Some?
    ensures Fits(Decode(b).value)
  {
    hide TakeStr, TakeTwo, TakeFour, TakeHeaders, HeaderFits;
  }

  /** A frame survives encoding and decoding exactly when its lengths, counts and status fit their fields. */
  lemma RoundTripIff(f: Frame)
    ensures Decode(Encode(f)) == Some(f) <==> Fits(f)
  {
    hide Decode, Encode, Fits;
    if Fits(f) {
      DecodeOfEncode(f);
    } else if Decode(Encode(f)) == Some(f) {
      DecodedFits(Encode(f));
    }
  }

  /** Distinct frames never share an encoding. */
  lemma EncodeInjective(f: Frame, g: Frame)
    requires Fits(f) && Fits(g) && Encode(f) == Encode(g)
    ensures f == g
  {
    hide Encode, Decode, Fits;
    DecodeOfEncode(f);
    DecodeOfEncode(g);
  }

  /** Beyond the bound two frames can: only the low 16 bits of a length are written, so an end frame with an
      id of 65536 bytes reads as a data frame with an empty id. */
  lemma LongIdCollides(q: Bytes)
    requires |q| == 0x1_0000 - 10
    ensures var f := End(Str(DATA) + (Four(0x1_0000 - 5) + q));
            var g := Data([], q + Str(END));
            Encode(f) == Encode(g) && !Fits(f) && Fits(g)
  {
    hide Four, Str, Two;
    var n := 0x1_0000 - 5;
    var id := Str(DATA) + (Four(n) + q);
    StrParts(DATA);
    StrParts(END);
    StrParts(id);
    StrParts([]);
    FourLength(n);
    assert |id| == 0x1_0000;
    TwoWraps();
    var g := Data([], q + Str(END));
    assert |g.payload| == n;
    Regroup(Two(0), Str(DATA), Four(n), q, Str(END));
    assert Encode(End(id)) == Str(id) + (Str(END) + []);
    assert Str(END) + [] == Str(END);
    assert Encode(g) == Str([]) + (Str(DATA) + (Four(n) + (q + Str(END))));
  }

  lemma Regroup(a: Bytes, b: Bytes, c: Bytes, d: Bytes, e: Bytes)
    ensures a + (b + (c + d)) + e == a + (b + (c + (d + e)))
  {
  }

  lemma StrParts(s: Bytes)
    ensures Str(s) == Two(|s|) + s && |Str(s)| == 2 + |s|
    ensures s == [] ==> Str(s) == Two(0)
  {
  }

  lemma TwoWraps()
    ensures Two(0x1_0000) == Two(0)
  {
  }

  lemma FourLength(n: int)
    ensures |Four(n)| == 4
  {
  }

  // ---- The buffer, written step by step ------------------------------------------------------------

  lemma StrsSnoc(ss: seq<Bytes>, s: Bytes)
    ensures Strs(ss + [s]) == Strs(ss) + Str(s)
  {
    hide Str;
    if ss != [] {
      assert (ss + [s])[1..] == ss[1..] + [s];
      StrsSnoc(ss[1..], s);
    } else {
      assert Strs([s]) == Str(s) + Strs([s][1..]);
    }
  }

  lemma HeadersSnoc(hs: seq<Header>, h: Header)
    ensures HeadersBytes(hs + [h]) == HeadersBytes(hs) + HeaderBytes(h)
  {
    hide HeaderBytes;
    if hs != [] {
      assert (hs + [h])[1..] == hs[1..] + [h];
      HeadersSnoc(hs[1..], h);
    } else {
      assert HeadersBytes([h]) == HeaderBytes(h) + HeadersBytes([h][1..]);
    }
  }

  /** One header: name, number of values, values. */
  method WriteHeader(b: Bytes, h: Header) returns (buffer: Bytes)
    ensures buffer == b + HeaderBytes(h)
  {
    hide Strs, Two;
    buffer := b + Two(|h.name|);
    buffer := buffer + h.name;
    buffer := buffer + Two(|h.values|);
    ghost var before := buffer;
    StrsNone();
    for i := 0 to |h.values|
      invariant buffer == before + Strs(h.values[..i])
    {
      buffer := buffer + Two(|h.values[i]|);
      buffer := buffer + h.values[i];
      assert h.values[..i + 1] == h.values[..i] + [h.values[i]];
      StrsSnoc(h.values[..i], h.values[i]);
    }
    assert h.values[..|h.values|] == h.values;
  }

  lemma StrsNone()
    ensures Strs([]) == [] && HeadersBytes([]) == []
  {
  }

  /** Everything before the headers. */
  ghost function Preamble(f: Frame): Bytes
    requires f.Response?
  {
    Str(f.id) + Str(RESPONSE) + Two(f.status) + Str(f.url) + Two(|f.headers|)
  }

  lemma ResponseParts(f: Frame)
    requires f.Response?
    ensures Encode(f) == Preamble(f) + HeadersBytes(f.headers)
  {
    hide Str, Two, HeadersBytes;
  }

  /** The response frame as the dispatcher builds it. */
  method WriteResponse(id: Bytes, status: int, url: Bytes, headers: seq<Header>) returns (buffer: Bytes)
    ensures buffer == Encode(Response(id, status, url, headers))
  {
    hide HeaderBytes, Two, HeadersBytes, Encode, Preamble;
    ghost var f := Response(id, status, url, headers);
    buffer := WritePreamble(id, status, url, |headers|, f);
    StrsNone();
    for i := 0 to |headers|
      invariant buffer == Preamble(f) + HeadersBytes(headers[..i])
    {
      buffer := WriteHeader(buffer, headers[i]);
      assert headers[..i + 1] == headers[..i] + [headers[i]];
      HeadersSnoc(headers[..i], headers[i]);
    }
    assert headers[..|headers|] == headers;
    ResponseParts(f);
  }

  method WritePreamble(id: Bytes, status: int, url: Bytes, count: nat, ghost f: Frame) returns (buffer: Bytes)
    requires f.Response? && f.id == id && f.status == status && f.url == url && |f.headers| == count
    ensures buffer == Preamble(f)
  {
    hide Two;
    buffer := Two(|id|);
    buffer := buffer + id;
    buffer := buffer + Two(8);
    buffer := buffer + RESPONSE;
    buffer := buffer + Two(status);
    buffer := buffer + Two(|url|);
    buffer := buffer + url;
    buffer := buffer + Two(count);
  }
}
