// The three byte formats a payload passes through: what the gateway builds, what the guard
// takes apart, and what the receiving application reads.
module Wire {
  import opened ByteStrings

  // ---------- Numbers ----------

  // The low n bytes of x, least significant first.
  function Little(n: nat, x: nat): (r: Bytes)
    ensures |r| == n
    decreases n
  {
    if n == 0 then [] else [(x % 256) as bv8] + Little(n - 1, x / 256)
  }

  function FromLittle(b: Bytes): nat {
    if b == [] then 0 else b[0] as nat + 256 * FromLittle(b[1..])
  }

  lemma {:induction false} FromLittleOf(n: nat, x: nat)
    requires x < Pow256(n)
    ensures FromLittle(Little(n, x)) == x
    decreases n
  {
    if n > 0 {
      FromLittleOf(n - 1, x / 256);
      NarrowWiden(x % 256);
      assert Little(n, x)[1..] == Little(n - 1, x / 256);
    }
  }

  // Byte i is the one that counts 256 to the power i.
  lemma {:induction false} LittleIsExact(n: nat, x: nat, i: nat)
    requires i < n
    ensures Little(n, x)[i] as int == x / Pow256(i) % 256
    decreases n
  {
    NarrowWiden(x % 256);
    if i > 0 {
      LittleIsExact(n - 1, x / 256, i - 1);
      DivideTwice(x, Pow256(i - 1));
    }
  }

  // The loop that appends (x >> (8 i)) & 0xFF for i = 0 to n - 1.
  method PushLittle(buffer: Bytes, n: nat, x: nat) returns (out: Bytes)
    ensures out == buffer + Little(n, x)
  {
    out := buffer;
    var i, rest := 0, x;
    while i < n
      invariant 0 <= i <= n
      invariant out + Little(n - i, rest) == buffer + Little(n, x)
    {
      out := out + [(rest % 256) as bv8];
      rest := rest / 256;
      i := i + 1;
    }
  }

  // ---------- The gateway's buffer ----------

  // An address as the gateway holds it: version 4 has 4 bytes, any other version 16.
  datatype Endpoint = Endpoint(version: bv8, ip: Bytes, port: nat)

  function AddressLength(version: bv8): nat { if version == 4 then 4 else 16 }

  predicate ValidEndpoint(e: Endpoint) {
    |e.ip| == AddressLength(e.version) && e.port < 65536
  }

  datatype Payload = FilePayload(name: Bytes, data: Bytes) | TextPayload(data: Bytes)

  const FILE_MAGIC: Bytes := [0x46, 0x49, 0x4C, 0x45, 0]
  const TEXT_MAGIC: Bytes := [0x54, 0x45, 0x58, 0x54, 0]

  function EndpointBytes(e: Endpoint): Bytes {
    [e.version] + e.ip + [(e.port / 256 % 256) as bv8, (e.port % 256) as bv8]
  }

  function Body(p: Payload): Bytes {
    match p
    case FilePayload(name, data) => FILE_MAGIC + Little(4, |name|) + name + Little(8, |data|) + data
    case TextPayload(data) => TEXT_MAGIC + Little(8, |data|) + data
  }

  method BuildBody(p: Payload) returns (body: Bytes)
    ensures body == Body(p)
  {
    match p {
      case FilePayload(name, data) =>
        body := FILE_MAGIC;
        body := PushLittle(body, 4, |name|);
        body := body + name;
        body := PushLittle(body, 8, |data|);
        body := body + data;
      case TextPayload(data) =>
        body := TEXT_MAGIC;
        body := PushLittle(body, 8, |data|);
        body := body + data;
    }
  }

  // Where everything lies in the gateway's two formats. Ports are big-endian, lengths
  // little-endian.
  lemma BodyLayout(e: Endpoint, p: Payload)
    requires ValidEndpoint(e)
    ensures var b, n := EndpointBytes(e), if e.version == 4 then 4 else 16;
            |b| == n + 3 && b[0] == e.version && b[1..n + 1] == e.ip &&
            e.port == 256 * b[n + 1] as int + b[n + 2] as int
    ensures var b := Body(p);
            match p
            case FilePayload(name, data) =>
              b[..5] == [70, 73, 76, 69, 0] && b[5..9] == Little(4, |name|) && b[9..9 + |name|] == name &&
              b[9 + |name|..17 + |name|] == Little(8, |data|) && b[17 + |name|..] == data
            case TextPayload(data) =>
              b[..5] == [84, 69, 88, 84, 0] && b[5..13] == Little(8, |data|) && b[13..] == data
  {
    hide Little;
    PortBytes(e);
  }

  // ---------- The guard's parser ----------

  datatype Parsed = Parsed(src: Endpoint, dst: Endpoint, body: Bytes)

  // The bytes the guard reads without checking that they are there.
  predicate HasHeader(b: Bytes) {
    |b| >= 1 &&
    var s := 1 + AddressLength(b[0]) + 2;
    |b| > s && |b| >= s + 1 + AddressLength(b[s]) + 2
  }

  function EndpointAt(b: Bytes, p: nat): Endpoint
    requires p < |b| && p + 1 + AddressLength(b[p]) + 2 <= |b|
  {
    var n := AddressLength(b[p]);
    Endpoint(b[p], b[p + 1..p + 1 + n], 256 * b[p + 1 + n] as nat + b[p + 2 + n] as nat)
  }

  function GuardParse(b: Bytes): Parsed
    requires HasHeader(b)
  {
    var s := 1 + AddressLength(b[0]) + 2;
    Parsed(EndpointAt(b, 0), EndpointAt(b, s), b[s + 1 + AddressLength(b[s]) + 2..])
  }

  method ParseHeader(b: Bytes) returns (r: Parsed)
    requires HasHeader(b)
    ensures r == GuardParse(b)
  {
    var srcLen := AddressLength(b[0]);
    var srcInfo := 1 + srcLen + 2;
    var dstLen := AddressLength(b[srcInfo]);
    var header := srcInfo + 1 + dstLen + 2;
    var srcIp := CopyAddress(b, 1, srcLen);
    var dstIp := CopyAddress(b, srcInfo + 1, dstLen);
    var srcPort := 256 * b[1 + srcLen] as nat + b[1 + srcLen + 1] as nat;
    var dstPort := 256 * b[srcInfo + 1 + dstLen] as nat + b[srcInfo + 1 + dstLen + 1] as nat;
    r := Parsed(Endpoint(b[0], srcIp, srcPort), Endpoint(b[srcInfo], dstIp, dstPort), b[header..]);
  }

  method CopyAddress(b: Bytes, p: nat, n: nat) returns (ip: Bytes)
    requires p + n <= |b|
    ensures ip == b[p..p + n]
  {
    ip := [];
    var i := 0;
    while i < n
      invariant 0 <= i <= n
      invariant ip == b[p..p + i]
    {
      ip := ip + [b[p + i]];
      i := i + 1;
    }
  }

  lemma PortBytes(e: Endpoint)
    requires ValidEndpoint(e)
    ensures 256 * ((e.port / 256 % 256) as bv8) as nat + ((e.port % 256) as bv8) as nat == e.port
  {
    var hi, lo := e.port / 256 % 256, e.port % 256;
    TwoBytes(e.port);
    NarrowWiden(hi);
    NarrowWiden(lo);
  }

  lemma TwoBytes(n: nat)
    requires n < 65536
    ensures 256 * (n / 256 % 256) + n % 256 == n
  {}

  lemma EndpointRoundTrip(e: Endpoint, before: Bytes, after: Bytes)
    requires ValidEndpoint(e)
    ensures var b := before + EndpointBytes(e) + after;
            var n := AddressLength(e.version);
            |b| == |before| + 1 + n + 2 + |after| && b[|before|] == e.version && EndpointAt(b, |before|) == e
  {
    hide AddressLength;
    var b := before + EndpointBytes(e) + after;
    var p, n := |before|, |e.ip|;
    PortBytes(e);
    assert EndpointBytes(e)[1..1 + n] == e.ip;
    assert b[p..p + 1 + n + 2] == EndpointBytes(e);
    assert b[p + 1..p + 1 + n] == b[p..p + 1 + n + 2][1..1 + n];
  }

  // The guard recovers both endpoints and what follows them, whatever that is.
  lemma GuardRecovers(src: Endpoint, dst: Endpoint, rest: Bytes)
    requires ValidEndpoint(src) && ValidEndpoint(dst)
    ensures var b := EndpointBytes(src) + EndpointBytes(dst) + rest;
            HasHeader(b) && GuardParse(b) == Parsed(src, dst, rest)
  {
    hide EndpointBytes; hide EndpointAt; hide AddressLength;
    var b := EndpointBytes(src) + EndpointBytes(dst) + rest;
    EndpointRoundTrip(src, [], EndpointBytes(dst) + rest);
    EndpointRoundTrip(dst, EndpointBytes(src), rest);
    EndpointRoundTrip(src, [], []);
    EndpointRoundTrip(dst, [], []);
    assert b == [] + EndpointBytes(src) + (EndpointBytes(dst) + rest);
    assert [] + EndpointBytes(src) + [] == EndpointBytes(src);
    assert [] + EndpointBytes(dst) + [] == EndpointBytes(dst);
    var s := |EndpointBytes(src)|;
    assert b[s + |EndpointBytes(dst)|..] == rest;
  }

  // ---------- The receiving application ----------

  datatype Received = ReceivedFile(name: Bytes, data: Bytes) | ReceivedText(text: Bytes) | Rejected

  function HandleFile(b: Bytes): Received {
    if |b| < 9 then Rejected
    else
      var nameLen := FromLittle(b[5..9]);
      if |b| < 17 + nameLen then Rejected
      else
        var fileSize := FromLittle(b[9 + nameLen..17 + nameLen]);
        if |b| - (17 + nameLen) < fileSize then Rejected
        else ReceivedFile(b[9..9 + nameLen], b[17 + nameLen..17 + nameLen + fileSize])
  }

  // One final NUL is dropped.
  function Chop(t: Bytes): Bytes {
    if t != [] && t[|t| - 1] == 0 then t[..|t| - 1] else t
  }

  function HandleText(b: Bytes): Received {
    if |b| < 13 then Rejected
    else
      var textLength := FromLittle(b[5..13]);
      if |b| < 13 + textLength then Rejected
      else ReceivedText(Chop(b[13..13 + textLength]))
  }

  // The prefix test stops at the NUL of the literal, so four letters decide.
  function AppParse(b: Bytes): Received {
    if FILE_MAGIC[..4] <= b then HandleFile(b)
    else if TEXT_MAGIC[..4] <= b then HandleText(b)
    else Rejected
  }

  predicate FitsLengthFields(p: Payload) {
    |p.data| < Pow256(8) && (p.FilePayload? ==> |p.name| < Pow256(4))
  }

  function Expected(p: Payload): Received {
    match p
    case FilePayload(name, data) => ReceivedFile(name, data)
    case TextPayload(data) => ReceivedText(Chop(data))
  }

  lemma FileBodyParses(name: Bytes, data: Bytes)
    requires |name| < Pow256(4) && |data| < Pow256(8)
    ensures HandleFile(Body(FilePayload(name, data))) == ReceivedFile(name, data)
  {
    hide Little; hide FromLittle; hide Pow256;
    var b := Body(FilePayload(name, data));
    var n := |name|;
    FromLittleOf(4, n);
    FromLittleOf(8, |data|);
    assert b[5..9] == Little(4, n);
    assert b[9..9 + n] == name;
    assert b[9 + n..17 + n] == Little(8, |data|);
    assert b[17 + n..17 + n + |data|] == data;
  }

  lemma TextBodyParses(data: Bytes)
    requires |data| < Pow256(8)
    ensures HandleText(Body(TextPayload(data))) == ReceivedText(Chop(data))
  {
    hide Little; hide FromLittle; hide Pow256;
    var b := Body(TextPayload(data));
    FromLittleOf(8, |data|);
    assert b[5..13] == Little(8, |data|);
    assert b[13..13 + |data|] == data;
  }

  // The application reads back the file name and the data, or the text up to one final NUL.
  lemma AppRecovers(p: Payload)
    requires FitsLengthFields(p)
    ensures AppParse(Body(p)) == Expected(p)
  {
    hide Little; hide FromLittle; hide Pow256; hide HandleFile; hide HandleText;
    match p
    case FilePayload(name, data) =>
      FileBodyParses(name, data);
      assert FILE_MAGIC[..4] <= Body(p);
    case TextPayload(data) =>
      TextBodyParses(data);
      assert Body(p)[0] == 0x54 && FILE_MAGIC[..4][0] == 0x46;
      assert TEXT_MAGIC[..4] <= Body(p);
  }
}
