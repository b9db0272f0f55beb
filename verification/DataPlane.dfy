/**
  The body of reads and writes (server/internal/proto/compression.go, session.go;
  windows/network-core/src/protocol_client.rs). Each side has its own encoder and its own decoder; `Rust…` is the
  client's and `Go…` the server's. Each side has a zstd library of its own; both are parameters.
*/
module DataPlane {
  import opened Common
  import opened Wire

  const MAX_RAW: nat := 60 * 1024
  const RAW: byte := 0
  const ZSTD_1: byte := 1
  const ZSTD_3: byte := 2
  const SOLID: byte := 255

  /** The zstd library of one side: a compressor that may fail, and a decompressor that may reject. */
  datatype Zstd = Zstd(compress: (Bytes, nat) -> Option<Bytes>, decompress: Bytes -> Option<Bytes>)

  /** What one library compresses the other decompresses to the same data. The libraries may compress differently. */
  ghost predicate Undoes(decoder: Zstd, encoder: Zstd) {
    forall data: Bytes, level: nat ::
      encoder.compress(data, level).Some? ==> decoder.decompress(encoder.compress(data, level).value) == Some(data)
  }

  predicate LengthOk(n: nat) { 0 < n <= MAX_RAW }

  /** Every byte is the first one. */
  predicate Solid(data: Bytes)
    requires data != []
  {
    forall i :: 0 <= i < |data| ==> data[i] == data[0]
  }

  function Repeat(x: byte, n: nat): (s: Bytes)
    ensures |s| == n && forall i :: 0 <= i < n ==> s[i] == x
  {
    seq(n, _ => x)
  }

  // ---------------------------------------------------------------- the client's encoder and decoder

  function DivCeil(a: nat, b: nat): nat
    requires b > 0
  {
    a / b + if a % b != 0 then 1 else 0
  }

  function RustMinimumSavings(rawLength: nat): nat {
    Max(64, DivCeil(rawLength * 5, 100))
  }

  function RustTryZstd(z: Zstd, data: Bytes, code: byte, level: nat): Option<(byte, Bytes)> {
    match z.compress(data, level)
    case None => None
    case Some(encoded) =>
      if |encoded| > MAX_RAW || |data| < |encoded| then None
      else if |data| - |encoded| < RustMinimumSavings(|data|) then None
      else Some((code, encoded))
  }

  /** `encode_data_plane_payload` of the client, with compressor `z`. */
  function Encoded(z: Zstd, data: Bytes): (byte, Bytes) {
    if data == [] then (RAW, [])
    else if Solid(data) then (SOLID, [data[0]])
    else
      var compressed := if |data| < 1024 then None
                        else if |data| < 4096 then RustTryZstd(z, data, ZSTD_1, 1)
                        else RustTryZstd(z, data, ZSTD_3, 3);
      if compressed.Some? then compressed.value else (RAW, data)
  }

  /** The label of a rejected body. */
  datatype DecodeError = CompressCode | PayloadLength | BodyLength | Decompress

  /** `decode_data_plane_payload` of the client. */
  function RustDecode(z: Zstd, code: byte, payload: Bytes, expected: nat): Result<Bytes, DecodeError> {
    if !LengthOk(expected) then Err(BodyLength)
    else if |payload| > MAX_RAW then Err(PayloadLength)
    else if code == RAW then (if |payload| != expected then Err(BodyLength) else Ok(payload))
    else if code == ZSTD_1 || code == ZSTD_3 then
      match z.decompress(payload)
      case None => Err(Decompress)
      case Some(decoded) => if |decoded| != expected then Err(BodyLength) else Ok(decoded)
    else if code == SOLID then (if |payload| != 1 then Err(BodyLength) else Ok(Repeat(payload[0], expected)))
    else Err(CompressCode)
  }

  // ---------------------------------------------------------------- the server's encoder and decoder

  /** The check loop of the server; the client's `all` is the predicate `Solid`. */
  method IsSolidBytePayload(data: Bytes) returns (r: bool)
    requires data != []
    ensures r == Solid(data)
  {
    var first, rest := data[0], data[1..];
    var i := 0;
    while i < |rest|
      invariant 0 <= i <= |rest|
      invariant forall j :: 0 <= j <= i ==> data[j] == first
    {
      if rest[i] != first {
        assert data[i + 1] != data[0];
        return false;
      }
      i := i + 1;
    }
    r := true;
  }

  function GoMinimumSavings(rawLength: nat): nat {
    var percent := (rawLength * 5 + 99) / 100;
    if percent < 64 then 64 else percent
  }

  function GoTryZstd(z: Zstd, data: Bytes, level: nat): Option<Bytes> {
    match z.compress(data, level)
    case None => None
    case Some(encoded) =>
      if |encoded| > MAX_RAW then None
      else if |data| - |encoded| < GoMinimumSavings(|data|) then None
      else Some(encoded)
  }

  /** `encodeDataPlanePayload` of the server, with compressor `z`: the client's rule. */
  method GoEncode(z: Zstd, data: Bytes) returns (code: byte, payload: Bytes)
    ensures (code, payload) == Encoded(z, data)
  {
    if data == [] {
      return RAW, [];
    }
    var solid := IsSolidBytePayload(data);
    if solid {
      return SOLID, [data[0]];
    }
    SavingsAgree(|data|);
    if |data| >= 1024 {
      if |data| < 4096 {
        var tried := GoTryZstd(z, data, 1);
        if tried.Some? {
          return ZSTD_1, tried.value;
        }
      } else {
        var tried := GoTryZstd(z, data, 3);
        if tried.Some? {
          return ZSTD_3, tried.value;
        }
      }
    }
    code, payload := RAW, data;
  }

  /** `decodeDataPlanePayload` of the server. */
  function GoDecode(z: Zstd, code: byte, payload: Bytes, expected: nat): Option<Bytes> {
    if expected == 0 || expected > MAX_RAW then None
    else if |payload| > MAX_RAW then None
    else if code == RAW then (if |payload| != expected then None else Some(payload))
    else if code == ZSTD_1 || code == ZSTD_3 then
      var decoded := z.decompress(payload);
      if decoded.None? || |decoded.value| != expected then None else decoded
    else if code == SOLID then (if |payload| != 1 then None else Some(Repeat(payload[0], expected)))
    else None
  }

  // ---------------------------------------------------------------- the two sides agree

  /** Rounding five per cent up by hand and by `div_ceil` is the same. */
  lemma SavingsAgree(n: nat)
    ensures RustMinimumSavings(n) == GoMinimumSavings(n)
  {
    var a := n * 5;
    assert a == 100 * (a / 100) + a % 100;
    if a % 100 == 0 {
      assert (a + 99) / 100 == a / 100;
    } else {
      assert (a + 99) / 100 == a / 100 + 1;
    }
  }

  /** The compressed form fits a body and saves at least 64 bytes and five per cent. */
  predicate Worth(rawLength: nat, compressed: Option<Bytes>) {
    && compressed.Some? && |compressed.value| <= 61440
    && |compressed.value| + 64 <= rawLength && 100 * |compressed.value| <= 95 * rawLength
  }

  /** The form sent, for either side and its library. One byte stands for data that is all the same byte; otherwise
      data from 1024 bytes on is compressed, at level 1 below 4096 bytes and at level 3 from there, exactly when
      that is worth it; and otherwise the data is sent as it is. */
  lemma EncodedForm(z: Zstd, data: Bytes)
    ensures var (code, payload) := Encoded(z, data);
      var solid := data != [] && forall i :: 0 <= i < |data| ==> data[i] == data[0];
      && (code == 255 <==> solid)
      && (code == 1 <==> !solid && 1024 <= |data| < 4096 && Worth(|data|, z.compress(data, 1)))
      && (code == 2 <==> !solid && 4096 <= |data| && Worth(|data|, z.compress(data, 3)))
      && code in {0, 1, 2, 255}
      && payload == (
           if code == 255 then [data[0]]
           else if code == 1 then z.compress(data, 1).value
           else if code == 2 then z.compress(data, 3).value
           else data)
  {
    FivePercent(|data|);
  }

  lemma FivePercent(n: nat)
    ensures forall m: nat :: m <= n ==> (n - m >= RustMinimumSavings(n) <==> m + 64 <= n && 100 * m <= 95 * n)
  {
    var q, r := n * 5 / 100, n * 5 % 100;
    assert n * 5 == 100 * q + r && 0 <= r < 100;
    assert RustMinimumSavings(n) == Max(64, q + if r != 0 then 1 else 0);
  }

  /** What either side accepts, and the data it takes from it. */
  lemma DecodedForm(z: Zstd, code: byte, payload: Bytes, expected: nat)
    ensures var r := GoDecode(z, code, payload, expected);
      && (r.Some? <==>
            && 1 <= expected <= 61440 && |payload| <= 61440
            && (|| (code == 0 && |payload| == expected)
                || (code in {1, 2} && z.decompress(payload).Some? && |z.decompress(payload).value| == expected)
                || (code == 255 && |payload| == 1)))
      && (r.Some? && code == 0 ==> r.value == payload)
      && (r.Some? && code in {1, 2} ==> r.value == z.decompress(payload).value)
      && (r.Some? && code == 255 ==> |r.value| == expected && forall x :: x in r.value ==> x == payload[0])
  {
  }

  /** The label a client gives a body it rejects: the announced length first, then the length of the payload, the
      code, the library, and the length of the data. */
  lemma RejectedFor(z: Zstd, code: byte, payload: Bytes, expected: nat)
    requires RustDecode(z, code, payload, expected).Err?
    ensures RustDecode(z, code, payload, expected).error ==
      if expected == 0 || expected > 61440 then BodyLength
      else if |payload| > 61440 then PayloadLength
      else if code !in {0, 1, 2, 255} then CompressCode
      else if code in {1, 2} && z.decompress(payload).None? then Decompress
      else BodyLength
  {
  }

  /** Where the two compressors give the same result, both sides choose the same form and bytes. */
  lemma EqualChoice(client: Zstd, server: Zstd, data: Bytes)
    requires var level := if |data| < 4096 then 1 else 3;
      |data| < 1024 || client.compress(data, level) == server.compress(data, level)
    ensures Encoded(client, data) == Encoded(server, data)
  {
  }

  /** Both decoders accept the same bodies and read the same data from them, where their libraries decompress the
      payload alike. */
  lemma DecodersAgree(client: Zstd, server: Zstd, code: byte, payload: Bytes, expected: nat)
    requires client.decompress(payload) == server.decompress(payload)
    ensures GoDecode(server, code, payload, expected)
      == match RustDecode(client, code, payload, expected) case Ok(data) => Some(data) case Err(_) => None
  {
  }

  lemma SolidIsRepeat(data: Bytes)
    requires data != [] && Solid(data)
    ensures Repeat(data[0], |data|) == data
  {
  }

  /** Encoding never makes the data longer, and a compressed form saves at least 64 bytes. */
  lemma EncodedIsShort(z: Zstd, data: Bytes)
    ensures var (code, payload) := Encoded(z, data);
      |payload| <= |data| && (code == ZSTD_1 || code == ZSTD_3 ==> |payload| + 64 <= |data|)
  {
  }

  /** What either side encodes the other decodes to the same data, exactly for the lengths the protocol allows. */
  lemma RoundTripIff(client: Zstd, server: Zstd, data: Bytes)
    requires Undoes(server, client) && Undoes(client, server)
    ensures var (code, payload) := Encoded(client, data);
      GoDecode(server, code, payload, |data|) == Some(data) <==> LengthOk(|data|)
    ensures var (code, payload) := Encoded(server, data);
      RustDecode(client, code, payload, |data|) == Ok(data) <==> LengthOk(|data|)
  {
    ToServer(client, server, data);
    ToClient(client, server, data);
  }

  lemma ToServer(client: Zstd, server: Zstd, data: Bytes)
    requires Undoes(server, client)
    ensures var (code, payload) := Encoded(client, data);
      GoDecode(server, code, payload, |data|) == Some(data) <==> LengthOk(|data|)
  {
    EncodedIsShort(client, data);
    if data != [] && Solid(data) {
      SolidIsRepeat(data);
    }
  }

  lemma ToClient(client: Zstd, server: Zstd, data: Bytes)
    requires Undoes(client, server)
    ensures var (code, payload) := Encoded(server, data);
      RustDecode(client, code, payload, |data|) == Ok(data) <==> LengthOk(|data|)
  {
    EncodedIsShort(server, data);
    if data != [] && Solid(data) {
      SolidIsRepeat(data);
    }
  }

  /** A decoded body has the announced length, and that length is allowed. */
  lemma DecodedLength(z: Zstd, code: byte, payload: Bytes, expected: nat)
    requires GoDecode(z, code, payload, expected).Some?
    ensures |GoDecode(z, code, payload, expected).value| == expected && LengthOk(expected)
  {
  }

  // ---------------------------------------------------------------- the read response

  /** `BuildReadResponseBody` of the server. */
  method BuildReadResponseBody(z: Zstd, data: Bytes) returns (body: array<byte>)
    ensures fresh(body) && body[..] == ReadResponseBytes(z, data)
  {
    var code, payload := GoEncode(z, data);
    body := new byte[1 + |payload|](_ => 0);
    body[0] := code;
    PutBytes(body, 1, payload);
  }

  function ReadResponseBytes(z: Zstd, data: Bytes): Bytes {
    var (code, payload) := Encoded(z, data);
    [code] + payload
  }

  /** The body part of `ReadAtResponse::decode_response` on the client. */
  function ParseReadResponse(z: Zstd, body: Bytes, expected: nat): Result<Bytes, DecodeError> {
    if |body| < 1 then Err(BodyLength) else RustDecode(z, body[0], body[1..], expected)
  }

  /** The code comes first, and what follows is decoded by it. */
  lemma ReadResponseLayout(client: Zstd, server: Zstd, data: Bytes, expected: nat)
    ensures var body := ReadResponseBytes(server, data);
      && |body| == 1 + |Encoded(server, data).1|
      && body[0] == Encoded(server, data).0 && body[1..] == Encoded(server, data).1
      && ParseReadResponse(client, body, expected) == RustDecode(client, body[0], body[1..], expected)
    ensures ParseReadResponse(client, [], expected).Err?
  {
  }

  /** The client reads from the server's response exactly the data the server put in. */
  lemma ReadResponseRoundTrip(client: Zstd, server: Zstd, data: Bytes)
    requires Undoes(client, server) && LengthOk(|data|)
    ensures ParseReadResponse(client, ReadResponseBytes(server, data), |data|) == Ok(data)
  {
    var (code, payload) := Encoded(server, data);
    ToClient(client, server, data);
    assert ([code] + payload)[1..] == payload;
  }
}
