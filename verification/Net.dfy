/** The framed stream protocol: one frame at a time out of a buffer, and out of a socket that hands
    over its bytes in pieces of any size. */
module Net {
  import opened Types
  import Crc32
  import ShiftRegister

  const FRAME_MAGIC: nat := 0x534C_4631
  const MAX_PAYLOAD: nat := 4 * 1024 * 1024

  datatype Frame = Frame(kind: byte, flags: byte, payload: seq<byte>)

  datatype FrameError = TooShort | BadMagic | Oversized | Truncated | TrailingGarbage | ChecksumMismatch

  datatype Decoded = Good(frame: Frame) | Bad(error: FrameError)

  // ----- Encoding -----

  function Le32(x: nat): (d: seq<byte>)
    requires x < TWO_32
    ensures |d| == 4 && Num32(d[0], d[1], d[2], d[3]) == x
  {
    var y := x / 256;
    var z := y / 256;
    [x % 256, y % 256, z % 256, z / 256]
  }

  function Num32(a: byte, b: byte, c: byte, d: byte): (x: nat)
    ensures x < TWO_32
  {
    a + 256 * (b + 256 * (c + 256 * d))
  }

  function Header(kind: byte, flags: byte, n: nat): (h: seq<byte>)
    requires n < TWO_32
    ensures |h| == 10
  {
    Le32(FRAME_MAGIC) + [kind, flags] + Le32(n)
  }

  /** The header and payload that the checksum of a frame covers. */
  function Body(f: Frame): (b: seq<byte>)
    ensures |b| == 10 + |f.payload|
  {
    Header(f.kind, f.flags, |f.payload| % TWO_32) + f.payload
  }

  function Encode(f: Frame): (bytes: seq<byte>)
    ensures |bytes| == 14 + |f.payload|
  {
    Crc32.Seal(Body(f))
  }

  method EncodeFrame(f: Frame) returns (bytes: seq<byte>)
    ensures bytes == Encode(f)
  {
    var body := EncodeBody(f);
    var crc := Crc32.Compute(body);
    bytes := body + Crc32.WordBytes(crc);
  }

  method EncodeBody(f: Frame) returns (out: seq<byte>)
    ensures out == Body(f)
  {
    out := AppendU32([], FRAME_MAGIC);
    assert out == Le32(FRAME_MAGIC);
    out := out + [f.kind] + [f.flags];
    out := AppendU32(out, |f.payload| % TWO_32);
    out := out + f.payload;
  }

  method AppendU32(v: seq<byte>, x: nat) returns (out: seq<byte>)
    requires x < TWO_32
    ensures out == v + Le32(x)
  {
    out := v;
    var rest := x;
    ghost var d := Le32(x);
    for i := 0 to 4
      invariant out == v + d[..i]
      invariant i == 0 ==> rest == x
      invariant i == 1 ==> rest == x / 256
      invariant i == 2 ==> rest == x / 256 / 256
      invariant i == 3 ==> rest == x / 256 / 256 / 256
    {
      assert d[i] == rest % 256;
      out := out + [rest % 256];
      rest := rest / 256;
    }
  }

  // ----- Decoding a buffer -----

  function MagicOf(data: seq<byte>): nat
    requires |data| >= 10
  {
    Num32(data[0], data[1], data[2], data[3])
  }

  function LengthOf(data: seq<byte>): nat
    requires |data| >= 10
  {
    Num32(data[6], data[7], data[8], data[9])
  }

  function Decode(data: seq<byte>): Decoded {
    if |data| < 14 then Bad(TooShort)
    else if MagicOf(data) != FRAME_MAGIC then Bad(BadMagic)
    else
      var n := LengthOf(data);
      if n > MAX_PAYLOAD then Bad(Oversized)
      else if |data| < 14 + n then Bad(Truncated)
      else if |data| > 14 + n then Bad(TrailingGarbage)
      else if Crc32.Word(data[10 + n..]) != Crc32.Checksum(data[..10 + n]) then Bad(ChecksumMismatch)
      else Good(Frame(data[4], data[5], data[10..10 + n]))
  }

  method DecodeFrame(data: seq<byte>) returns (r: Decoded)
    ensures r == Decode(data)
  {
    if |data| < 14 {
      return Bad(TooShort);
    }
    if MagicOf(data) != FRAME_MAGIC {
      return Bad(BadMagic);
    }
    var n := LengthOf(data);
    if n > MAX_PAYLOAD {
      return Bad(Oversized);
    }
    if |data| < 14 + n {
      return Bad(Truncated);
    }
    if |data| > 14 + n {
      return Bad(TrailingGarbage);
    }
    var stored := Crc32.Word(data[10 + n..]);
    var computed := Crc32.Compute(data[..10 + n]);
    if computed != stored {
      return Bad(ChecksumMismatch);
    }
    r := Good(Frame(data[4], data[5], data[10..10 + n]));
  }

  /** What a buffer must be to decode. */
  lemma DecodesWhen(data: seq<byte>)
    ensures Decode(data).Good? <==>
      && |data| >= 14 && MagicOf(data) == FRAME_MAGIC && LengthOf(data) <= MAX_PAYLOAD
      && |data| == 14 + LengthOf(data) && Crc32.Sealed(data)
  {}

  lemma HeaderFields(f: Frame, tail: seq<byte>)
    ensures var data := Body(f) + tail;
      && MagicOf(data) == FRAME_MAGIC && data[4] == f.kind && data[5] == f.flags
      && LengthOf(data) == |f.payload| % TWO_32 && data[10..10 + |f.payload|] == f.payload
  {
    var n := |f.payload| % TWO_32;
    var data := Body(f) + tail;
    var h := Header(f.kind, f.flags, n);
    assert data[..10] == h;
    assert h[..4] == Le32(FRAME_MAGIC) && h[6..] == Le32(n);
    assert data[0] == h[..4][0] && data[1] == h[..4][1] && data[2] == h[..4][2] && data[3] == h[..4][3];
    assert data[6] == h[6..][0] && data[7] == h[6..][1] && data[8] == h[6..][2] && data[9] == h[6..][3];
    assert data[4] == h[4] && data[5] == h[5];
  }

  lemma EncodedFields(f: Frame)
    ensures var data := Encode(f);
      && MagicOf(data) == FRAME_MAGIC && data[4] == f.kind && data[5] == f.flags
      && LengthOf(data) == |f.payload| % TWO_32 && data[10..10 + |f.payload|] == f.payload
      && Crc32.Sealed(data)
  {
    HeaderFields(f, Crc32.WordBytes(Crc32.Checksum(Body(f))));
    Crc32.SealSeals(Body(f));
  }

  /** Decoding an encoded frame gives it back exactly when its payload is within the limit. */
  lemma DecodeUndoesEncode(f: Frame)
    ensures Decode(Encode(f)) ==
      if |f.payload| <= MAX_PAYLOAD then Good(f)
      else if |f.payload| % TWO_32 > MAX_PAYLOAD then Bad(Oversized)
      else Bad(TrailingGarbage)
  {
    EncodedFields(f);
    DecodedFields(Encode(f), f);
  }

  lemma DecodedFields(data: seq<byte>, f: Frame)
    requires |data| == 14 + |f.payload| && MagicOf(data) == FRAME_MAGIC && data[4] == f.kind && data[5] == f.flags
    requires LengthOf(data) == |f.payload| % TWO_32 && data[10..10 + |f.payload|] == f.payload && Crc32.Sealed(data)
    ensures Decode(data) ==
      if |f.payload| <= MAX_PAYLOAD then Good(f)
      else if |f.payload| % TWO_32 > MAX_PAYLOAD then Bad(Oversized)
      else Bad(TrailingGarbage)
  {
    var n := |f.payload| % TWO_32;
    if |f.payload| < TWO_32 {
      assert n == |f.payload|;
    } else {
      assert n < |f.payload|;
    }
  }

  /** Damage to at most four consecutive bytes of a buffer that passes the checksum, whether it hits
      magic, kind, flags, length, payload or footer, makes it fail to decode. */
  lemma DamagedFrameIsRejected(data: seq<byte>, damaged: seq<byte>, start: nat, width: nat)
    requires Crc32.Sealed(data)
    requires ShiftRegister.BurstApart(data, damaged, start, width) && damaged != data
    ensures Decode(damaged).Bad?
  {
    DecodesWhen(damaged);
    Crc32.SealBreaks(data, damaged, start, width);
  }

  /** Every encoded frame is such a buffer, whatever the size of its payload. */
  lemma DamagedEncodingIsRejected(f: Frame, damaged: seq<byte>, start: nat, width: nat)
    requires ShiftRegister.BurstApart(Encode(f), damaged, start, width) && damaged != Encode(f)
    ensures Decode(damaged).Bad?
  {
    Crc32.SealSeals(Body(f));
    DamagedFrameIsRejected(Encode(f), damaged, start, width);
  }

  // ----- Sockets -----

  /** A connection: the bytes that will still arrive before it closes, and the bytes it has taken. */
  class Socket {
    var incoming: seq<byte>
    var outgoing: seq<byte>

    constructor (incoming: seq<byte>)
      ensures this.incoming == incoming && outgoing == []
    {
      this.incoming := incoming;
      outgoing := [];
    }

    /** Hands over between one and `n` bytes, or none once the connection has closed. */
    method Recv(n: nat) returns (chunk: seq<byte>)
      requires n > 0
      modifies this`incoming
      ensures chunk + incoming == old(incoming) && |chunk| <= n
      ensures chunk == [] <==> old(incoming) == []
    {
      if incoming == [] {
        return [];
      }
      var k :| 1 <= k <= n && k <= |incoming|;
      chunk := incoming[..k];
      incoming := incoming[k..];
    }

    /** Takes some of the bytes offered; none means that the connection has failed. */
    method Send(bytes: seq<byte>) returns (taken: nat)
      modifies this`outgoing
      ensures taken <= |bytes| && outgoing == old(outgoing) + bytes[..taken]
    {
      taken :| 0 <= taken <= |bytes|;
      outgoing := outgoing + bytes[..taken];
    }
  }

  method RecvExact(sock: Socket, n: nat) returns (r: Option<seq<byte>>)
    modifies sock`incoming
    ensures |old(sock.incoming)| >= n ==>
      r == Some(old(sock.incoming)[..n]) && sock.incoming == old(sock.incoming)[n..]
    ensures |old(sock.incoming)| < n ==> r.None?
  {
    var buf := [];
    while |buf| < n
      invariant |buf| <= n && buf + sock.incoming == old(sock.incoming)
      decreases n - |buf|
    {
      var chunk := sock.Recv(n - |buf|);
      if chunk == [] {
        return None;
      }
      buf := buf + chunk;
    }
    r := Some(buf);
  }

  method SendExact(sock: Socket, bytes: seq<byte>) returns (ok: bool)
    modifies sock`outgoing
    ensures ok ==> sock.outgoing == old(sock.outgoing) + bytes
    ensures !ok ==> exists k :: 0 <= k < |bytes| && sock.outgoing == old(sock.outgoing) + bytes[..k]
  {
    var sent := 0;
    assert bytes[..0] == [];
    while sent < |bytes|
      invariant sent <= |bytes| && sock.outgoing == old(sock.outgoing) + bytes[..sent]
    {
      var r := sock.Send(bytes[sent..]);
      if r == 0 {
        assert sock.outgoing == old(sock.outgoing) + bytes[..sent];
        return false;
      }
      assert bytes[..sent] + bytes[sent..][..r] == bytes[..sent + r];
      sent := sent + r;
    }
    assert bytes[..sent] == bytes;
    ok := true;
  }

  method SendFrame(sock: Socket, f: Frame) returns (ok: bool)
    modifies sock`outgoing
    ensures ok ==> |f.payload| <= MAX_PAYLOAD && sock.outgoing == old(sock.outgoing) + Encode(f)
    ensures |f.payload| > MAX_PAYLOAD ==> !ok && sock.outgoing == old(sock.outgoing)
  {
    var bytes := EncodeFrame(f);
    if |bytes| > MAX_PAYLOAD + 14 {
      return false;
    }
    ok := SendExact(sock, bytes);
  }

  // ----- Frames out of a stream -----

  /** The limit that a receiver with `maxPayload` applies: the argument is cut to 32 bits first. */
  function PayloadLimit(maxPayload: nat): nat {
    if maxPayload % TWO_32 < MAX_PAYLOAD then maxPayload % TWO_32 else MAX_PAYLOAD
  }

  /** The first frame of a stream and what follows it. */
  function Take(s: seq<byte>, maxPayload: nat): Option<(Frame, seq<byte>)> {
    if |s| < 10 || MagicOf(s) != FRAME_MAGIC then None
    else
      var n := LengthOf(s);
      if n > PayloadLimit(maxPayload) || |s| < 14 + n then None
      else if Crc32.Word(s[10 + n..14 + n]) != Crc32.Checksum(s[..10 + n]) then None
      else Some((Frame(s[4], s[5], s[10..10 + n]), s[14 + n..]))
  }

  method RecvFrame(sock: Socket, maxPayload: nat) returns (r: Option<Frame>)
    modifies sock`incoming
    ensures match Take(old(sock.incoming), maxPayload)
      case None => r.None?
      case Some((f, rest)) => r == Some(f) && sock.incoming == rest
  {
    ghost var s := sock.incoming;
    var hdr :- RecvExact(sock, 10);
    if MagicOf(hdr) != FRAME_MAGIC {
      return None;
    }
    var n := LengthOf(hdr);
    if n > PayloadLimit(maxPayload) {
      return None;
    }
    var payload :- RecvExact(sock, n);
    assert |s| >= 10 + n && payload == s[10..10 + n] && sock.incoming == s[10 + n..];
    var footer :- RecvExact(sock, 4);
    assert footer == s[10 + n..14 + n] && sock.incoming == s[14 + n..];
    var stored := Crc32.Word(footer);
    assert hdr + payload == s[..10 + n];
    var computed := Crc32.Compute(hdr + payload);
    if computed != stored {
      return None;
    }
    r := Some(Frame(hdr[4], hdr[5], payload));
  }

  /** A stream receive agrees with the buffer decoder on exactly the bytes it consumed. */
  lemma TakeAgreesWithDecode(s: seq<byte>, maxPayload: nat, f: Frame, rest: seq<byte>)
    ensures Take(s, maxPayload) == Some((f, rest)) <==>
      && |rest| <= |s| && s[|s| - |rest|..] == rest
      && Decode(s[..|s| - |rest|]) == Good(f) && |f.payload| <= PayloadLimit(maxPayload)
  {
    if Take(s, maxPayload) == Some((f, rest)) {
      var n := LengthOf(s);
      var data := s[..14 + n];
      assert s[|s| - |rest|..] == rest;
      assert data[10 + n..] == s[10 + n..14 + n] && data[..10 + n] == s[..10 + n];
      assert data[10..10 + n] == s[10..10 + n];
    }
    if && |rest| <= |s| && s[|s| - |rest|..] == rest
       && Decode(s[..|s| - |rest|]) == Good(f) && |f.payload| <= PayloadLimit(maxPayload)
    {
      var data := s[..|s| - |rest|];
      var n := LengthOf(data);
      assert data[10 + n..] == s[10 + n..14 + n] && data[..10 + n] == s[..10 + n];
      assert data[10..10 + n] == s[10..10 + n];
      assert s[14 + n..] == rest;
    }
  }

  /** The bytes of several frames, one after the other. */
  function Wire(frames: seq<Frame>): seq<byte> {
    if frames == [] then [] else Encode(frames[0]) + Wire(frames[1..])
  }

  lemma TakeFirst(f: Frame, rest: seq<byte>, maxPayload: nat)
    requires |f.payload| <= PayloadLimit(maxPayload)
    ensures Take(Encode(f) + rest, maxPayload) == Some((f, rest))
  {
    var s := Encode(f) + rest;
    DecodeUndoesEncode(f);
    assert s[..|s| - |rest|] == Encode(f) && s[|s| - |rest|..] == rest;
    TakeAgreesWithDecode(s, maxPayload, f, rest);
  }

  lemma WireNext(frames: seq<Frame>, i: nat, tail: seq<byte>)
    requires i < |frames|
    ensures Wire(frames[i..]) + tail == Encode(frames[i]) + (Wire(frames[i + 1..]) + tail)
  {
    assert frames[i..][0] == frames[i] && frames[i..][1..] == frames[i + 1..];
  }

  /** However the transport cuts the bytes of a sequence of frames into pieces, receiving that many
      frames gives back exactly those frames, in order, and leaves what came after them. */
  method RecvAll(sock: Socket, maxPayload: nat, ghost frames: seq<Frame>, ghost tail: seq<byte>, count: nat)
    returns (got: seq<Frame>)
    requires count == |frames| && sock.incoming == Wire(frames) + tail
    requires forall f :: f in frames ==> |f.payload| <= PayloadLimit(maxPayload)
    modifies sock`incoming
    ensures got == frames && sock.incoming == tail
  {
    got := [];
    assert frames[0..] == frames;
    for i := 0 to count
      invariant got == frames[..i] && sock.incoming == Wire(frames[i..]) + tail
    {
      WireNext(frames, i, tail);
      TakeFirst(frames[i], Wire(frames[i + 1..]) + tail, maxPayload);
      var r := RecvFrame(sock, maxPayload);
      got := got + [r.value];
    }
    assert Wire(frames[count..]) + tail == tail;
  }
}
