/**
 The WebSocket tunnel of internal/conn/ws_conn.go: each write is one binary frame (section 5.2
 of RFC 6455), masked by clients (section 5.3), and each read takes one frame into the
 connection's own buffer, unmasks it there and copies it out.
 */
module WsConn {
  import opened Base

  type Mask = m: seq<Byte> | |m| == 4 witness [0, 0, 0, 0]

  const MAX_LENGTH: nat := 0x8000_0000_0000_0000

  // --- frames ---

  function FromByte(b: Byte): (n: nat)
    ensures n < 256
  {
    b as int
  }

  lemma Successor(b: Byte)
    requires b != 255
    ensures FromByte(b + 1) == FromByte(b) + 1
  {
  }

  lemma {:induction false} ByteExists(n: nat)
    requires n < 256
    ensures exists b: Byte :: FromByte(b) == n
  {
    if n == 0 {
      assert FromByte(0) == 0;
    } else {
      ByteExists(n - 1);
      var b: Byte :| FromByte(b) == n - 1;
      Successor(b);
    }
  }

  function ToByte(n: nat): (b: Byte)
    requires n < 256
    ensures FromByte(b) == n
  {
    ByteExists(n);
    assert forall a: Byte, b: Byte | FromByte(a) == n && FromByte(b) == n :: a == b by {
    }
    var b: Byte :| FromByte(b) == n;
    b
  }

  function Power256(k: nat): nat {
    if k == 0 then 1 else 256 * Power256(k - 1)
  }

  function BigEndian(n: nat, k: nat): seq<Byte> {
    if k == 0 then [] else BigEndian(n / 256, k - 1) + [ToByte(n % 256)]
  }

  function FromBigEndian(s: seq<Byte>): nat {
    if s == [] then 0 else FromBigEndian(s[..|s| - 1]) * 256 + FromByte(s[|s| - 1])
  }

  lemma {:induction false} BigEndianRoundTrip(n: nat, k: nat)
    requires n < Power256(k)
    ensures |BigEndian(n, k)| == k && FromBigEndian(BigEndian(n, k)) == n
  {
    if k > 0 {
      var high := BigEndian(n / 256, k - 1);
      var low := ToByte(n % 256);
      BigEndianRoundTrip(n / 256, k - 1);
    }
  }

  /** The three length forms: 7 bits, 7+16 bits and 7+64 bits. */
  function LengthForm(n: nat): nat {
    if n <= 125 then n else if n <= 0xFFFF then 126 else 127
  }

  function Extended(form: nat): nat {
    if form == 126 then 2 else if form == 127 then 8 else 0
  }

  function LengthBytes(n: nat, masked: bool): seq<Byte> {
    var form := LengthForm(n);
    [ToByte(form + if masked then 128 else 0)] + BigEndian(n, Extended(form))
  }

  function KeyBytes(key: Option<Mask>): seq<Byte> {
    if key.Some? then key.value else []
  }

  function Header(n: nat, mask: Option<Mask>): seq<Byte> {
    [0x82] + LengthBytes(n, mask.Some?) + KeyBytes(mask)
  }

  function Cipher(payload: seq<Byte>, mask: Mask): seq<Byte> {
    seq(|payload|, i requires 0 <= i < |payload| => payload[i] ^ mask[i % 4])
  }

  function Coded(payload: seq<Byte>, mask: Option<Mask>): seq<Byte> {
    if mask.Some? then Cipher(payload, mask.value) else payload
  }

  function Frame(payload: seq<Byte>, mask: Option<Mask>): seq<Byte> {
    Header(|payload|, mask) + Coded(payload, mask)
  }

  lemma CipherInvolution(payload: seq<Byte>, mask: Mask)
    ensures Cipher(Cipher(payload, mask), mask) == payload
  {
  }

  // --- one read of the byte stream ---

  datatype Parsed = Incomplete | BadLength(size: nat) | Parsed(length: nat, mask: Option<Mask>, size: nat)

  function ParseHeader(s: seq<Byte>): (r: Parsed)
    ensures !r.Incomplete? ==> r.size <= |s|
  {
    if |s| < 2 then Incomplete
    else
      var second := FromByte(s[1]);
      var masked := second >= 128;
      var form := second % 128;
      var extended := Extended(form);
      var size := 2 + extended + if masked then 4 else 0;
      if |s| < size then Incomplete
      else if form == 127 && FromByte(s[2]) >= 128 then BadLength(size)
      else Parsed(if extended == 0 then form else FromBigEndian(s[2..2 + extended]),
                  if masked then Some(s[2 + extended..size]) else None, size)
  }

  datatype Outcome = Payload(bytes: seq<Byte>) | NoHeader | LargerThanBuffer | NoPayload | LargerThanReader

  /** The outcome of one Read by a connection with a buffer of the given capacity into a reader of
      the given size, and the bytes left on the stream. */
  function ReadFrame(s: seq<Byte>, capacity: nat, size: nat): (Outcome, seq<Byte>) {
    match ParseHeader(s)
    case Incomplete => (NoHeader, [])
    case BadLength(headerSize) => (NoHeader, s[headerSize..])
    case Parsed(length, mask, headerSize) =>
      ReadPayload(s[headerSize..], length, mask, capacity, size)
  }

  /** What follows the header: the payload is taken into the buffer, unmasked, and copied out. */
  function ReadPayload(body: seq<Byte>, length: nat, mask: Option<Mask>, capacity: nat, size: nat)
    : (Outcome, seq<Byte>)
  {
    if length > capacity then (LargerThanBuffer, body)
    else if |body| < length then (NoPayload, [])
    else
      var payload := if mask.Some? then Cipher(body[..length], mask.value) else body[..length];
      if length > size then (LargerThanReader, body[length..]) else (Payload(payload), body[length..])
  }

  lemma PowersCoverForms(n: nat)
    requires n < MAX_LENGTH
    ensures var k := Extended(LengthForm(n)); k > 0 ==> n < Power256(k)
  {
    assert Power256(2) == 0x1_0000;
    assert Power256(4) == Power256(2) * 0x1_0000;
    assert Power256(8) == Power256(4) * 0x1_0000_0000;
  }

  lemma LengthFits(n: nat)
    requires n < MAX_LENGTH
    ensures var k := Extended(LengthForm(n));
            |BigEndian(n, k)| == k && (k > 0 ==> FromBigEndian(BigEndian(n, k)) == n)
  {
    PowersCoverForms(n);
    var k := Extended(LengthForm(n));
    if k > 0 {
      BigEndianRoundTrip(n, k);
    }
  }

  // --- the wire format of sections 5.2 and 5.3 of RFC 6455, spelled out ---

  /** A payload on the wire: as it is, or each byte under the key byte of its turn. */
  ghost predicate IsMasked(wire: seq<Byte>, plain: seq<Byte>, key: Option<Mask>) {
    && |wire| == |plain|
    && forall i | 0 <= i < |plain| :: wire[i] == if key.Some? then plain[i] ^ key.value[i % 4] else plain[i]
  }

  /** The second byte and the extended length, in one of the three forms. */
  ghost predicate IsLength(s: seq<Byte>, n: nat, masked: bool, form: nat) {
    && |s| == 1 + (if form == 126 then 2 else if form == 127 then 8 else 0)
    && FromByte(s[0]) == form + (if masked then 128 else 0)
    && if form < 126 then n == form
       else if form == 126 then n == 0x100 * FromByte(s[1]) + FromByte(s[2])
       else
         && form == 127 && n < MAX_LENGTH
         && n == 0x100_0000_0000_0000 * FromByte(s[1]) + 0x1_0000_0000_0000 * FromByte(s[2])
                 + 0x100_0000_0000 * FromByte(s[3]) + 0x1_0000_0000 * FromByte(s[4])
                 + 0x100_0000 * FromByte(s[5]) + 0x1_0000 * FromByte(s[6])
                 + 0x100 * FromByte(s[7]) + FromByte(s[8])
  }

  /** The parts of a frame: its first byte, its length, its key if it is masked, and its payload. */
  ghost predicate IsFrame(s: seq<Byte>, first: Byte, plain: seq<Byte>, key: Option<Mask>, form: nat) {
    exists length, wire :: HasParts(s, first, length, wire, plain, key, form)
  }

  ghost predicate HasParts(s: seq<Byte>, first: Byte, length: seq<Byte>, wire: seq<Byte>, plain: seq<Byte>,
                           key: Option<Mask>, form: nat) {
    && s == [first] + length + KeyBytes(key) + wire
    && IsLength(length, |plain|, key.Some?, form)
    && IsMasked(wire, plain, key)
  }

  /** The shortest form that holds a length. */
  function Shortest(n: nat): nat {
    if n <= 125 then n else if n <= 65535 then 126 else 127
  }

  lemma TwoBytes(s: seq<Byte>)
    requires |s| == 2
    ensures FromBigEndian(s) == 0x100 * FromByte(s[0]) + FromByte(s[1])
  {
    assert s[..1] == [s[0]];
    assert FromBigEndian(s[..1]) == FromByte(s[0]) by {
      assert s[..1][..0] == [];
    }
  }

  lemma {:induction false} Horner(s: seq<Byte>, a: seq<Byte>, b: seq<Byte>)
    requires s == a + b && |b| == 2
    ensures FromBigEndian(s) == 0x1_0000 * FromBigEndian(a) + 0x100 * FromByte(b[0]) + FromByte(b[1])
  {
    assert s[..|s| - 1] == a + [b[0]];
    assert s == (a + [b[0]]) + [b[1]];
  }

  lemma EightBytes(s: seq<Byte>)
    requires |s| == 8
    ensures FromBigEndian(s)
            == 0x100_0000_0000_0000 * FromByte(s[0]) + 0x1_0000_0000_0000 * FromByte(s[1])
               + 0x100_0000_0000 * FromByte(s[2]) + 0x1_0000_0000 * FromByte(s[3])
               + 0x100_0000 * FromByte(s[4]) + 0x1_0000 * FromByte(s[5])
               + 0x100 * FromByte(s[6]) + FromByte(s[7])
  {
    TwoBytes(s[..2]);
    Horner(s[..4], s[..2], s[2..4]);
    Horner(s[..6], s[..4], s[4..6]);
    Horner(s, s[..6], s[6..8]);
  }

  lemma SecondByte(b: Byte, form: nat, masked: bool)
    requires form < 128 && FromByte(b) == form + if masked then 128 else 0
    ensures FromByte(b) % 128 == form && (FromByte(b) >= 128 <==> masked)
  {
  }

  /** What a header's length bytes are read as. */
  lemma LengthIs(s: seq<Byte>, n: nat, masked: bool, form: nat)
    requires IsLength(s, n, masked, form)
    ensures form <= 127 && |s| == 1 + Extended(form)
    ensures FromByte(s[0]) % 128 == form && (FromByte(s[0]) >= 128 <==> masked)
    ensures if form < 126 then n == form else n == FromBigEndian(s[1..])
    ensures form == 127 ==> FromByte(s[1]) < 128
  {
    SecondByte(s[0], form, masked);
    if form == 126 {
      TwoBytes(s[1..]);
    } else if form == 127 {
      EightBytes(s[1..]);
    }
  }

  lemma Slices(s: seq<Byte>, first: Byte, length: seq<Byte>, key: seq<Byte>, rest: seq<Byte>)
    requires s == [first] + length + key + rest && length != []
    ensures |s| == 1 + |length| + |key| + |rest| && s[1] == length[0] && s[2..1 + |length|] == length[1..]
    ensures s[1 + |length|..1 + |length| + |key|] == key && s[1 + |length| + |key|..] == rest
  {
  }

  lemma ParsesLength(s: seq<Byte>, first: Byte, length: seq<Byte>, n: nat, key: Option<Mask>, form: nat,
                     rest: seq<Byte>)
    requires IsLength(length, n, key.Some?, form)
    requires s == [first] + length + KeyBytes(key) + rest
    ensures var size := 1 + |length| + (if key.Some? then 4 else 0);
            size <= |s| && ParseHeader(s) == Parsed(n, key, size) && s[size..] == rest
  {
    LengthIs(length, n, key.Some?, form);
    Slices(s, first, length, KeyBytes(key), rest);
    if form == 127 {
      assert s[2] == s[2..1 + |length|][0];
    }
  }

  lemma Unmasks(wire: seq<Byte>, plain: seq<Byte>, key: Option<Mask>)
    requires IsMasked(wire, plain, key)
    ensures (if key.Some? then Cipher(wire, key.value) else wire) == plain
  {
    if key.Some? {
    } else {
      assert wire == plain;
    }
  }

  lemma Regroup(first: Byte, length: seq<Byte>, key: seq<Byte>, wire: seq<Byte>, rest: seq<Byte>)
    ensures ([first] + length + key + wire) + rest == [first] + length + key + (wire + rest)
    ensures |[first] + length + key + wire| == 1 + |length| + |key| + |wire|
  {
  }

  lemma ReadsPayload(wire: seq<Byte>, plain: seq<Byte>, key: Option<Mask>, rest: seq<Byte>, capacity: nat, size: nat)
    requires IsMasked(wire, plain, key)
    ensures ReadPayload(wire + rest, |plain|, key, capacity, size)
            == if |plain| > capacity then (LargerThanBuffer, wire + rest)
               else if |plain| > size then (LargerThanReader, rest)
               else (Payload(plain), rest)
  {
    var body := wire + rest;
    assert body[..|plain|] == wire && body[|plain|..] == rest;
    Unmasks(wire, plain, key);
  }

  /** Reading: any frame of the standard, whatever its first byte, in any form of its length, masked with
      any key or none, is delivered as its plain payload if it fits, and what follows it is left alone;
      otherwise it is refused, before or after its payload is taken. */
  lemma ReadsStandardFrame(s: seq<Byte>, first: Byte, plain: seq<Byte>, key: Option<Mask>, form: nat, rest: seq<Byte>,
                           capacity: nat, size: nat)
    requires IsFrame(s, first, plain, key, form)
    ensures |plain| <= |s|
    ensures ReadFrame(s + rest, capacity, size)
            == if |plain| > capacity then (LargerThanBuffer, (s + rest)[|s| - |plain|..])
               else if |plain| > size then (LargerThanReader, rest)
               else (Payload(plain), rest)
  {
    var length, wire :| HasParts(s, first, length, wire, plain, key, form);
    Regroup(first, length, KeyBytes(key), wire, rest);
    ParsesLength(s + rest, first, length, |plain|, key, form, wire + rest);
    ReadsPayload(wire, plain, key, rest, capacity, size);
  }

  lemma HeaderLength(n: nat, masked: bool)
    requires n < MAX_LENGTH
    ensures IsLength(LengthBytes(n, masked), n, masked, Shortest(n))
  {
    var form := LengthForm(n);
    LengthFits(n);
    var bytes := BigEndian(n, Extended(form));
    assert LengthBytes(n, masked)[1..] == bytes;
    if form == 126 {
      TwoBytes(bytes);
    } else if form == 127 {
      EightBytes(bytes);
    }
  }

  /** Writing: what a write sends is a final binary frame of the standard with its length in the shortest
      form, masked with the key if there is one. */
  lemma WritesStandardFrame(plain: seq<Byte>, key: Option<Mask>)
    requires |plain| < MAX_LENGTH
    ensures IsFrame(Frame(plain, key), 0x82, plain, key, Shortest(|plain|))
  {
    HeaderLength(|plain|, key.Some?);
    assert HasParts(Frame(plain, key), 0x82, LengthBytes(|plain|, key.Some?), Coded(plain, key), plain, key,
                    Shortest(|plain|));
  }

  /** A stream that ends inside a header, or inside a payload that fits the buffer, is an error. */
  lemma CutFrameFails(s: seq<Byte>, first: Byte, plain: seq<Byte>, key: Option<Mask>, form: nat, n: nat,
                      capacity: nat, size: nat)
    requires IsFrame(s, first, plain, key, form) && n < |s| && |plain| <= capacity
    ensures ReadFrame(s[..n], capacity, size) == (if n < |s| - |plain| then NoHeader else NoPayload, [])
  {
    var length, wire :| HasParts(s, first, length, wire, plain, key, form);
    LengthIs(length, |plain|, key.Some?, form);
    var header := [first] + length + KeyBytes(key);
    if n < |header| {
      CutHeader(s[..n], first, length, key, form, header);
    } else {
      var body := wire[..n - |header|];
      assert s[..n] == header + body;
      ParsesLength(s[..n], first, length, |plain|, key, form, body);
    }
  }

  /** A 64-bit length with its top bit set is an error, and only the header is taken. */
  lemma HugeLengthFails(s: seq<Byte>, capacity: nat, size: nat)
    requires |s| >= 2 && (FromByte(s[1]) == 127 || FromByte(s[1]) == 255)
    requires |s| >= (if FromByte(s[1]) == 255 then 14 else 10) && FromByte(s[2]) >= 128
    ensures ReadFrame(s, capacity, size) == (NoHeader, s[if FromByte(s[1]) == 255 then 14 else 10..])
  {
  }

  lemma CutHeader(s: seq<Byte>, first: Byte, length: seq<Byte>, key: Option<Mask>, form: nat, header: seq<Byte>)
    requires header == [first] + length + KeyBytes(key)
    requires length != [] && FromByte(length[0]) % 128 == form && (FromByte(length[0]) >= 128 <==> key.Some?)
    requires |length| == 1 + Extended(form) && |s| < |header| && s == header[..|s|]
    ensures ParseHeader(s) == Incomplete
  {
    if |s| >= 2 {
      assert s[1] == length[0];
    }
  }

  // --- round trips ---

  lemma HeaderRoundTrip(n: nat, mask: Option<Mask>, rest: seq<Byte>)
    requires n < MAX_LENGTH
    ensures ParseHeader(Header(n, mask) + rest) == Parsed(n, mask, |Header(n, mask)|)
  {
    HeaderLength(n, mask.Some?);
    ParsesLength(Header(n, mask) + rest, 0x82, LengthBytes(n, mask.Some?), n, mask, Shortest(n), rest);
  }

  /** A frame is read back, and nothing after it touched, exactly when its payload fits both the
      connection's buffer and the reader. */
  lemma FrameRoundTrip(payload: seq<Byte>, mask: Option<Mask>, rest: seq<Byte>, capacity: nat, size: nat)
    requires |payload| < MAX_LENGTH
    ensures ReadFrame(Frame(payload, mask) + rest, capacity, size) == (Payload(payload), rest)
            <==> |payload| <= capacity && |payload| <= size
  {
    WritesStandardFrame(payload, mask);
    ReadsStandardFrame(Frame(payload, mask), 0x82, payload, mask, Shortest(|payload|), rest, capacity, size);
  }

  // --- runs of writes and reads ---

  /** The bytes that a list of writes leaves on the stream; chunk i is masked with masks[i]. */
  function Frames(chunks: seq<seq<Byte>>, masks: seq<Option<Mask>>): seq<Byte>
    requires |masks| == |chunks|
  {
    if chunks == [] then [] else Frame(chunks[0], masks[0]) + Frames(chunks[1..], masks[1..])
  }

  /** The outcomes of one read per entry of sizes, and what they leave on the stream. */
  function ReadAll(s: seq<Byte>, capacity: nat, sizes: seq<nat>): (seq<Outcome>, seq<Byte>)
    decreases |sizes|
  {
    if sizes == [] then ([], s)
    else
      var (outcome, rest) := ReadFrame(s, capacity, sizes[0]);
      var (outcomes, left) := ReadAll(rest, capacity, sizes[1..]);
      ([outcome] + outcomes, left)
  }

  function Delivered(chunks: seq<seq<Byte>>): seq<Outcome> {
    if chunks == [] then [] else [Payload(chunks[0])] + Delivered(chunks[1..])
  }

  /** The tunnel round trip: writes that fit the buffer at the other end come out as the same
      chunks in the same order, whatever the masks, and what follows them is left alone. */
  lemma {:induction false} TunnelRoundTrip(chunks: seq<seq<Byte>>, masks: seq<Option<Mask>>, sizes: seq<nat>,
                                           capacity: nat, rest: seq<Byte>)
    requires |masks| == |sizes| == |chunks| && capacity < MAX_LENGTH
    requires forall i | 0 <= i < |chunks| :: |chunks[i]| <= capacity && |chunks[i]| <= sizes[i]
    ensures ReadAll(Frames(chunks, masks) + rest, capacity, sizes)
            == (Delivered(chunks), rest)
    decreases |chunks|
  {
    if chunks == [] {
      assert Frames(chunks, masks) + rest == rest;
    } else {
      var more := Frames(chunks[1..], masks[1..]) + rest;
      assert Frames(chunks, masks) + rest == Frame(chunks[0], masks[0]) + more;
      FrameRoundTrip(chunks[0], masks[0], more, capacity, sizes[0]);
      TunnelRoundTrip(chunks[1..], masks[1..], sizes[1..], capacity, rest);
    }
  }

  // --- the connection object ---

  class WsConn {
    const isServer: bool
    const buf: array<Byte>
    var incoming: seq<Byte>   // sent by the peer, not yet read from the socket
    var outgoing: seq<Byte>   // written to the socket

    constructor (isServer: bool, buf: array<Byte>, incoming: seq<Byte>)
      ensures this.isServer == isServer && this.buf == buf && this.incoming == incoming && outgoing == []
    {
      this.isServer, this.buf, this.incoming, this.outgoing := isServer, buf, incoming, [];
    }

    /** Unmasks the first n bytes of the buffer in place. */
    method Unmask(n: nat, mask: Mask)
      requires n <= buf.Length
      modifies buf
      ensures buf[..n] == Cipher(old(buf[..n]), mask)
    {
      for i := 0 to n
        invariant forall k | 0 <= k < i :: buf[k] == old(buf[k]) ^ mask[k % 4]
        invariant forall k | i <= k < buf.Length :: buf[k] == old(buf[k])
      {
        buf[i] := buf[i] ^ mask[i % 4];
      }
    }

    method Read(b: array<Byte>) returns (n: nat, outcome: Outcome)
      requires b != buf
      modifies this`incoming, buf, b
      ensures (outcome, incoming) == ReadFrame(old(incoming), buf.Length, b.Length)
      ensures if outcome.Payload? then
                n == |outcome.bytes| <= b.Length && b[..n] == outcome.bytes && b[n..] == old(b[n..])
              else n == 0 && b[..] == old(b[..])
    {
      n := 0;
      var header := ParseHeader(incoming);
      if header.Incomplete? {
        incoming := [];
        return n, NoHeader;
      }
      var body := incoming[header.size..];
      if header.BadLength? {
        incoming := body;
        return n, NoHeader;
      }
      if header.length > buf.Length {
        incoming := body;
        return n, LargerThanBuffer;
      }
      if |body| < header.length {
        incoming := [];
        return n, NoPayload;
      }
      forall i | 0 <= i < header.length {
        buf[i] := body[i];
      }
      assert buf[..header.length] == body[..header.length];
      incoming := body[header.length..];
      if header.mask.Some? {
        Unmask(header.length, header.mask.value);
      }
      ghost var payload := buf[..header.length];
      assert payload == if header.mask.Some? then Cipher(body[..header.length], header.mask.value)
                        else body[..header.length];
      if header.length > b.Length {
        return n, LargerThanReader;
      }
      forall i | 0 <= i < header.length {
        b[i] := buf[i];
      }
      n := header.length;
      assert b[..n] == buf[..n] == payload;
      return n, Payload(b[..n]);
    }

    /** A server sends its frames unmasked, a client masks them with a key of its choice. A write that
        fails may have sent the beginning of the frame, and reports no byte written. */
    method Write(b: seq<Byte>, key: Mask, failed: bool, sent: nat) returns (n: nat, ok: bool)
      modifies this`outgoing
      ensures ok == !failed && n == if ok then |b| else 0
      ensures ok && |b| < MAX_LENGTH ==>
                && old(outgoing) <= outgoing
                && IsFrame(outgoing[|old(outgoing)|..], 0x82, b, if isServer then None else Some(key), Shortest(|b|))
      ensures var frame := Frame(b, if isServer then None else Some(key));
              outgoing == old(outgoing) + if ok then frame else frame[..Min(sent, |frame|)]
    {
      var frame := Frame(b, if isServer then None else Some(key));
      if failed {
        outgoing := outgoing + frame[..Min(sent, |frame|)];
        return 0, false;
      }
      if |b| < MAX_LENGTH {
        WritesStandardFrame(b, if isServer then None else Some(key));
      }
      outgoing := outgoing + frame;
      assert outgoing[|old(outgoing)|..] == frame;
      return |b|, true;
    }
  }
}
