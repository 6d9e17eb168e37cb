/**
 Protocol sniffing: the classifier of internal/transporter/sniff.go, and the wrapper of
 internal/transporter/base.go that reads the first bytes of a client connection and gives them
 back. Assumed of the connection: it is a byte stream, and a read takes some prefix of it.
 */
module Sniff {
  import opened Base

  const PEEK_SIZE: nat := 4096
  const TLS := "tls"
  const HTTP := "http"

  /** Whether data begins with a text, byte by byte. */
  predicate Says(data: seq<Byte>, text: string) {
    |text| <= |data| && forall i | 0 <= i < |text| :: data[i] as int == text[i] as int
  }

  const HTTP_METHODS: seq<string> :=
    ["GET ", "POST ", "HEAD ", "PUT ", "DELETE ", "OPTIONS ", "PATCH ", "CONNECT ", "TRACE "]

  predicate IsTLSClientHello(data: seq<Byte>) {
    |data| >= 6 && data[0] == 0x16 && data[1] == 0x03 && data[2] <= 0x03 && data[5] == 0x01
  }

  predicate IsHTTPRequest(data: seq<Byte>) {
    exists i | 0 <= i < |HTTP_METHODS| :: Says(data, HTTP_METHODS[i])
  }

  function SniffProtocol(data: seq<Byte>): string {
    if IsTLSClientHello(data) then TLS else if IsHTTPRequest(data) then HTTP else ""
  }

  lemma MethodTexts()
    ensures forall i | 0 <= i < |HTTP_METHODS| :: 4 <= |HTTP_METHODS[i]| <= 8 && 'A' <= HTTP_METHODS[i][0] <= 'Z'
    ensures forall i | 0 <= i < |HTTP_METHODS| :: HTTP_METHODS[i][|HTTP_METHODS[i]| - 1] == ' '
  {
  }

  lemma TlsIsNotHttp(data: seq<Byte>)
    ensures !(IsTLSClientHello(data) && IsHTTPRequest(data))
  {
    MethodTexts();
    if IsHTTPRequest(data) {
      var i :| 0 <= i < |HTTP_METHODS| && Says(data, HTTP_METHODS[i]);
      assert data[0] as int == HTTP_METHODS[i][0] as int;
    }
  }

  /** Once a prefix is classified, more bytes never change the verdict. */
  lemma ClassificationStable(data: seq<Byte>, more: seq<Byte>)
    requires SniffProtocol(data) != ""
    ensures SniffProtocol(data + more) == SniffProtocol(data)
  {
    TlsIsNotHttp(data + more);
    if IsHTTPRequest(data) {
      var i :| 0 <= i < |HTTP_METHODS| && Says(data, HTTP_METHODS[i]);
      assert Says(data + more, HTTP_METHODS[i]);
    }
  }

  lemma FinalFromEight(data: seq<Byte>, more: seq<Byte>)
    requires |data| >= 8
    ensures SniffProtocol(data + more) == SniffProtocol(data)
  {
    MethodTexts();
    TlsIsNotHttp(data);
    if IsHTTPRequest(data + more) {
      var i :| 0 <= i < |HTTP_METHODS| && Says(data + more, HTTP_METHODS[i]);
      forall k | 0 <= k < |HTTP_METHODS[i]| ensures data[k] as int == HTTP_METHODS[i][k] as int {
        assert (data + more)[k] == data[k];
      }
      assert Says(data, HTTP_METHODS[i]);
    }
    if SniffProtocol(data) != "" {
      ClassificationStable(data, more);
    }
  }

  /** Any verdict on n bytes or more is final exactly when n is at least 8. */
  lemma FinalExactlyFromEight(n: nat)
    ensures (forall data: seq<Byte>, more: seq<Byte> | |data| >= n :: SniffProtocol(data + more) == SniffProtocol(data))
            <==> n >= 8
  {
    if n >= 8 {
      forall data: seq<Byte>, more: seq<Byte> | |data| >= n ensures SniffProtocol(data + more) == SniffProtocol(data) {
        FinalFromEight(data, more);
      }
    } else {
      var options: seq<Byte> := [0x4F, 0x50, 0x54, 0x49, 0x4F, 0x4E, 0x53];
      var space: seq<Byte> := [0x20];
      assert Says(options + space, HTTP_METHODS[5]);
      MethodTexts();
      forall i | 0 <= i < |HTTP_METHODS| ensures !Says(options, HTTP_METHODS[i]) {
        var k := |HTTP_METHODS[i]| - 1;
        assert k < |options| ==> options[k] as int != HTTP_METHODS[i][k] as int;
      }
      assert SniffProtocol(options + space) != SniffProtocol(options);
    }
  }

  // --- what is recognised ---

  predicate SaysMethod(data: seq<Byte>) {
    || Says(data, "GET ") || Says(data, "POST ") || Says(data, "HEAD ") || Says(data, "PUT ")
    || Says(data, "DELETE ") || Says(data, "OPTIONS ") || Says(data, "PATCH ") || Says(data, "CONNECT ")
    || Says(data, "TRACE ")
  }

  /** The verdict by the bytes: "http" for one of nine methods and a blank, "tls" for a handshake record of
      a version up to 3.3 that begins with a ClientHello, nothing for anything else. */
  lemma VerdictExactly(data: seq<Byte>)
    ensures SniffProtocol(data) == "http" <==> SaysMethod(data)
    ensures SniffProtocol(data) == "tls" <==>
              |data| >= 6 && data[0] == 0x16 && data[1] == 0x03 && data[2] <= 0x03 && data[5] == 0x01
    ensures SniffProtocol(data) in ["", "http", "tls"]
  {
    assert IsHTTPRequest(data) <==> SaysMethod(data) by {
      if i :| 0 <= i < |HTTP_METHODS| && Says(data, HTTP_METHODS[i]) {
        assert i == 0 || i == 1 || i == 2 || i == 3 || i == 4 || i == 5 || i == 6 || i == 7 || i == 8;
      }
      assert HTTP_METHODS[0] == "GET " && HTTP_METHODS[1] == "POST " && HTTP_METHODS[2] == "HEAD ";
      assert HTTP_METHODS[3] == "PUT " && HTTP_METHODS[4] == "DELETE " && HTTP_METHODS[5] == "OPTIONS ";
      assert HTTP_METHODS[6] == "PATCH " && HTTP_METHODS[7] == "CONNECT " && HTTP_METHODS[8] == "TRACE ";
    }
    TlsIsNotHttp(data);
  }

  // --- the wrapped connection ---

  /** sniffAndBlockProtocol either refuses the connection or passes it on, with the bytes it
      read put in front of those still on the stream. */
  datatype Verdict = Blocked(protocol: string) | Pass(peeked: seq<Byte>, stream: seq<Byte>)

  /** n bytes are what the first read returned, with or without an error. */
  function Inspect(blocked: seq<string>, stream: seq<Byte>, deadlineSet: bool, n: nat): Verdict
    requires n <= |stream|
  {
    if blocked == [] || !deadlineSet then Pass([], stream)
    else
      var protocol := SniffProtocol(stream[..n]);
      if protocol != "" && protocol in blocked then Blocked(protocol)
      else Pass(stream[..n], stream[n..])
  }

  /** A connection is refused exactly when sniffing was on and some entry of the list is the verdict on the
      bytes read. */
  lemma BlockedExactly(blocked: seq<string>, stream: seq<Byte>, deadlineSet: bool, n: nat)
    requires n <= |stream|
    ensures Inspect(blocked, stream, deadlineSet, n).Blocked?
            <==> deadlineSet && exists i :: 0 <= i < |blocked| && blocked[i] != ""
                                             && blocked[i] == SniffProtocol(stream[..n])
    ensures Inspect(blocked, stream, deadlineSet, n).Blocked? ==>
              Inspect(blocked, stream, deadlineSet, n).protocol == SniffProtocol(stream[..n])
  {
  }

  /** One read of the passed connection: first the peeked bytes, then n bytes of the stream. */
  function ReadOnce(v: Verdict, size: nat, n: nat): (seq<Byte>, Verdict)
    requires v.Pass?
    ensures ReadOnce(v, size, n).1.Pass?
  {
    if v.peeked != [] then
      var k := Min(size, |v.peeked|);
      (v.peeked[..k], Pass(v.peeked[k..], v.stream))
    else
      var k := Min(n, Min(size, |v.stream|));
      (v.stream[..k], Pass([], v.stream[k..]))
  }

  function ReadMany(v: Verdict, cuts: seq<(nat, nat)>): (seq<Byte>, Verdict)
    requires v.Pass?
    ensures ReadMany(v, cuts).1.Pass?
    decreases |cuts|
  {
    if cuts == [] then ([], v)
    else
      var (first, v1) := ReadOnce(v, cuts[0].0, cuts[0].1);
      var (more, v2) := ReadMany(v1, cuts[1..]);
      (first + more, v2)
  }

  lemma {:induction false} ReadsPreserve(v: Verdict, cuts: seq<(nat, nat)>)
    requires v.Pass?
    ensures var (got, left) := ReadMany(v, cuts); got + (left.peeked + left.stream) == v.peeked + v.stream
    decreases |cuts|
  {
    if cuts != [] {
      var (first, v1) := ReadOnce(v, cuts[0].0, cuts[0].1);
      assert first + (v1.peeked + v1.stream) == v.peeked + v.stream;
      ReadsPreserve(v1, cuts[1..]);
      var (more, v2) := ReadMany(v1, cuts[1..]);
      assert first + (more + (v2.peeked + v2.stream)) == first + more + (v2.peeked + v2.stream);
    }
  }

  /** A read with room returns peeked bytes while there are any, and otherwise as much of the stream as has
      arrived and fits. */
  lemma ReadsProgress(v: Verdict, size: nat, n: nat)
    requires v.Pass?
    ensures var (got, left) := ReadOnce(v, size, n);
      && |got| == (if v.peeked != [] then Min(size, |v.peeked|) else Min(n, Min(size, |v.stream|)))
      && got <= v.peeked + v.stream
      && (size > 0 && v.peeked != [] ==> got != [])
  {
  }

  /** Sniffing is transparent: a connection that is not blocked is read from its first byte on,
      whatever the first read returned and however the later reads are cut. */
  lemma SniffingTransparent(blocked: seq<string>, stream: seq<Byte>, deadlineSet: bool, n: nat, cuts: seq<(nat, nat)>)
    requires n <= |stream|
    ensures var v := Inspect(blocked, stream, deadlineSet, n);
            if v.Blocked? then v.protocol in blocked && v.protocol == SniffProtocol(stream[..n]) != ""
            else var (got, left) := ReadMany(v, cuts);
              got <= stream && stream[|got|..] == left.peeked + left.stream
  {
    var v := Inspect(blocked, stream, deadlineSet, n);
    if v.Pass? {
      ReadsPreserve(v, cuts);
      assert v.peeked + v.stream == stream;
    }
  }

  /** A client connection seen as a byte stream, and whether a read deadline is pending on it. */
  class StreamConn {
    var stream: seq<Byte>
    var hasDeadline: bool

    constructor (stream: seq<Byte>)
      ensures this.stream == stream && !hasDeadline
    {
      this.stream, this.hasDeadline := stream, false;
    }

    method SetReadDeadline(works: bool) returns (ok: bool)
      modifies this`hasDeadline
      ensures ok == works && hasDeadline == (works || old(hasDeadline))
    {
      ok := works;
      hasDeadline := works || hasDeadline;
    }

    method ClearReadDeadline()
      modifies this`hasDeadline
      ensures !hasDeadline
    {
      hasDeadline := false;
    }

    /** The peer and the network decide how much of the stream is there: at most n bytes. */
    method Read(size: nat, n: nat) returns (bytes: seq<Byte>)
      modifies this`stream
      ensures var k := Min(n, Min(size, |old(stream)|)); bytes == old(stream)[..k] && stream == old(stream)[k..]
    {
      var k := Min(n, Min(size, |stream|));
      bytes := stream[..k];
      stream := stream[k..];
    }
  }

  class PeekedConn {
    const conn: StreamConn
    var peeked: seq<Byte>

    constructor (conn: StreamConn, peeked: seq<Byte>)
      ensures this.conn == conn && this.peeked == peeked
    {
      this.conn, this.peeked := conn, peeked;
    }

    method Read(size: nat, n: nat) returns (bytes: seq<Byte>)
      modifies this, conn`stream
      ensures (bytes, Pass(peeked, conn.stream)) == ReadOnce(Pass(old(peeked), old(conn.stream)), size, n)
    {
      if peeked != [] {
        var k := Min(size, |peeked|);
        bytes := peeked[..k];
        peeked := peeked[k..];
      } else {
        bytes := conn.Read(size, n);
      }
    }
  }

  /** The client connection comes back as itself or wrapped, with no sniffing deadline left on it. */
  method SniffAndBlockProtocol(c: StreamConn, blocked: seq<string>, deadlineWorks: bool, n: nat)
    returns (result: Option<PeekedConn>, protocol: string)
    requires n <= |c.stream| && n <= 4096 && !c.hasDeadline
    modifies c
    ensures !c.hasDeadline
    ensures protocol != "" <==>
              deadlineWorks && exists i :: 0 <= i < |blocked| && blocked[i] != ""
                                           && blocked[i] == SniffProtocol(old(c.stream)[..n])
    ensures protocol != "" ==> result.None? && protocol == SniffProtocol(old(c.stream)[..n])
    ensures var v := Inspect(blocked, old(c.stream), deadlineWorks, n);
            if v.Blocked? then result.None? && protocol == v.protocol
            else
              && protocol == ""
              && c.stream == v.stream
              && (result.Some? <==> v.peeked != [])
              && (result.Some? ==> fresh(result.value) && result.value.conn == c && result.value.peeked == v.peeked)
  {
    BlockedExactly(blocked, c.stream, deadlineWorks, n);
    protocol := "";
    if |blocked| == 0 {
      return None, protocol;
    }
    var ok := c.SetReadDeadline(deadlineWorks);
    if !ok {
      return None, protocol;
    }
    var peek := c.Read(PEEK_SIZE, n);
    c.ClearReadDeadline();
    if |peek| == 0 {
      return None, protocol;
    }
    var sniffed := SniffProtocol(peek);
    if sniffed != "" {
      for i := 0 to |blocked|
        invariant sniffed !in blocked[..i]
      {
        if sniffed == blocked[i] {
          return None, sniffed;
        }
      }
    }
    var wrapped := new PeekedConn(c, peek);
    return Some(wrapped), protocol;
  }
}
