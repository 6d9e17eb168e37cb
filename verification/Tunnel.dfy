/**
 The copy loop of CopyConn feeding a WebSocket connection whose other end uses the same buffer
 width: what leaves one relay arrives at the next.
 */
module Tunnel {
  import opened Base
  import opened CopyConn
  import WsConn

  /** The chunks of the successful writes to a side, each of which becomes one frame. */
  function Chunks(log: seq<Event>, side: Side): seq<seq<Byte>> {
    if log == [] then []
    else
      var e := log[|log| - 1];
      var before := Chunks(log[..|log| - 1], side);
      if e.DidWrite? && e.side == side && e.ok then before + [e.bytes] else before
  }

  function Flatten(chunks: seq<seq<Byte>>): seq<Byte> {
    if chunks == [] then [] else Flatten(chunks[..|chunks| - 1]) + chunks[|chunks| - 1]
  }

  lemma {:induction false} ChunksFit(log: seq<Event>, side: Side, width: nat)
    requires forall i | 0 <= i < |log| && log[i].DidWrite? :: |log[i].bytes| <= width
    ensures forall i | 0 <= i < |Chunks(log, side)| :: |Chunks(log, side)[i]| <= width
  {
    if log != [] {
      ChunksFit(log[..|log| - 1], side, width);
    }
  }

  lemma {:induction false} ChunksAreTheBytes(log: seq<Event>, side: Side)
    requires WritesSucceed(log, side)
    ensures Flatten(Chunks(log, side)) == BytesWritten(log, side)
  {
    if log != [] {
      var before := log[..|log| - 1];
      ChunksAreTheBytes(before, side);
      var chunks := Chunks(before, side);
      var e := log[|log| - 1];
      if e.DidWrite? && e.side == side {
        assert e.ok && (chunks + [e.bytes])[..|chunks|] == chunks;
      }
    }
  }

  ghost predicate WritesSucceed(log: seq<Event>, side: Side) {
    forall i | 0 <= i < |log| && log[i].DidWrite? && log[i].side == side :: log[i].ok
  }

  lemma ReachableChunksFit(cfg: Config, s: State, side: Side)
    requires Sane(cfg) && Reachable(cfg, s)
    ensures forall i | 0 <= i < |Chunks(s.log, side)| :: |Chunks(s.log, side)[i]| <= cfg.width
  {
    forall i | 0 <= i < |s.log| && s.log[i].DidWrite? ensures |s.log[i].bytes| <= cfg.width {
      WritesFitBuffer(cfg, s, i);
    }
    ChunksFit(s.log, side, cfg.width);
  }

  /** In every reachable state of the relay, the far end of the tunnel reads exactly the chunks
      written to its side, and what follows them is left alone. */
  lemma FarEndReads(cfg: Config, s: State, side: Side, masks: seq<Option<WsConn.Mask>>,
                    sizes: seq<nat>, rest: seq<Byte>)
    requires Sane(cfg) && Reachable(cfg, s) && cfg.width < WsConn.MAX_LENGTH
    requires |masks| == |sizes| == |Chunks(s.log, side)|
    requires forall i | 0 <= i < |sizes| :: sizes[i] == cfg.width
    ensures WsConn.ReadAll(WsConn.Frames(Chunks(s.log, side), masks) + rest, cfg.width, sizes)
            == (WsConn.Delivered(Chunks(s.log, side)), rest)
  {
    ReachableChunksFit(cfg, s, side);
    WsConn.TunnelRoundTrip(Chunks(s.log, side), masks, sizes, cfg.width, rest);
  }

  /** As long as no write failed, the chunks together are a prefix of what the peer on the other
      side sent; and all of it once the direction ended in EOF. */
  lemma FarEndGetsTheStream(cfg: Config, s: State, d: Side)
    requires Sane(cfg) && Reachable(cfg, s) && WritesSucceed(s.log, Other(d))
    ensures Flatten(Chunks(s.log, Other(d))) <= cfg.streams.At(d)
    ensures Over(s.flow.At(d).phase) && s.flow.At(d).phase.err.None? ==>
              Flatten(Chunks(s.log, Other(d))) == cfg.streams.At(d)
  {
    ChunksAreTheBytes(s.log, Other(d));
    PrefixSafety(cfg, s, d);
    if Over(s.flow.At(d).phase) {
      EndDelivers(cfg, s, d);
    }
  }
}
