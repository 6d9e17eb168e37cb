/**
 Which sides of a relay a half-close reaches: CloseWrite of internal/conn/relay_conn.go acts on a plain
 TCP connection only, and internal/transporter/base.go and its clients and servers wrap some of them.
 */
module HalfClose {
  import opened Base
  import opened CopyConn
  import Sniff

  /** What a side of the relay is: the connection that was accepted or dialed, and what wraps it. */
  datatype Kind = Tcp | Udp | WebSocket | Peeked(inner: Kind) | Limited(inner: Kind)

  /** What a server accepts, or a client dials, for a relay type. */
  function Endpoint(relayType: string, isTCP: bool): Kind {
    if relayType != "raw" then WebSocket else if isTCP then Tcp else Udp
  }

  /** The client side as it reaches copyConn: wrapped if sniffing took bytes off it, and again if its
      reads are limited. Only TCP relays do either. */
  function ClientSide(listenType: string, isTCP: bool, verdict: Sniff.Verdict, maxReadRateKbps: int): Kind
    requires verdict.Pass?
  {
    var accepted := Endpoint(listenType, isTCP);
    if !isTCP then accepted
    else
      var sniffed := if verdict.peeked != [] then Peeked(accepted) else accepted;
      if maxReadRateKbps > 0 then Limited(sniffed) else sniffed
  }

  /** Whether the peer of a side was told by a half-close that no more bytes come. Until the relay has
      returned and the connection is closed, nothing else tells it. */
  ghost predicate Told(log: seq<Event>, side: Side, kind: Kind) {
    kind.Tcp? && ClosedWrite(side) in log
  }

  /** In every reachable state: exactly the peers on plain TCP sides have been told, once the direction
      towards them was over. */
  lemma ToldExactly(cfg: Config, s: State, d: Side, kind: Kind)
    requires Sane(cfg) && Reachable(cfg, s)
    ensures Told(s.log, Other(d), kind)
            <==> kind.Tcp? && (s.flow.At(d).phase.HalfClosed? || s.flow.At(d).phase.Reported?)
    ensures Told(s.log, Other(d), kind) ==> Over(s.flow.At(d).phase)
  {
    ReachableInv(cfg, s);
    assert SideInv(cfg, s, d);
  }

  /** Once copyConn has returned, the client was told of the remote's end exactly if it came by raw TCP,
      its reads are not limited, and sniffing was off or got nothing from it. */
  lemma ClientToldExactly(cfg: Config, s: State, listenType: string, isTCP: bool, blocked: seq<string>,
                          stream: seq<Byte>, deadlineSet: bool, n: nat, maxReadRateKbps: int)
    requires Sane(cfg) && Reachable(cfg, s) && n <= |stream|
    ensures var verdict := Sniff.Inspect(blocked, stream, deadlineSet, n);
            s.result.Some? && verdict.Pass? ==>
              (Told(s.log, Client, ClientSide(listenType, isTCP, verdict, maxReadRateKbps)) <==>
                && listenType == "raw" && isTCP && maxReadRateKbps <= 0
                && (blocked == [] || !deadlineSet || n == 0))
  {
    ReachableInv(cfg, s);
    var verdict := Sniff.Inspect(blocked, stream, deadlineSet, n);
    if verdict.Pass? {
      ToldExactly(cfg, s, Remote, ClientSide(listenType, isTCP, verdict, maxReadRateKbps));
    }
  }

  /** And the remote was told of the client's end exactly if it was dialed by raw TCP. */
  lemma RemoteToldExactly(cfg: Config, s: State, transportType: string, isTCP: bool)
    requires Sane(cfg) && Reachable(cfg, s) && s.result.Some?
    ensures Told(s.log, Remote, Endpoint(transportType, isTCP)) <==> transportType == "raw" && isTCP
  {
    ReachableInv(cfg, s);
    ToldExactly(cfg, s, Client, Endpoint(transportType, isTCP));
  }
}
