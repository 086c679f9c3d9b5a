/** Packets, and when they end a TCP connection: the flags the program keeps, and the
    same said of the packets. */
module TcpEnd {

  type Key = string

  datatype Packet = Packet(key: Key, time: nat, window: nat, lowToHigh: bool,
                           tcp: bool, fin: bool, ack: bool, rst: bool)

  /** ---- over the packets ---- */

  // Packet i goes in the direction of the first one.
  predicate Forward(ps: seq<Packet>, i: nat)
    requires i < |ps|
  {
    ps[i].lowToHigh == ps[0].lowToHigh
  }

  predicate Fin(ps: seq<Packet>, i: nat, forward: bool)
    requires i < |ps|
  {
    Forward(ps, i) == forward && ps[i].fin
  }

  // An ACK in the direction opposite to this one.
  predicate Answer(ps: seq<Packet>, i: nat, forward: bool)
    requires i < |ps|
  {
    Forward(ps, i) != forward && ps[i].ack
  }

  ghost predicate Reset(ps: seq<Packet>) {
    exists i | 0 <= i < |ps| :: ps[i].rst
  }

  // One direction is closed: a FIN in it, and later an ACK in the other.
  ghost predicate Closed(ps: seq<Packet>, forward: bool) {
    exists i, j | 0 <= i < j < |ps| :: Fin(ps, i, forward) && Answer(ps, j, forward)
  }

  /** The connection is over: it was reset, or both directions are closed. */
  ghost predicate ConnectionOver(ps: seq<Packet>) {
    Reset(ps) || (Closed(ps, true) && Closed(ps, false))
  }

  /** ---- over the flags ---- */

  datatype TcpState = TcpState(srcFIN: bool, dstFIN: bool, srcACK: bool, dstACK: bool, reset: bool)

  const TCP_OPEN := TcpState(false, false, false, false, false)

  // tcpFlow.Event, after the packet was added.
  function TcpStep(s: TcpState, p: Packet, forward: bool): TcpState {
    if p.rst then s.(reset := true)
    else if forward then
      var s1 := if p.fin then s.(srcFIN := true) else s;
      if s1.dstFIN && p.ack then s1.(dstACK := true) else s1
    else
      var s1 := if p.fin then s.(dstFIN := true) else s;
      if s1.srcFIN && p.ack then s1.(srcACK := true) else s1
  }

  function Tcp(ps: seq<Packet>): TcpState {
    if ps == [] then TCP_OPEN
    else TcpStep(Tcp(ps[..|ps| - 1]), ps[|ps| - 1], ps[|ps| - 1].lowToHigh == ps[0].lowToHigh)
  }

  predicate TcpClosed(s: TcpState) {
    s.reset || (s.srcFIN && s.srcACK && s.dstFIN && s.dstACK)
  }

  lemma {:induction false} TcpGrows(ps: seq<Packet>, p: Packet)
    ensures Tcp(ps + [p]) == TcpStep(Tcp(ps), p, p.lowToHigh == (ps + [p])[0].lowToHigh)
  {
    assert (ps + [p])[..|ps|] == ps;
  }

  /** ---- they agree ---- */

  ghost predicate HasFin(ps: seq<Packet>, forward: bool) {
    exists i | 0 <= i < |ps| :: Fin(ps, i, forward)
  }

  // One packet more, flag by flag.
  lemma {:induction false} ResetGrows(ps: seq<Packet>, p: Packet)
    ensures Reset(ps + [p]) <==> Reset(ps) || p.rst
  {
    var all := ps + [p];
    assert all[|ps|] == p && forall i | 0 <= i < |ps| :: all[i] == ps[i];
  }

  lemma {:induction false} FinGrows(ps: seq<Packet>, p: Packet, forward: bool)
    ensures HasFin(ps + [p], forward) <==> HasFin(ps, forward) || Fin(ps + [p], |ps|, forward)
  {
    var all := ps + [p];
    assert forall i | 0 <= i < |ps| :: all[i] == ps[i] && (Fin(all, i, forward) <==> Fin(ps, i, forward));
  }

  lemma {:induction false} ClosedGrows(ps: seq<Packet>, p: Packet, forward: bool)
    ensures Closed(ps + [p], forward) <==>
            Closed(ps, forward) || (HasFin(ps, forward) && Answer(ps + [p], |ps|, forward))
  {
    var all := ps + [p];
    assert forall i | 0 <= i < |ps| :: all[i] == ps[i] && (Fin(all, i, forward) <==> Fin(ps, i, forward));
    assert forall i | 0 <= i < |ps| :: all[i] == ps[i] && (Answer(all, i, forward) <==> Answer(ps, i, forward));
    if Closed(all, forward) {
      var i, j :| 0 <= i < j < |all| && Fin(all, i, forward) && Answer(all, j, forward);
      assert Fin(ps, i, forward) && (j < |ps| ==> Answer(ps, j, forward));
    }
    if Closed(ps, forward) {
      var i, j :| 0 <= i < j < |ps| && Fin(ps, i, forward) && Answer(ps, j, forward);
      assert Fin(all, i, forward) && Answer(all, j, forward);
    } else if HasFin(ps, forward) && Answer(all, |ps|, forward) {
      var i :| 0 <= i < |ps| && Fin(ps, i, forward);
      assert Fin(all, i, forward);
    }
  }

  // The flags are what the packets say, until a reset.
  lemma {:induction false} FlagsAre(ps: seq<Packet>)
    ensures Tcp(ps).reset <==> Reset(ps)
    ensures !Reset(ps) ==> Tcp(ps).srcFIN == HasFin(ps, true) && Tcp(ps).dstFIN == HasFin(ps, false)
    ensures !Reset(ps) ==> Tcp(ps).srcACK == Closed(ps, true) && Tcp(ps).dstACK == Closed(ps, false)
  {
    if ps != [] {
      var before, p := ps[..|ps| - 1], ps[|ps| - 1];
      assert ps == before + [p];
      FlagsAre(before);
      TcpGrows(before, p);
      ResetGrows(before, p);
      FinGrows(before, p, true);
      FinGrows(before, p, false);
      ClosedGrows(before, p, true);
      ClosedGrows(before, p, false);
    }
  }

  /** The program's flags end a connection exactly when the packets do. */
  lemma {:induction false} ClosedIsOver(ps: seq<Packet>)
    ensures TcpClosed(Tcp(ps)) <==> ConnectionOver(ps)
  {
    hide Tcp;
    FlagsAre(ps);
    assert forall forward :: Closed(ps, forward) ==> HasFin(ps, forward);
  }
}
