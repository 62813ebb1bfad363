/** Two processes that may connect to each other at the same time, and the rule that
    settles which of the two connections survives. */
module ConnectHandshake {
  datatype State = Closed | Connecting | ConnectAck | Connected

  /** The connection one process initiates.  Each end is open or closed; a process name travels each way. */
  datatype Conn = Conn(
    created: bool,     // the initiator has called connect
    named: bool,       // the initiator has sent its name
    initOpen: bool,    // the initiator's end is open
    acceptOpen: bool,  // the other end is open
    handled: bool,     // the listener of the other process has read it
    replied: bool)     // the accepting process has sent its name back

  const NONE := -1

  datatype Event = Start(p: nat, atOnce: bool) | Complete(p: nat) | Offer(p: nat) | Reply(p: nat)

  /** The state of both endpoints and of both connections. */
  datatype Conf = Conf(state: seq<State>, sd: seq<int>, conn: seq<Conn>)

  ghost predicate Formed(c: Conf, name: seq<int>)
  {
    |name| == |c.state| == |c.sd| == |c.conn| == 2
  }

  /** Whether process q takes the connection of the other one. */
  predicate Takes(c: Conf, name: seq<int>, q: nat)
    requires |name| == |c.state| == |c.sd| == |c.conn| == 2 && q < 2
  {
    c.sd[q] < 0 || (c.state[q] != Connected && name[1 - q] < name[q])
  }

  /** The two ends of a connection after process p has let go of its socket. */
  function Dropped(c: Conf, name: seq<int>, p: nat): Conf
    requires |name| == |c.state| == |c.sd| == |c.conn| == 2 && p < 2
  {
    var none := c.sd[p := NONE];
    if c.sd[p] == p then Conf(c.state, none, c.conn[p := c.conn[p].(initOpen := false)])
    else if c.sd[p] == 1 - p then Conf(c.state, none, c.conn[1 - p := c.conn[1 - p].(acceptOpen := false)])
    else Conf(c.state, none, c.conn)
  }

  predicate Ready(c: Conf, name: seq<int>, e: Event)
    requires |name| == |c.state| == |c.sd| == |c.conn| == 2
  {
    e.p < 2 &&
    match e
    case Start(p, _) => c.state[p] == Closed
    case Complete(p) => c.state[p] == Connecting
    case Offer(q) => c.conn[1 - q].created && !c.conn[1 - q].handled && (c.conn[1 - q].named || !c.conn[1 - q].initOpen)
    case Reply(p) => c.state[p] == ConnectAck && c.sd[p] == p && (c.conn[p].replied || !c.conn[p].acceptOpen)
  }

  /** What an event does.  A process that starts opens its connection and, if connect succeeds at once, sends its name;
      if not, completing does.  A listener that has the name takes the connection by the rule, letting go of its own and
      replying, or else closes its end.  A reply connects, and a closed socket is dropped. */
  ghost function After(c: Conf, name: seq<int>, e: Event): (d: Conf)
    requires Formed(c, name) && e.p < 2
    ensures Formed(d, name)
  {
    match e
    case Start(p, atOnce) =>
      Conf(c.state[p := if atOnce then ConnectAck else Connecting], c.sd[p := p],
           c.conn[p := Conn(true, atOnce, true, true, false, false)])
    case Complete(p) =>
      Conf(c.state[p := ConnectAck], c.sd, c.conn[p := c.conn[p].(named := true)])
    case Offer(q) =>
      var i := 1 - q;
      if c.conn[i].named && Takes(c, name, q) then
        var d := Dropped(c, name, q);
        Conf(c.state[q := Connected], c.sd[q := i], d.conn[i := d.conn[i].(replied := true, handled := true)])
      else Conf(c.state, c.sd, c.conn[i := c.conn[i].(handled := true, acceptOpen := false)])
    case Reply(p) =>
      if c.conn[p].replied then Conf(c.state[p := Connected], c.sd, c.conn) else Dropped(c, name, p)
  }

  /** What a schedule does: the events that can happen when their turn comes take place. */
  ghost function Played(c: Conf, name: seq<int>, schedule: seq<Event>): (d: Conf)
    requires Formed(c, name)
    ensures Formed(d, name)
  {
    if schedule == [] then c
    else
      var last := |schedule| - 1;
      var before := Played(c, name, schedule[..last]);
      if Ready(before, name, schedule[last]) then After(before, name, schedule[last]) else before
  }

  /** How many of them take place. */
  ghost function Fired(c: Conf, name: seq<int>, schedule: seq<Event>): nat
    requires Formed(c, name)
  {
    if schedule == [] then 0
    else
      var last := |schedule| - 1;
      Fired(c, name, schedule[..last])
      + if Ready(Played(c, name, schedule[..last]), name, schedule[last]) then 1 else 0
  }

  /** Both endpoints.  Process p is 0 or 1, connection c is the one initiated by process c,
      and sd[p] is the connection whose socket endpoint p holds, or NONE. */
  class Handshake {
    const name: seq<int>
    var state: seq<State>
    var sd: seq<int>
    var conn: seq<Conn>

    /** The process with the smaller name: its connection wins. */
    ghost function Low(): nat
      requires |name| == 2
    {
      if name[0] < name[1] then 0 else 1
    }

    ghost predicate Shape()
      reads this
    {
      |name| == |state| == |sd| == |conn| == 2 && name[0] != name[1]
    }

    /** What each connection's record says, given who holds it. */
    ghost predicate ConnOk(c: nat)
      requires Shape() && c < 2
      reads this
    {
      && (!conn[c].created ==> conn[c] == Conn(false, false, false, false, false, false))
      && (conn[c].initOpen <==> sd[c] == c)
      && (conn[c].replied <==> state[1 - c] == Connected && sd[1 - c] == c)
      && (conn[c].replied ==> conn[c].handled && conn[c].acceptOpen && conn[c].named)
      && (conn[c].created && !conn[c].handled ==> conn[c].acceptOpen)
      && (conn[c].handled && !conn[c].replied ==> !conn[c].acceptOpen)
    }

    ghost predicate EndpointOk(p: nat)
      requires Shape() && p < 2
      reads this
    {
      && (state[p] == Closed ==> sd[p] == NONE && !conn[p].created)
      && (state[p] == Connecting ==> conn[p].created && sd[p] == p && !conn[p].named)
      && (state[p] == ConnectAck ==> conn[p].created && conn[p].named && (sd[p] == p || sd[p] == NONE))
      && (state[p] == Connected ==> sd[p] == p || sd[p] == 1 - p)
      && (state[p] == Connected && sd[p] == p ==> conn[p].created && conn[p].replied)
    }

    /** The smaller process never gives up its own connection, and the other never turns it down; the larger
        process loses its connection only to that one. */
    ghost predicate TieBreak()
      requires Shape()
      reads this
    {
      var l, h := Low(), 1 - Low();
      && (conn[l].created ==> sd[l] == l)
      && (conn[l].handled ==> conn[l].replied)
      && (conn[h].handled && !conn[h].replied ==> conn[l].created)
      && (state[h] == ConnectAck && sd[h] == NONE ==> conn[l].created)
    }

    ghost predicate Valid()
      reads this
    {
      Shape() && ConnOk(0) && ConnOk(1) && EndpointOk(0) && EndpointOk(1) && TieBreak()
    }

    ghost function Now(): Conf
      reads this
    {
      Conf(state, sd, conn)
    }

    constructor (n0: int, n1: int)
      requires n0 != n1
      ensures Valid() && state == [Closed, Closed] && name == [n0, n1] && !conn[0].created && !conn[1].created
    {
      name, state, sd := [n0, n1], [Closed, Closed], [NONE, NONE];
      conn := seq(2, _ => Conn(false, false, false, false, false, false));
    }

    /** Effort left: every event below lowers it, so no run goes on forever. */
    ghost function Effort(): nat
      requires Shape()
      reads this
    {
      EndpointEffort(0) + EndpointEffort(1) + (if conn[0].handled then 0 else 1) + (if conn[1].handled then 0 else 1)
    }

    ghost function EndpointEffort(p: nat): nat
      requires Shape() && p < 2
      reads this
    {
      match state[p]
      case Closed => 4
      case Connecting => 3
      case ConnectAck => if sd[p] == NONE then 1 else 2
      case Connected => 0
    }

    // ---------- Steps of an endpoint ----------

    /** `mca_btl_tcp2_endpoint_close`: the state is not reset. */
    method Close(p: nat)
      requires Shape() && p < 2 && -1 <= sd[p] < 2
      modifies this`sd, this`conn
      ensures Shape() && sd == old(sd)[p := NONE]
      ensures old(sd[p]) == NONE ==> conn == old(conn)
      ensures old(sd[p]) == p ==> conn == old(conn)[p := old(conn)[p].(initOpen := false)]
      ensures old(sd[p]) == 1 - p ==> conn == old(conn)[1 - p := old(conn)[1 - p].(acceptOpen := false)]
    {
      if sd[p] < 0 { return; }
      var c := sd[p];
      sd := sd[p := NONE];
      conn := if c == p then conn[c := conn[c].(initOpen := false)] else conn[c := conn[c].(acceptOpen := false)];
    }

    /** `mca_btl_tcp2_endpoint_send` on a closed endpoint starts connecting; connect may finish at once or not. */
    method StartConnect(p: nat, atOnce: bool)
      requires Valid() && p < 2 && state[p] == Closed
      modifies this`state, this`sd, this`conn
      ensures Valid() && Effort() < old(Effort())
      ensures Now() == After(old(Now()), name, Start(p, atOnce))
    {
      assert p == 0 || p == 1;
      sd := sd[p := p];
      conn := conn[p := Conn(true, atOnce, true, true, false, false)];
      state := state[p := if atOnce then ConnectAck else Connecting];
    }

    /** `mca_btl_tcp2_endpoint_complete_connect`: send our name, wait for the reply. */
    method CompleteConnect(p: nat)
      requires Valid() && p < 2 && state[p] == Connecting
      modifies this`state, this`sd, this`conn
      ensures Valid() && Effort() < old(Effort())
      ensures Now() == After(old(Now()), name, Complete(p))
    {
      assert p == 0 || p == 1;
      conn := conn[p := conn[p].(named := true)];
      state := state[p := ConnectAck];
    }
  
    /** The accept rule: take the connection if we hold none, or if we are not connected yet and its
        initiator has the smaller name; what we held before is closed. */
    method Accept(q: nat) returns (ok: bool)
      requires Shape() && q < 2 && -1 <= sd[q] < 2 && sd[q] != 1 - q
      modifies this`state, this`sd, this`conn
      ensures Shape()
      ensures ok <==> old(sd[q]) == NONE || (old(state[q]) != Connected && name[1 - q] < name[q])
      ensures !ok ==> state == old(state) && sd == old(sd) && conn == old(conn)
      ensures ok ==> state == old(state)[q := Connected] && sd == old(sd)[q := 1 - q]
      ensures ok ==> conn[1 - q] == old(conn)[1 - q].(replied := true)
      ensures ok ==> conn[q] == if old(sd[q]) == q then old(conn)[q].(initOpen := false) else old(conn)[q]
    {
      ok := false;
      if sd[q] < 0 || (state[q] != Connected && name[1 - q] < name[q]) {
        Close(q);
        sd := sd[q := 1 - q];
        conn := conn[1 - q := conn[1 - q].(replied := true)];
        state := state[q := Connected];
        ok := true;
      }
    }

    /** The listener of process q reads the other's connection: a closed socket is dropped, a name is offered to
        the endpoint and the socket closed if it is turned down.  An accepted socket is open at the other end. */
    method Listen(q: nat)
      requires Valid() && q < 2 && CanListen(q)
      modifies this`state, this`sd, this`conn
      ensures Valid() && Effort() < old(Effort())
      ensures conn[1 - q].replied ==> conn[1 - q].initOpen
      ensures Now() == After(old(Now()), name, Offer(q))
    {
      assert q == 0 || q == 1;
      var c := 1 - q;
      var ok := false;
      if conn[c].named { ok := Accept(q); }
      conn := conn[c := conn[c].(handled := true)];
      if !ok { conn := conn[c := conn[c].(acceptOpen := false)]; }
    }

    /** The receive handler while waiting for the reply: the reply connects us, a closed socket is dropped. */
    method RecvConnectAck(p: nat)
      requires Valid() && p < 2 && CanReceive(p)
      modifies this`state, this`sd, this`conn
      ensures Valid() && Effort() < old(Effort())
      ensures Now() == After(old(Now()), name, Reply(p))
    {
      assert p == 0 || p == 1;
      if conn[p].replied {
        state := state[p := Connected];
      } else {
        Close(p);
      }
    }

    predicate CanListen(q: nat)
      requires Shape() && q < 2
      reads this
    {
      Enabled(Offer(q))
    }

    predicate CanReceive(p: nat)
      requires Shape() && p < 2
      reads this
    {
      Enabled(Reply(p))
    }

    /** No process has anything to do but start. */
    ghost predicate Quiescent()
      requires Shape()
      reads this
    {
      forall p: nat | p < 2 :: state[p] != Connecting && !CanListen(p) && !CanReceive(p)
    }

    /** Safety: two connected endpoints hold the two ends of one connection. */
    lemma SameSocket()
      requires Valid() && state == [Connected, Connected]
      ensures sd[0] == sd[1] && 0 <= sd[0] < 2 && conn[sd[0]].initOpen && conn[sd[0]].acceptOpen
    {
    }

    /** No dead end: once one process has started, everything comes to rest only with both connected. */
    lemma NoDeadEnd()
      requires Valid() && Quiescent() && (conn[0].created || conn[1].created)
      ensures state == [Connected, Connected]
    {
      var l, h := Low(), 1 - Low();
      assert state[l] != Connecting && !CanListen(l) && !CanReceive(l);
      assert state[h] != Connecting && !CanListen(h) && !CanReceive(h);
    }
  
    predicate Enabled(e: Event)
      requires Shape()
      reads this
    {
      Ready(Conf(state, sd, conn), name, e)
    }

    /** Any interleaving of the events that can happen: the invariant holds throughout, at most Effort many of
        them take place, and a run that ends at rest after a start ends with both connected on one socket. */
    method Run(schedule: seq<Event>) returns (fired: nat)
      requires Valid()
      modifies this`state, this`sd, this`conn
      ensures Valid() && fired + Effort() <= old(Effort())
      ensures Now() == Played(old(Now()), name, schedule) && fired == Fired(old(Now()), name, schedule)
      ensures state == [Connected, Connected] ==> sd[0] == sd[1]
      ensures Quiescent() && (conn[0].created || conn[1].created) ==> state == [Connected, Connected]
    {
      fired := 0;
      for i := 0 to |schedule|
        invariant Valid() && fired + Effort() <= old(Effort())
        invariant Now() == Played(old(Now()), name, schedule[..i]) && fired == Fired(old(Now()), name, schedule[..i])
      {
        var e := schedule[i];
        PlayedMore(old(Now()), name, schedule, i);
        if Enabled(e) {
          match e {
            case Start(p, atOnce) => StartConnect(p, atOnce);
            case Complete(p) => CompleteConnect(p);
            case Offer(p) => Listen(p);
            case Reply(p) => RecvConnectAck(p);
          }
          fired := fired + 1;
        }
      }
      assert schedule[..|schedule|] == schedule;
      if state == [Connected, Connected] { SameSocket(); }
      if Quiescent() && (conn[0].created || conn[1].created) { NoDeadEnd(); }
    }
  }

  lemma PlayedMore(c: Conf, name: seq<int>, schedule: seq<Event>, i: nat)
    requires Formed(c, name) && i < |schedule|
    ensures var before, e := Played(c, name, schedule[..i]), schedule[i];
            && Played(c, name, schedule[..i + 1]) == (if Ready(before, name, e) then After(before, name, e) else before)
            && Fired(c, name, schedule[..i + 1])
               == Fired(c, name, schedule[..i]) + if Ready(before, name, e) then 1 else 0
  {
    assert schedule[..i + 1][..i] == schedule[..i];
  }
}
