/** One member of a set running for master: QSentinel/zookeeper/ZookeeperConn.cc. Node names are reduced to their
    sequence numbers; the socket accepts every packet. */
module ZookeeperConn {
  import opened Options

  const WATCHER_EVENT_XID := -1
  const PING_XID := -2

  datatype Op = Ping | Create | GetChildren | Exists(node: nat) | GetData

  datatype Request = Request(xid: int, op: Op)

  datatype Body = Pong | Created(node: nat) | Children(nodes: set<nat>) | Stat(found: bool) | Data | Deleted(node: nat)

  /** What the server sends: a reply carries the xid of its request, a watch event WATCHER_EVENT_XID. */
  datatype Message = Message(xid: int, body: Body)

  /** The calls of onBecomeMaster_ and onBecomeSlave_. */
  datatype Callback = BecomeMaster(slaves: set<nat>) | BecomeSlave(master: nat)

  datatype State = State(xid: int, pending: seq<Request>, me: Option<nat>, siblings: set<nat>, told: seq<Callback>)

  /** A handler goes on with a new state and perhaps a packet, or fails: it returns false, or an assert does not
      hold. */
  datatype Outcome = Fail | Next(state: State, sent: seq<Request>)

  // ----- the map of siblings, as a set of keys -----

  function Below(s: set<nat>, k: nat): set<nat> { set q | q in s && q < k }

  function Above(s: set<nat>, k: nat): set<nat> { set q | q in s && q > k }

  lemma {:induction false} MaxExists(s: set<nat>) returns (m: nat)
    requires s != {}
    ensures m in s && forall x :: x in s ==> x <= m
    decreases |s|
  {
    var x :| x in s;
    m := x;
    if s != {x} {
      assert forall y :: y in s ==> y == x || y in s - {x};
      m := MaxExists(s - {x});
      if m < x { m := x; }
    }
  }

  lemma HasMax(s: set<nat>)
    requires s != {}
    ensures exists m :: m in s && forall x :: x in s ==> x <= m
  {
    var m := MaxExists(s);
  }

  function Max(s: set<nat>): (m: nat)
    requires s != {}
    ensures m in s && forall x :: x in s ==> x <= m
  {
    HasMax(s);
    var m :| m in s && forall x :: x in s ==> x <= m;
    m
  }

  lemma {:induction false} MinExists(s: set<nat>) returns (m: nat)
    requires s != {}
    ensures m in s && forall x :: x in s ==> m <= x
    decreases |s|
  {
    var x :| x in s;
    m := x;
    if s != {x} {
      assert forall y :: y in s ==> y == x || y in s - {x};
      m := MinExists(s - {x});
      if x < m { m := x; }
    }
  }

  lemma HasMin(s: set<nat>)
    requires s != {}
    ensures exists m :: m in s && forall x :: x in s ==> m <= x
  {
    var m := MinExists(s);
  }

  function Min(s: set<nat>): (m: nat)
    requires s != {}
    ensures m in s && forall x :: x in s ==> m <= x
  {
    HasMin(s);
    var m :| m in s && forall x :: x in s ==> m <= x;
    m
  }

  // ----- the handlers -----

  /** _SendPacket with a fresh xid. */
  function Send(c: State, op: Op): Outcome {
    var r := Request(c.xid + 1, op);
    Next(c.(xid := c.xid + 1, pending := c.pending + [r]), [r])
  }

  /** The ping timer: every ping has the same xid. */
  function SendPing(c: State): Outcome {
    var r := Request(PING_XID, Ping);
    Next(c.(pending := c.pending + [r]), [r])
  }

  /** _ProcessHandshake for a new session: _RunForMaster. */
  function Start(): Outcome { Send(State(0, [], None, {}, []), Create) }

  /** Watch the closest sibling below, or list the siblings again when there is none. */
  function Follow(c: State): Outcome {
    if c.me == None || c.me.value !in c.siblings then Fail
    else if Below(c.siblings, c.me.value) == {} then Send(c, GetChildren)
    else Send(c, Exists(Max(Below(c.siblings, c.me.value))))
  }

  /** _OnNodeDelete. */
  function OnNodeDelete(c: State, q: nat): Outcome { Follow(c.(siblings := c.siblings - {q})) }

  /** The switch of _ProcessResponse. */
  function Answer(c: State, op: Op, body: Body): Outcome {
    match (op, body)
    case (Ping, Pong) => Next(c, [])
    case (Create, Created(q)) => if c.me.Some? then Fail else Send(c.(me := Some(q)), GetChildren)
    case (GetChildren, Children(nodes)) =>
      if c.me == None || c.me.value !in nodes then Fail
      else if Below(nodes, c.me.value) == {} then Send(c.(siblings := nodes), GetData)
      else Send(c.(siblings := nodes), Exists(Max(Below(nodes, c.me.value))))
    case (GetData, Data) =>
      if c.me == None || c.me.value !in c.siblings then Fail
      else Next(c.(told := c.told + [BecomeMaster(Above(c.siblings, c.me.value))]), [])
    case (Exists(q), Stat(found)) =>
      if !found then OnNodeDelete(c, q)
      else if c.siblings == {} then Fail
      else Next(c.(told := c.told + [BecomeSlave(Min(c.siblings))]), [])
    case _ => Fail
  }

  /** _ProcessResponse. */
  function Process(c: State, m: Message): Outcome {
    if m.xid == WATCHER_EVENT_XID then
      if m.body.Deleted? then OnNodeDelete(c, m.body.node) else Next(c, [])
    else if c.pending == [] || c.pending[0].xid != m.xid then Fail
    else match Answer(c, c.pending[0].op, m.body)
      case Fail => Fail
      case Next(d, sent) => if d.pending == [] then Fail else Next(d.(pending := d.pending[1..]), sent)
  }

  // ----- the object -----

  class ZookeeperConn {
    var xid: int
    var pendingRequests: seq<Request>
    var seqNo: Option<nat>
    var siblings: set<nat>
    var told: seq<Callback>
    /** What went to the socket. */
    var sent: seq<Request>

    function Abstract(): State
      reads this
    {
      State(xid, pendingRequests, seqNo, siblings, told)
    }

    constructor ()
      ensures Abstract() == State(0, [], None, {}, []) && sent == []
    {
      xid, pendingRequests, seqNo, siblings, told, sent := 0, [], None, {}, [], [];
    }

    method SendPacket(op: Op)
      modifies this
      ensures Send(old(Abstract()), op) == Next(Abstract(), [Request(xid, op)])
      ensures xid == old(xid) + 1 && sent == old(sent) + [Request(xid, op)]
    {
      xid := xid + 1;
      var r := Request(xid, op);
      sent := sent + [r];
      pendingRequests := pendingRequests + [r];
    }

    /** _ProcessHandshake with a new session. */
    method RunForMaster()
      requires Abstract() == State(0, [], None, {}, [])
      modifies this
      ensures exists out :: Start() == Next(Abstract(), out) && sent == old(sent) + out
    {
      SendPacket(Create);
      assert Start() == Next(Abstract(), [Request(1, Create)]);
    }

    /** _OnNodeDelete. */
    method NodeDeleted(node: nat) returns (ok: bool)
      modifies this
      ensures var r := OnNodeDelete(old(Abstract()), node);
              ok == r.Next? && (ok ==> Abstract() == r.state && sent == old(sent) + r.sent)
    {
      siblings := siblings - {node};
      if seqNo == None || seqNo.value !in siblings { return false; }
      if Below(siblings, seqNo.value) == {} {
        SendPacket(GetChildren);
      } else {
        SendPacket(Exists(Max(Below(siblings, seqNo.value))));
      }
      return true;
    }

    method GotChildren(nodes: set<nat>) returns (ok: bool)
      modifies this
      ensures var r := Answer(old(Abstract()), GetChildren, Children(nodes));
              ok == r.Next? && (ok ==> Abstract() == r.state && sent == old(sent) + r.sent)
    {
      siblings := nodes;
      if seqNo == None || seqNo.value !in siblings { return false; }
      if Below(siblings, seqNo.value) == {} {
        SendPacket(GetData);
      } else {
        SendPacket(Exists(Max(Below(siblings, seqNo.value))));
      }
      return true;
    }

    /** _ProcessResponse. */
    method ProcessResponse(m: Message) returns (ok: bool)
      modifies this
      ensures var r := Process(old(Abstract()), m);
              ok == r.Next? && (ok ==> Abstract() == r.state && sent == old(sent) + r.sent)
      ensures m.xid != WATCHER_EVENT_XID && (old(pendingRequests) == [] || old(pendingRequests)[0].xid != m.xid) ==>
                !ok
    {
      if m.xid == WATCHER_EVENT_XID {
        ok := true;
        if m.body.Deleted? {
          ok := NodeDeleted(m.body.node);
        }
        return;
      }
      if pendingRequests == [] || pendingRequests[0].xid != m.xid { return false; }
      ok := false;
      match (pendingRequests[0].op, m.body) {
        case (Ping, Pong) =>
          ok := true;
        case (Create, Created(node)) =>
          if seqNo == None {
            seqNo := Some(node);
            SendPacket(GetChildren);
            ok := true;
          }
        case (GetChildren, Children(nodes)) =>
          ok := GotChildren(nodes);
        case (GetData, Data) =>
          if seqNo.Some? && seqNo.value in siblings {
            told := told + [BecomeMaster(Above(siblings, seqNo.value))];
            ok := true;
          }
        case (Exists(node), Stat(found)) =>
          if !found {
            ok := NodeDeleted(node);
          } else if siblings != {} {
            told := told + [BecomeSlave(Min(siblings))];
            ok := true;
          }
        case _ =>
      }
      if ok {
        pendingRequests := pendingRequests[1..];
      }
    }
  }
}
