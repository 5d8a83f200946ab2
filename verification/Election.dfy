/** The election among all members: the clients of QSentinel/zookeeper/ZookeeperConn.cc, and a server that numbers
    nodes upwards, answers each client in order, and tells a watcher once when the node it watches is gone. */
module Election {
  import opened Options
  import opened ZookeeperConn

  /** A member with its session: the packets under way in both directions, and what the server keeps for it. */
  datatype Client = Client(state: State, toServer: seq<Request>, toClient: seq<Message>, open: bool, watches: set<nat>)

  /** live maps every node that exists to its owner. */
  datatype System = System(next: nat, live: map<nat, nat>, clients: map<nat, Client>)

  datatype Step = Connect(c: nat) | Timer(c: nat) | Serve(c: nat) | Deliver(c: nat) | Expire(c: nat)

  // ----- the steps -----

  function Served(s: System, c: nat): System
    requires c in s.clients && s.clients[c].toServer != []
  {
    var cl := s.clients[c];
    var r := cl.toServer[0];
    var rest := cl.(toServer := cl.toServer[1..]);
    match r.op
    case Ping => s.(clients := s.clients[c := Replied(rest, r.xid, Pong)])
    case Create =>
      System(s.next + 1, s.live[s.next := c], s.clients[c := Replied(rest, r.xid, Created(s.next))])
    case GetChildren => s.(clients := s.clients[c := Replied(rest, r.xid, Children(s.live.Keys))])
    case GetData => s.(clients := s.clients[c := Replied(rest, r.xid, Data)])
    case Exists(q) =>
      var watching := if q in s.live then rest.(watches := rest.watches + {q}) else rest;
      s.(clients := s.clients[c := Replied(watching, r.xid, Stat(q in s.live))])
  }

  function Replied(cl: Client, xid: int, body: Body): Client {
    cl.(toClient := cl.toClient + [Message(xid, body)])
  }

  /** A watch fires once. */
  function Notified(cl: Client, q: nat): Client {
    if q in cl.watches then Replied(cl.(watches := cl.watches - {q}), WATCHER_EVENT_XID, Deleted(q)) else cl
  }

  /** The session ends: its nodes go, its watches go, and whoever watched the nodes is told. Packets already sent
      still arrive. */
  function Expired(s: System, c: nat): System
    requires c in s.clients
  {
    var gone := set q | q in s.live && s.live[q] == c;
    var closed := s.clients[c].(open := false, watches := {});
    System(s.next, s.live - gone,
           map d | d in s.clients :: if d == c then closed
                                     else if gone == {} then s.clients[d] else Notified(s.clients[d], Min(gone)))
  }

  function Sent(cl: Client, o: Outcome): Client
    requires o.Next?
  {
    cl.(state := o.state, toServer := cl.toServer + o.sent)
  }

  ghost predicate Enabled(s: System, step: Step) {
    match step
    case Connect(c) => c !in s.clients
    case Timer(c) => c in s.clients
    case Serve(c) => c in s.clients && s.clients[c].open && s.clients[c].toServer != []
    case Deliver(c) => c in s.clients && s.clients[c].toClient != []
    case Expire(c) => c in s.clients && s.clients[c].open
  }

  /** What one step does; a client whose handler fails stops there. */
  function Apply(s: System, step: Step): System
    requires Enabled(s, step)
  {
    match step
    case Connect(c) =>
      s.(clients := s.clients[c := Sent(Client(State(0, [], None, {}, []), [], [], true, {}), Start())])
    case Timer(c) => s.(clients := s.clients[c := Sent(s.clients[c], SendPing(s.clients[c].state))])
    case Serve(c) => Served(s, c)
    case Expire(c) => Expired(s, c)
    case Deliver(c) =>
      var cl := s.clients[c];
      var o := Process(cl.state, cl.toClient[0]);
      if o == Fail then s else s.(clients := s.clients[c := Sent(cl.(toClient := cl.toClient[1..]), o)])
  }

  function Init(): System { System(0, map[], map[]) }

  // ----- packets under way -----

  predicate Fits(op: Op, body: Body) {
    match op
    case Ping => body.Pong?
    case Create => body.Created?
    case GetChildren => body.Children?
    case GetData => body.Data?
    case Exists(_) => body.Stat?
  }

  /** The pending requests are those whose replies are under way, in that order, and then those not served yet. */
  predicate Fifo(pending: seq<Request>, toClient: seq<Message>, toServer: seq<Request>)
    decreases |toClient|
  {
    if toClient == [] then
      pending == toServer && forall i :: 0 <= i < |toServer| ==> toServer[i].xid != WATCHER_EVENT_XID
    else if toClient[0].body.Deleted? then
      toClient[0].xid == WATCHER_EVENT_XID && Fifo(pending, toClient[1..], toServer)
    else
      && pending != [] && toClient[0].xid == pending[0].xid != WATCHER_EVENT_XID
      && Fits(pending[0].op, toClient[0].body)
      && Fifo(pending[1..], toClient[1..], toServer)
  }

  lemma {:induction false} FifoSend(p: seq<Request>, ms: seq<Message>, t: seq<Request>, r: Request)
    requires Fifo(p, ms, t) && r.xid != WATCHER_EVENT_XID
    ensures Fifo(p + [r], ms, t + [r])
    decreases |ms|
  {
    if ms != [] {
      if ms[0].body.Deleted? {
        FifoSend(p, ms[1..], t, r);
      } else {
        FifoSend(p[1..], ms[1..], t, r);
        assert (p + [r])[1..] == p[1..] + [r];
      }
    }
  }

  lemma {:induction false} FifoServe(p: seq<Request>, ms: seq<Message>, t: seq<Request>, body: Body)
    requires Fifo(p, ms, t) && t != [] && Fits(t[0].op, body)
    ensures Fifo(p, ms + [Message(t[0].xid, body)], t[1..])
    decreases |ms|
  {
    var m := Message(t[0].xid, body);
    if ms == [] {
      assert [m][1..] == [] && ms + [m] == [m];
    } else {
      assert (ms + [m])[0] == ms[0] && (ms + [m])[1..] == ms[1..] + [m];
      FifoServe(if ms[0].body.Deleted? then p else p[1..], ms[1..], t, body);
    }
  }

  lemma {:induction false} FifoEvent(p: seq<Request>, ms: seq<Message>, t: seq<Request>, q: nat)
    requires Fifo(p, ms, t)
    ensures Fifo(p, ms + [Message(WATCHER_EVENT_XID, Deleted(q))], t)
    decreases |ms|
  {
    var m := Message(WATCHER_EVENT_XID, Deleted(q));
    if ms == [] {
      assert [m][1..] == [] && ms + [m] == [m];
    } else {
      assert (ms + [m])[0] == ms[0] && (ms + [m])[1..] == ms[1..] + [m];
      FifoEvent(if ms[0].body.Deleted? then p else p[1..], ms[1..], t, q);
    }
  }

  /** The requests that take part in the election, pings left out; and what the server has said besides pongs. */
  function Ops(rs: seq<Request>): seq<Op> {
    if rs == [] then [] else (if rs[0].op == Ping then [] else [rs[0].op]) + Ops(rs[1..])
  }

  function News(ms: seq<Message>): seq<Body> {
    if ms == [] then [] else (if ms[0].body == Pong then [] else [ms[0].body]) + News(ms[1..])
  }

  lemma {:induction false} OpsAppend(rs: seq<Request>, r: Request)
    ensures Ops(rs + [r]) == Ops(rs) + if r.op == Ping then [] else [r.op]
  {
    var all := rs + [r];
    if rs == [] {
      assert all == [r] && all[1..] == [];
    } else {
      assert all[0] == rs[0] && all[1..] == rs[1..] + [r];
      OpsAppend(rs[1..], r);
      var first, more := if rs[0].op == Ping then [] else [rs[0].op], if r.op == Ping then [] else [r.op];
      assert Ops(all) == first + (Ops(rs[1..]) + more);
      assert first + (Ops(rs[1..]) + more) == first + Ops(rs[1..]) + more;
    }
  }

  lemma {:induction false} NewsAppend(ms: seq<Message>, m: Message)
    ensures News(ms + [m]) == News(ms) + if m.body == Pong then [] else [m.body]
  {
    var all := ms + [m];
    if ms == [] {
      assert all == [m] && all[1..] == [];
    } else {
      assert all[0] == ms[0] && all[1..] == ms[1..] + [m];
      NewsAppend(ms[1..], m);
      var first, more := if ms[0].body == Pong then [] else [ms[0].body], if m.body == Pong then [] else [m.body];
      assert News(all) == first + (News(ms[1..]) + more);
      assert first + (News(ms[1..]) + more) == first + News(ms[1..]) + more;
    }
  }

  // ----- the invariant of one client -----

  /** What matters of a client: the requests it waits for, those not served yet, the news under way to it. */
  datatype Role = Role(ops: seq<Op>, asked: seq<Op>, news: seq<Body>, me: Option<nat>, siblings: set<nat>,
                       master: bool, open: bool, watches: set<nat>)
  {
    /** The node the server made for this client, whether the client knows it yet or not. */
    function Node(): Option<nat> {
      if me.Some? then me else if |news| == 1 && news[0].Created? then Some(news[0].node) else None
    }

    function Lower(): set<nat> { if me.Some? then Below(siblings, me.value) else {} }
  }

  predicate ToldMaster(told: seq<Callback>) { exists i :: 0 <= i < |told| && told[i].BecomeMaster? }

  function RoleOf(cl: Client): Role {
    Role(Ops(cl.state.pending), Ops(cl.toServer), News(cl.toClient), cl.state.me, cl.state.siblings,
         ToldMaster(cl.state.told), cl.open, cl.watches)
  }

  /** Exactly one thing at a time drives a client on: a request, a reply, a watch or an event. An expired session may
      have lost it. */
  predicate Shape(r: Role) {
    && |r.ops| <= 1
    && (r.me == None <==> r.ops == [Create])
    && (r.me.Some? ==> r.me.value in r.siblings || (r.siblings == {} && r.ops == [GetChildren]))
    && (r.master <==> r.ops == [] && r.Lower() == {})
    && (if r.ops == [] then r.asked == [] && Waiting(r)
        else if r.asked == [] then r.news != [] && Fits(r.ops[0], r.news[0]) && Answered(r)
        else r.asked == r.ops && r.news == [] && r.watches == {})
    && (r.ops != [] ==>
          match r.ops[0]
          case Create => r.siblings == {}
          case GetChildren => r.Lower() == {}
          case GetData => r.Lower() == {}
          case Exists(q) => r.Lower() != {} && q == Max(r.Lower())
          case Ping => false)
  }

  /** No request is under way: the client is master, or its watch stands, or has fired. */
  predicate Waiting(r: Role) {
    if r.Lower() == {} then r.news == [] && r.watches == {}
    else if r.news == [] then r.watches <= {Max(r.Lower())} && (r.open ==> r.watches != {})
    else r.news == [Deleted(Max(r.Lower()))] && r.watches == {}
  }

  /** A reply is under way; behind the news that a node exists, the news of its end may follow. */
  predicate Answered(r: Role)
    requires |r.ops| == 1
  {
    if |r.news| == 1 && r.news[0] == Stat(true) && r.ops[0].Exists? then
      r.watches <= {r.ops[0].node} && (r.open ==> r.watches != {})
    else
      r.watches == {} && (|r.news| == 1 || (r.ops[0].Exists? && r.news == [Stat(true), Deleted(r.ops[0].node)]))
  }

  predicate Covers(live: map<nat, nat>, nodes: set<nat>, me: nat) { forall q :: q in live && q < me ==> q in nodes }

  /** How a client's view relates to the nodes that exist. */
  predicate View(next: nat, live: map<nat, nat>, c: nat, r: Role) {
    && (r.Node().Some? ==> r.Node().value < next && (r.open ==> r.Node().value in live && live[r.Node().value] == c))
    && (forall q :: q in live && live[q] == c ==> r.open && r.Node() == Some(q))
    && (forall q :: q in r.watches ==> q in live) && (forall q :: q in r.siblings ==> q < next)
    && (r.me.Some? && r.siblings != {} ==> Covers(live, r.siblings, r.me.value))
    && (forall i :: 0 <= i < |r.news| && r.news[i].Deleted? ==> r.news[i].node !in live)
    && (r.news == [Stat(false)] && |r.ops| == 1 && r.ops[0].Exists? ==> r.ops[0].node !in live)
    && (r.me.Some? && |r.news| == 1 && r.news[0].Children? ==>
          && r.me.value in r.news[0].nodes && Covers(live, r.news[0].nodes, r.me.value)
          && (forall q :: q in r.news[0].nodes ==> q < next)
          && (r.siblings != {} ==> Below(r.news[0].nodes, r.me.value) == {}))
  }

  ghost predicate ClientOk(next: nat, live: map<nat, nat>, c: nat, cl: Client) {
    && Fifo(cl.state.pending, cl.toClient, cl.toServer) && cl.state.xid >= 0
    && Shape(RoleOf(cl)) && View(next, live, c, RoleOf(cl))
  }

  ghost predicate Inv(s: System) {
    && (forall q :: q in s.live ==> q < s.next && s.live[q] in s.clients)
    && (forall c :: c in s.clients ==> ClientOk(s.next, s.live, c, s.clients[c]))
  }

  // ----- every step keeps it -----

  lemma ConnectKeeps(s: System, c: nat)
    requires Inv(s) && Enabled(s, Connect(c))
    ensures Inv(Apply(s, Connect(c)))
  {
    var r := Request(1, Create);
    var cl := Client(State(1, [r], None, {}, []), [r], [], true, {});
    hide ClientOk, Apply;
    Starting(s, c, cl);
    assert forall q :: q in s.live ==> s.live[q] != c;
    StartsWell(s.next, s.live, c, cl);
  }

  lemma StartsWell(next: nat, live: map<nat, nat>, c: nat, cl: Client)
    requires var r := Request(1, Create); cl == Client(State(1, [r], None, {}, []), [r], [], true, {})
    requires forall q :: q in live ==> live[q] != c
    ensures ClientOk(next, live, c, cl)
  {
    hide Max;
    var r := Request(1, Create);
    assert [r][1..] == [] && Ops([r]) == [Create] + Ops([]);
    assert RoleOf(cl) == Role([Create], [Create], [], None, {}, false, true, {});
  }

  lemma Starting(s: System, c: nat, cl: Client)
    requires c !in s.clients
    requires var r := Request(1, Create); cl == Client(State(1, [r], None, {}, []), [r], [], true, {})
    ensures Apply(s, Connect(c)) == s.(clients := s.clients[c := cl])
  {
    assert Start() == Next(State(1, [Request(1, Create)], None, {}, []), [Request(1, Create)]);
  }

  lemma TimerKeeps(s: System, c: nat)
    requires Inv(s) && Enabled(s, Timer(c))
    ensures Inv(Apply(s, Timer(c)))
    ensures var t := Apply(s, Timer(c));
            t == s.(clients := s.clients[c := t.clients[c]]) && RoleOf(t.clients[c]) == RoleOf(s.clients[c])
  {
    hide Fifo, Ops, News, Shape, View;
    var cl := s.clients[c];
    var r := Request(PING_XID, Ping);
    var cl' := Sent(cl, SendPing(cl.state));
    assert ClientOk(s.next, s.live, c, cl);
    FifoSend(cl.state.pending, cl.toClient, cl.toServer, r);
    OpsAppend(cl.state.pending, r);
    OpsAppend(cl.toServer, r);
    assert RoleOf(cl') == RoleOf(cl);
  }

  // ----- the server answers -----

  /** The answer to a request, as the server of state s gives it to client c. */
  function AnswerTo(s: System, op: Op): Body {
    match op
    case Ping => Pong
    case Create => Created(s.next)
    case GetChildren => Children(s.live.Keys)
    case GetData => Data
    case Exists(q) => Stat(q in s.live)
  }

  lemma {:induction false} ServedRole(s: System, c: nat)
    requires c in s.clients && s.clients[c].toServer != []
    requires ClientOk(s.next, s.live, c, s.clients[c])
    ensures var cl, t := s.clients[c], Served(s, c);
            var cl', op := t.clients[c], cl.toServer[0].op;
            var r := RoleOf(cl);
            && Fifo(cl'.state.pending, cl'.toClient, cl'.toServer) && cl'.state.xid >= 0
            && (if op == Ping then RoleOf(cl') == r
                else
                  && r.asked == r.ops == [op] && r.news == []
                  && RoleOf(cl') == r.(asked := [], news := [AnswerTo(s, op)], watches := cl'.watches))
  {
    hide Fifo, Ops, News, View;
    var cl := s.clients[c];
    var q := cl.toServer[0];
    OpsHead(cl.toServer);
    assert q.op != Ping ==> RoleOf(cl).asked[0] == q.op;
    FifoServe(cl.state.pending, cl.toClient, cl.toServer, AnswerTo(s, q.op));
    NewsAppend(cl.toClient, Message(q.xid, AnswerTo(s, q.op)));
  }

  lemma OpsHead(rs: seq<Request>)
    requires rs != []
    ensures Ops(rs) == (if rs[0].op == Ping then [] else [rs[0].op]) + Ops(rs[1..])
  {
  }

  lemma ServedShape(s: System, c: nat, r: Role, op: Op, watches: set<nat>)
    requires Shape(r) && View(s.next, s.live, c, r) && r.open && op != Ping
    requires r.asked == r.ops == [op] && r.news == []
    requires watches == if op.Exists? && op.node in s.live then {op.node} else {}
    ensures Shape(r.(asked := [], news := [AnswerTo(s, op)], watches := watches))
  {
  }

  lemma ServedView(s: System, c: nat, r: Role, op: Op, watches: set<nat>)
    requires Shape(r) && View(s.next, s.live, c, r) && r.open && op != Ping && op != Create
    requires r.asked == r.ops == [op] && r.news == []
    requires watches == if op.Exists? && op.node in s.live then {op.node} else {}
    requires forall q :: q in s.live ==> q < s.next
    ensures View(s.next, s.live, c, r.(asked := [], news := [AnswerTo(s, op)], watches := watches))
  {
    hide Max;
    var r' := r.(asked := [], news := [AnswerTo(s, op)], watches := watches);
    assert r'.Node() == r.Node();
    if op == GetChildren && r.siblings != {} {
      assert forall q :: q in s.live && q < r.me.value ==> q in r.Lower();
    }
  }

  /** A new node is above all others, and nobody has heard of it. */
  lemma NewNodeView(next: nat, live: map<nat, nat>, owner: nat, d: nat, r: Role)
    requires Shape(r) && View(next, live, d, r) && d != owner
    ensures View(next + 1, live[next := owner], d, r)
  {
    assert r.ops == [] && r.Lower() != {} && r.news != [] ==> Max(r.Lower()) < next;
  }

  lemma CreatedView(s: System, c: nat, r: Role)
    requires Shape(r) && View(s.next, s.live, c, r) && r.open && r.asked == r.ops == [Create] && r.news == []
    ensures View(s.next + 1, s.live[s.next := c], c, r.(asked := [], news := [Created(s.next)], watches := {}))
  {
  }

  /** t is s after the first packet of client c has been served. */
  ghost predicate IsServed(s: System, c: nat, t: System)
    requires c in s.clients && s.clients[c].toServer != [] && c in t.clients
  {
    var r, op, r' := RoleOf(s.clients[c]), s.clients[c].toServer[0].op, RoleOf(t.clients[c]);
    && t.clients == s.clients[c := t.clients[c]] && t.next == s.next + (if op == Create then 1 else 0)
    && if op == Ping then r' == r
       else && r.asked == r.ops == [op] && r.news == []
            && r' == r.(asked := [], news := [AnswerTo(s, op)], watches := t.clients[c].watches)
  }

  lemma ServeKeeps(s: System, c: nat)
    requires Inv(s) && Enabled(s, Serve(c))
    ensures Inv(Served(s, c)) && c in Served(s, c).clients && IsServed(s, c, Served(s, c))
  {
    hide Fifo, Shape, View, RoleOf, AnswerTo;
    var cl, t := s.clients[c], Served(s, c);
    var cl', op, r := t.clients[c], cl.toServer[0].op, RoleOf(cl);
    assert ClientOk(s.next, s.live, c, cl);
    ServedRole(s, c);
    OpenRole(cl);
    if op != Ping {
      AskedWatches(r);
      ServedWatches(s, c);
      ServedShape(s, c, r, op, cl'.watches);
      if op == Create {
        CreatedView(s, c, r);
        CreatedAnswer(s);
      } else {
        ServedView(s, c, r, op, cl'.watches);
      }
    }
    assert ClientOk(t.next, t.live, c, cl');
    forall d | d in s.clients && d != c ensures ClientOk(t.next, t.live, d, t.clients[d]) {
      assert ClientOk(s.next, s.live, d, s.clients[d]);
      if op == Create {
        NewNodeView(s.next, s.live, c, d, RoleOf(s.clients[d]));
      }
    }
  }

  lemma ServeApplies(s: System, c: nat)
    requires Enabled(s, Serve(c))
    ensures Apply(s, Serve(c)) == Served(s, c)
  {
  }

  lemma OpenRole(cl: Client)
    ensures RoleOf(cl).open == cl.open && RoleOf(cl).watches == cl.watches
  {
  }

  lemma CreatedAnswer(s: System)
    ensures AnswerTo(s, Create) == Created(s.next)
  {
  }

  lemma ServedWatches(s: System, c: nat)
    requires c in s.clients && s.clients[c].toServer != [] && s.clients[c].watches == {}
    ensures var op := s.clients[c].toServer[0].op;
            Served(s, c).clients[c].watches == if op.Exists? && op.node in s.live then {op.node} else {}
  {
  }

  lemma AskedWatches(r: Role)
    requires Shape(r) && r.asked != []
    ensures r.watches == {}
  {
  }

  // ----- a session ends -----

  function Gone(live: map<nat, nat>, c: nat): set<nat> { set q | q in live && live[q] == c }

  /** A session owns one node at most. */
  lemma GoneIsOne(s: System, c: nat)
    requires Inv(s) && c in s.clients
    ensures Gone(s.live, c) == {} || Gone(s.live, c) == {Min(Gone(s.live, c))}
  {
    hide Fifo, Shape;
    assert ClientOk(s.next, s.live, c, s.clients[c]);
  }

  lemma ClosedOk(next: nat, live: map<nat, nat>, c: nat, r: Role)
    requires Shape(r) && View(next, live, c, r)
    ensures Shape(r.(open := false, watches := {}))
    ensures View(next, live - Gone(live, c), c, r.(open := false, watches := {}))
  {
    assert r.(open := false, watches := {}).Node() == r.Node();
  }

  lemma UnwatchedView(next: nat, live: map<nat, nat>, c: nat, d: nat, r: Role)
    requires View(next, live, d, r) && c != d && Gone(live, c) !! r.watches
    ensures View(next, live - Gone(live, c), d, r)
  {
  }

  lemma NotifiedShape(r: Role, q: nat)
    requires Shape(r) && q in r.watches
    ensures Shape(r.(news := r.news + [Deleted(q)], watches := r.watches - {q})) && r.watches == {q} && r.me.Some?
    ensures r.news == [] || r.news == [Stat(true)]
  {
    assert [] + [Deleted(q)] == [Deleted(q)] && [Stat(true)] + [Deleted(q)] == [Stat(true), Deleted(q)];
  }

  lemma NotifiedView(next: nat, live: map<nat, nat>, c: nat, d: nat, r: Role, q: nat)
    requires Shape(r) && View(next, live, d, r) && c != d && Gone(live, c) == {q} && q in r.watches
    ensures View(next, live - Gone(live, c), d, r.(news := r.news + [Deleted(q)], watches := r.watches - {q}))
  {
    hide Shape, Fits, Max, Below;
    NotifiedShape(r, q);
    var live', r' := live - Gone(live, c), r.(news := r.news + [Deleted(q)], watches := r.watches - {q});
    assert |r'.news| == 1 ==> r'.news == [Deleted(q)];
    assert |r'.news| == 2 ==> r'.news == [Stat(true), Deleted(q)];
    assert r'.Node() == r.Node() == r.me;
  }

  lemma NotifiedRole(cl: Client, q: nat)
    requires Fifo(cl.state.pending, cl.toClient, cl.toServer) && q in cl.watches
    ensures var n := Notified(cl, q);
            && Fifo(n.state.pending, n.toClient, n.toServer) && n.state == cl.state
            && RoleOf(n) == RoleOf(cl).(news := RoleOf(cl).news + [Deleted(q)], watches := cl.watches - {q})
  {
    FifoEvent(cl.state.pending, cl.toClient, cl.toServer, q);
    NewsAppend(cl.toClient, Message(WATCHER_EVENT_XID, Deleted(q)));
  }

  lemma ExpireKeeps(s: System, c: nat)
    requires Inv(s) && Enabled(s, Expire(c))
    ensures Inv(Apply(s, Expire(c)))
  {
    hide Fifo, Shape, View, RoleOf, Notified;
    var t, gone := Expired(s, c), Gone(s.live, c);
    GoneIsOne(s, c);
    forall d | d in s.clients ensures ClientOk(t.next, t.live, d, t.clients[d]) {
      var cl := s.clients[d];
      assert ClientOk(s.next, s.live, d, cl);
      OpenRole(cl);
      if d == c {
        ClosedOk(s.next, s.live, c, RoleOf(cl));
        ClosedRole(cl);
      } else if gone == {} || Min(gone) !in cl.watches {
        UnwatchedView(s.next, s.live, c, d, RoleOf(cl));
        NotNotified(cl, gone);
      } else {
        NotifiedRole(cl, Min(gone));
        NotifiedShape(RoleOf(cl), Min(gone));
        NotifiedView(s.next, s.live, c, d, RoleOf(cl), Min(gone));
      }
    }
  }

  lemma ClosedRole(cl: Client)
    ensures RoleOf(cl.(open := false, watches := {})) == RoleOf(cl).(open := false, watches := {})
  {
  }

  lemma NotNotified(cl: Client, gone: set<nat>)
    ensures gone != {} && Min(gone) !in cl.watches ==> Notified(cl, Min(gone)) == cl
  {
  }

  // ----- a packet arrives -----

  /** The client with its first packet taken, and the request it answers no longer pending. */
  function Taken(cl: Client): Client
    requires cl.toClient != []
  {
    var rest := cl.(toClient := cl.toClient[1..]);
    if cl.toClient[0].body.Deleted? || cl.state.pending == [] then rest
    else rest.(state := cl.state.(pending := cl.state.pending[1..]))
  }

  /** What the handler does, on the client with the packet taken. */
  function Reaction(cl: Client): Outcome
    requires cl.toClient != []
  {
    var m, st := cl.toClient[0], Taken(cl).state;
    if m.body.Deleted? then OnNodeDelete(st, m.body.node)
    else if cl.state.pending == [] then Fail else Answer(st, cl.state.pending[0].op, m.body)
  }

  lemma ProcessIsReaction(cl: Client)
    requires cl.toClient != [] && Fifo(cl.state.pending, cl.toClient, cl.toServer)
    ensures var o := Process(cl.state, cl.toClient[0]);
            && o == Reaction(cl)
            && (o.Next? ==> Sent(cl.(toClient := cl.toClient[1..]), o) == Sent(Taken(cl), o))
  {
    var m, c := cl.toClient[0], cl.state;
    if !m.body.Deleted? {
      assert c.pending != [] && c.pending[0].xid == m.xid != WATCHER_EVENT_XID;
      hide Fifo, Max, Min, Below, Above;
      AnswerKeepsRest(c, c.pending[0].op, m.body);
    }
  }

  /** An answer only adds to what is pending, so it does not matter that its own request is dropped afterwards. */
  lemma AnswerKeepsRest(c: State, op: Op, body: Body)
    requires c.pending != []
    ensures var o, o' := Answer(c, op, body), Answer(c.(pending := c.pending[1..]), op, body);
            && o.Next? == o'.Next?
            && (o.Next? ==> o.sent == o'.sent && o.state.pending != []
                            && o'.state == o.state.(pending := o.state.pending[1..]))
  {
    hide Max, Min, Above;
    assert forall r: Request :: (c.pending + [r])[1..] == c.pending[1..] + [r];
  }

  lemma TakenRole(cl: Client)
    requires cl.toClient != [] && Fifo(cl.state.pending, cl.toClient, cl.toServer) && Shape(RoleOf(cl))
    ensures var t, r, body := Taken(cl), RoleOf(cl), cl.toClient[0].body;
            && Fifo(t.state.pending, t.toClient, t.toServer)
            && (if body == Pong then RoleOf(t) == r && cl.state.pending != [] && cl.state.pending[0].op == Ping
                else
                  && r.news != [] && r.news[0] == body
                  && RoleOf(t) == r.(news := r.news[1..], ops := if body.Deleted? then r.ops else [])
                  && (!body.Deleted? ==>
                        cl.state.pending != [] && r.ops == [cl.state.pending[0].op] && Fits(r.ops[0], body)))
  {
    hide Shape;
    var p := cl.state.pending;
    NewsHead(cl.toClient);
    if !cl.toClient[0].body.Deleted? {
      OpsHead(p);
      OneOp(RoleOf(cl));
      assert p[0].op != Ping ==> Ops(p)[0] == p[0].op;
    }
  }

  lemma OneOp(r: Role)
    requires Shape(r)
    ensures |r.ops| <= 1
  {
  }

  lemma NewsHead(ms: seq<Message>)
    requires ms != []
    ensures News(ms) == (if ms[0].body == Pong then [] else [ms[0].body]) + News(ms[1..])
  {
  }

  /** A packet sent adds a request on both sides. */
  lemma SentRole(cl: Client, st: State, op: Op)
    requires Fifo(cl.state.pending, cl.toClient, cl.toServer)
    requires st.pending == cl.state.pending && st.xid >= 0 && op != Ping
    ensures var t := Sent(cl, Send(st, op)); var r := RoleOf(cl);
            && Fifo(t.state.pending, t.toClient, t.toServer) && t.state.xid >= 0
            && RoleOf(t) == r.(ops := r.ops + [op], asked := r.asked + [op], me := st.me, siblings := st.siblings,
                               master := ToldMaster(st.told))
  {
    hide Fifo, Ops, News, ToldMaster;
    var r := Request(st.xid + 1, op);
    FifoSend(cl.state.pending, cl.toClient, cl.toServer, r);
    OpsAppend(cl.state.pending, r);
    OpsAppend(cl.toServer, r);
  }

  /** A client once its closest sibling is gone: it follows the next one, or lists the siblings again. */
  function Following(r: Role, q: nat): Role {
    var low := r.Lower() - {q};
    var op := if low == {} then GetChildren else Exists(Max(low));
    r.(ops := [op], asked := [op], news := [], siblings := r.siblings - {q})
  }

  lemma FollowRole(next: nat, live: map<nat, nat>, c: nat, r: Role, q: nat)
    requires Shape(r) && View(next, live, c, r) && r.me.Some? && r.Lower() != {} && q == Max(r.Lower()) && q !in live
    requires r.news == [Deleted(q)] || r.news == [Stat(false)]
    ensures r.me.value in r.siblings - {q} && r.Lower() - {q} == Below(r.siblings - {q}, r.me.value)
    ensures Shape(Following(r, q)) && View(next, live, c, Following(r, q))
  {
    var low, s := r.Lower() - {q}, r.siblings - {q};
    assert low == Below(s, r.me.value);
  }

  lemma CreatedRole(next: nat, live: map<nat, nat>, c: nat, r: Role, q: nat)
    requires Shape(r) && View(next, live, c, r) && r.ops == [Create] && r.asked == [] && r.news == [Created(q)]
    ensures var r' := r.(ops := [GetChildren], asked := [GetChildren], news := [], me := Some(q));
            r.me == None && Shape(r') && View(next, live, c, r')
  {
  }

  lemma ChildrenRole(next: nat, live: map<nat, nat>, c: nat, r: Role, nodes: set<nat>)
    requires Shape(r) && View(next, live, c, r)
    requires r.ops == [GetChildren] && r.asked == [] && r.news == [Children(nodes)]
    ensures r.me.Some? && r.me.value in nodes
    ensures var low := Below(nodes, r.me.value); var op := if low == {} then GetData else Exists(Max(low));
            var r' := r.(ops := [op], asked := [op], news := [], siblings := nodes);
            && Shape(r') && View(next, live, c, r')
  {
  }

  lemma DataRole(next: nat, live: map<nat, nat>, c: nat, r: Role)
    requires Shape(r) && View(next, live, c, r) && r.ops == [GetData] && r.asked == [] && r.news == [Data]
    ensures r.me.Some? && r.me.value in r.siblings
    ensures var r' := r.(ops := [], news := [], master := true); Shape(r') && View(next, live, c, r')
  {
  }

  lemma FoundRole(next: nat, live: map<nat, nat>, c: nat, r: Role, q: nat)
    requires Shape(r) && View(next, live, c, r) && r.ops == [Exists(q)] && r.asked == [] && r.news != []
    requires r.news[0] == Stat(true)
    ensures r.siblings != {} && !r.master
    ensures var r' := r.(ops := [], news := r.news[1..]); Shape(r') && View(next, live, c, r')
  {
    var r' := r.(ops := [], news := r.news[1..]);
    assert |r.news| == 1 ==> r'.news == [];
    assert |r.news| == 2 ==> r'.news == [Deleted(q)];
    assert forall i :: 0 <= i < |r'.news| ==> r'.news[i] == r.news[i + 1];
  }

  /** What the news does to a client, in terms of its role. */
  function Reacting(r: Role, body: Body): Role
    requires r.news != []
  {
    match body
    case Pong => r
    case Created(q) => r.(ops := [GetChildren], asked := [GetChildren], news := [], me := Some(q))
    case Children(nodes) =>
      var op :=
        if r.me == None || Below(nodes, r.me.value) == {} then GetData else Exists(Max(Below(nodes, r.me.value)));
      r.(ops := [op], asked := [op], news := [], siblings := nodes)
    case Data => r.(ops := [], news := [], master := true)
    case Stat(found) =>
      if found || |r.ops| != 1 || !r.ops[0].Exists? then r.(ops := [], news := r.news[1..])
      else Following(r, r.ops[0].node)
    case Deleted(q) => Following(r, q)
  }

  /** Nothing the server sends makes a handler fail, and the invariant of the client survives. */
  lemma DeliverGone(next: nat, live: map<nat, nat>, c: nat, cl: Client, q: nat)
    requires ClientOk(next, live, c, cl) && cl.toClient != []
    requires cl.toClient[0].body == Deleted(q)
             || (cl.toClient[0].body == Stat(false) && RoleOf(cl).ops == [Exists(q)])
    ensures var o := Reaction(cl); o.Next? && ClientOk(next, live, c, Sent(Taken(cl), o))
                                   && RoleOf(Sent(Taken(cl), o)) == Following(RoleOf(cl), q)
  {
    hide Fifo, View, Taken, Max;
    var t, r := Taken(cl), RoleOf(cl);
    TakenRole(cl);
    TakenState(cl);
    GoneNews(next, live, c, r, q);
    hide Shape, RoleOf;
    FollowRole(next, live, c, r, q);
    var st := t.state.(siblings := t.state.siblings - {q});
    var low := Below(st.siblings, r.me.value);
    var op := if low == {} then GetChildren else Exists(Max(low));
    assert Reaction(cl) == Follow(st) == Send(st, op);
    SentRole(t, st, op);
    assert [] + [op] == [op] && r.news[1..] == [];
    assert RoleOf(Sent(t, Send(st, op))) == Following(r, q);
  }

  lemma TakenState(cl: Client)
    requires cl.toClient != []
    ensures Taken(cl).state == cl.state.(pending := Taken(cl).state.pending)
    ensures RoleOf(cl).me == cl.state.me && RoleOf(cl).siblings == cl.state.siblings
    ensures RoleOf(cl).master == ToldMaster(cl.state.told)
  {
  }

  lemma GoneNews(next: nat, live: map<nat, nat>, c: nat, r: Role, q: nat)
    requires Shape(r) && View(next, live, c, r) && r.news != []
    requires r.news[0] == Deleted(q) || (r.news[0] == Stat(false) && r.ops == [Exists(q)])
    ensures r.news == [r.news[0]] && r.me.Some? && r.Lower() != {} && q == Max(r.Lower()) && q !in live
    ensures r.asked == [] && !r.master && (r.news == [Deleted(q)] || r.news == [Stat(false)])
  {
  }

  lemma DeliverAnswer(next: nat, live: map<nat, nat>, c: nat, cl: Client)
    requires ClientOk(next, live, c, cl) && cl.toClient != []
    requires !cl.toClient[0].body.Deleted? && cl.toClient[0].body != Stat(false)
    ensures var o := Reaction(cl); o.Next? && ClientOk(next, live, c, Sent(Taken(cl), o))
    ensures if cl.toClient[0].body == Pong then RoleOf(Sent(Taken(cl), Reaction(cl))) == RoleOf(cl)
            else RoleOf(cl).news != [] && RoleOf(cl).news[0] == cl.toClient[0].body
                 && RoleOf(Sent(Taken(cl), Reaction(cl))) == Reacting(RoleOf(cl), cl.toClient[0].body)
  {
    hide Fifo, View, Taken, Max, Ops, News, ToldMaster, Below, Shape, RoleOf, Answer, Reacting;
    var t, body := Taken(cl), cl.toClient[0].body;
    TakenRole(cl);
    TakenState(cl);
    match body {
      case Pong =>
        AnswerPong(t);
      case Created(_) =>
        DeliverCreated(next, live, c, cl, t);
      case Children(_) =>
        DeliverChildren(next, live, c, cl, t);
      case Data =>
        DeliverCallback(next, live, c, cl, t);
      case Stat(_) =>
        DeliverCallback(next, live, c, cl, t);
    }
  }

  lemma AnswerPong(t: Client)
    ensures Answer(t.state, Ping, Pong) == Next(t.state, []) && Sent(t, Next(t.state, [])) == t
  {
  }

  /** cl with its first packet, which is an answer, and t with that packet taken. */
  ghost predicate Answers(next: nat, live: map<nat, nat>, c: nat, cl: Client, t: Client) {
    && ClientOk(next, live, c, cl) && Fifo(t.state.pending, t.toClient, t.toServer) && cl.toClient != []
    && t.state == cl.state.(pending := t.state.pending) && cl.state.pending != []
    && var r, body := RoleOf(cl), cl.toClient[0].body;
      && r.news != [] && r.news[0] == body && body != Pong && r.ops == [cl.state.pending[0].op] && Fits(r.ops[0], body)
      && RoleOf(t) == r.(news := r.news[1..], ops := [])
  }

  lemma DeliverCreated(next: nat, live: map<nat, nat>, c: nat, cl: Client, t: Client)
    requires Answers(next, live, c, cl, t) && cl.toClient[0].body.Created?
    ensures var o := Answer(t.state, cl.state.pending[0].op, cl.toClient[0].body);
            && o.Next? && ClientOk(next, live, c, Sent(t, o))
            && RoleOf(Sent(t, o)) == Reacting(RoleOf(cl), cl.toClient[0].body)
  {
    hide Fifo, View, Taken, Max, Ops, News, ToldMaster, Below, Shape;
    var r, q := RoleOf(cl), cl.toClient[0].body.node;
    OneNews(r);
    CreatedRole(next, live, c, r, q);
    SentRole(t, t.state.(me := Some(q)), GetChildren);
    assert [] + [GetChildren] == [GetChildren];
  }

  lemma DeliverChildren(next: nat, live: map<nat, nat>, c: nat, cl: Client, t: Client)
    requires Answers(next, live, c, cl, t) && cl.toClient[0].body.Children?
    ensures var o := Answer(t.state, cl.state.pending[0].op, cl.toClient[0].body);
            && o.Next? && ClientOk(next, live, c, Sent(t, o))
            && RoleOf(Sent(t, o)) == Reacting(RoleOf(cl), cl.toClient[0].body)
  {
    hide Fifo, View, Taken, Max, Ops, News, ToldMaster, Below, Shape;
    var r, nodes := RoleOf(cl), cl.toClient[0].body.nodes;
    OneNews(r);
    ChildrenRole(next, live, c, r, nodes);
    var low := Below(nodes, r.me.value);
    var op := if low == {} then GetData else Exists(Max(low));
    SentRole(t, t.state.(siblings := nodes), op);
    assert [] + [op] == [op];
  }

  lemma DeliverCallback(next: nat, live: map<nat, nat>, c: nat, cl: Client, t: Client)
    requires Answers(next, live, c, cl, t) && (cl.toClient[0].body == Data || cl.toClient[0].body == Stat(true))
    ensures var o := Answer(t.state, cl.state.pending[0].op, cl.toClient[0].body);
            && o.Next? && ClientOk(next, live, c, Sent(t, o))
            && RoleOf(Sent(t, o)) == Reacting(RoleOf(cl), cl.toClient[0].body)
  {
    hide Fifo, View, Taken, Max, Min, Ops, News, ToldMaster, Below, Above, Shape;
    var r := RoleOf(cl);
    OneNews(r);
    assert r.me == t.state.me && r.siblings == t.state.siblings;
    if cl.toClient[0].body == Data {
      DataRole(next, live, c, r);
      SilentRole(t, BecomeMaster(Above(t.state.siblings, r.me.value)));
    } else {
      FoundRole(next, live, c, r, r.ops[0].node);
      SilentRole(t, BecomeSlave(Min(t.state.siblings)));
    }
  }

  lemma OneNews(r: Role)
    requires Shape(r) && r.ops != [] && r.news != []
    ensures r.asked == [] && Fits(r.ops[0], r.news[0])
    ensures r.news[0] != Stat(true) ==> r.news == [r.news[0]] && r.news[1..] == []
  {
  }

  /** A handler that only calls back. */
  lemma SilentRole(cl: Client, call: Callback)
    requires Fifo(cl.state.pending, cl.toClient, cl.toServer) && cl.state.xid >= 0
    ensures var t := Sent(cl, Next(cl.state.(told := cl.state.told + [call]), []));
            && Fifo(t.state.pending, t.toClient, t.toServer) && t.state.xid >= 0
            && RoleOf(t) == RoleOf(cl).(master := RoleOf(cl).master || call.BecomeMaster?)
  {
    hide Fifo, Ops, News;
    var told, told' := cl.state.told, cl.state.told + [call];
    assert cl.toServer + [] == cl.toServer;
    assert told'[|told|] == call;
    assert forall i :: 0 <= i < |told| ==> told'[i] == told[i];
  }

  lemma DeliverKeeps(s: System, c: nat)
    requires Inv(s) && Enabled(s, Deliver(c))
    ensures Inv(Apply(s, Deliver(c)))
    ensures Process(s.clients[c].state, s.clients[c].toClient[0]).Next?
    ensures var t, r, body := Apply(s, Deliver(c)), RoleOf(s.clients[c]), s.clients[c].toClient[0].body;
            && t == s.(clients := s.clients[c := t.clients[c]])
            && if body == Pong then RoleOf(t.clients[c]) == r
               else r.news != [] && r.news[0] == body && RoleOf(t.clients[c]) == Reacting(r, body)
  {
    hide Fifo, Shape, View, RoleOf, Taken, Process, Following;
    var cl := s.clients[c];
    assert ClientOk(s.next, s.live, c, cl);
    ProcessIsReaction(cl);
    TakenRole(cl);
    var body := cl.toClient[0].body;
    if body.Deleted? {
      DeliverGone(s.next, s.live, c, cl, body.node);
    } else if body == Stat(false) {
      DeliverGone(s.next, s.live, c, cl, RoleOf(cl).ops[0].node);
    } else {
      DeliverAnswer(s.next, s.live, c, cl);
    }
  }

  // ----- what holds in every run -----

  /** The states a run goes through. */
  ghost predicate IsRun(states: seq<System>, steps: seq<Step>) {
    && |states| == |steps| + 1 && states[0] == Init()
    && forall i :: 0 <= i < |steps| ==> Enabled(states[i], steps[i]) && states[i + 1] == Apply(states[i], steps[i])
  }

  lemma StepKeeps(s: System, step: Step)
    requires Inv(s) && Enabled(s, step)
    ensures Inv(Apply(s, step))
  {
    match step
    case Connect(c) => ConnectKeeps(s, c);
    case Timer(c) => TimerKeeps(s, c);
    case Serve(c) => ServeKeeps(s, c);
    case Deliver(c) => DeliverKeeps(s, c);
    case Expire(c) => ExpireKeeps(s, c);
  }

  lemma {:induction false} RunKeeps(states: seq<System>, steps: seq<Step>, k: nat)
    requires IsRun(states, steps) && k < |states|
    ensures Inv(states[k])
    decreases k
  {
    hide Apply, Enabled, ClientOk;
    if k > 0 {
      RunKeeps(states, steps, k - 1);
      StepKeeps(states[k - 1], steps[k - 1]);
    }
  }

  /** Client c has been told that it is master, and the node it was told so for exists. */
  predicate Reigns(s: System, c: nat) {
    c in s.clients && ToldMaster(s.clients[c].state.told) && exists q :: q in s.live && s.live[q] == c
  }

  /** A run of one client in which it comes to reign. */
  lemma FirstReigns() returns (states: seq<System>, steps: seq<Step>)
    ensures IsRun(states, steps) && Reigns(states[|steps|], 0)
  {
    var create, list, data := Request(1, Create), Request(2, GetChildren), Request(3, GetData);
    var c1 := Client(State(1, [create], None, {}, []), [create], [], true, {});
    var c2 := c1.(toServer := [], toClient := [Message(1, Created(0))]);
    var c3 := Client(State(2, [list], Some(0), {}, []), [list], [], true, {});
    var c4 := c3.(toServer := [], toClient := [Message(2, Children({0}))]);
    var c5 := Client(State(3, [data], Some(0), {0}, []), [data], [], true, {});
    var c6 := c5.(toServer := [], toClient := [Message(3, Data)]);
    var c7 := Client(State(3, [], Some(0), {0}, [BecomeMaster({})]), [], [], true, {});
    hide Apply, Enabled, Process;
    FirstConnects(create);
    FirstHears(create, list, data);
    FirstDelivers(c2, c3);
    FirstServed(c3, list, Children({0}));
    FirstDelivers(c4, c5);
    FirstServed(c5, data, Data);
    FirstDelivers(c6, c7);
    hide IsRun, ToldMaster;
    states, steps := [Init()], [];
    FirstState();
    states, steps := RunOn(states, steps, Connect(0));
    states, steps := RunOn(states, steps, Serve(0));
    states, steps := RunOn(states, steps, Deliver(0));
    states, steps := RunOn(states, steps, Serve(0));
    states, steps := RunOn(states, steps, Deliver(0));
    states, steps := RunOn(states, steps, Serve(0));
    states, steps := RunOn(states, steps, Deliver(0));
    FirstRules(c7);
  }

  lemma FirstState()
    ensures IsRun([Init()], [])
  {
  }

  lemma FirstRules(cl: Client)
    requires cl.state.told == [BecomeMaster({})]
    ensures Reigns(Alone(cl), 0)
  {
    assert cl.state.told[0].BecomeMaster? && 0 in Alone(cl).live;
  }

  lemma RunOn(states0: seq<System>, steps0: seq<Step>, step: Step) returns (states: seq<System>, steps: seq<Step>)
    requires IsRun(states0, steps0) && Enabled(states0[|steps0|], step)
    ensures IsRun(states, steps) && states[|steps|] == Apply(states0[|steps0|], step)
  {
    hide Apply, Enabled;
    states, steps := states0 + [Apply(states0[|steps0|], step)], steps0 + [step];
  }

  /** The first client, with its node 0. */
  function Alone(cl: Client): System { System(1, map[0 := 0], map[0 := cl]) }

  lemma FirstHears(create: Request, list: Request, data: Request)
    requires create == Request(1, Create) && list == Request(2, GetChildren) && data == Request(3, GetData)
    ensures Process(State(1, [create], None, {}, []), Message(1, Created(0)))
            == Next(State(2, [list], Some(0), {}, []), [list])
    ensures Process(State(2, [list], Some(0), {}, []), Message(2, Children({0})))
            == Next(State(3, [data], Some(0), {0}, []), [data])
    ensures Process(State(3, [data], Some(0), {0}, []), Message(3, Data))
            == Next(State(3, [], Some(0), {0}, [BecomeMaster({})]), [])
  {
    assert Above({0}, 0) == {} && Below({0}, 0) == {};
  }

  lemma FirstConnects(create: Request)
    requires create == Request(1, Create)
    ensures var cl := Client(State(1, [create], None, {}, []), [create], [], true, {});
            var s := System(0, map[], map[0 := cl]);
            && Enabled(Init(), Connect(0)) && Apply(Init(), Connect(0)) == s
            && Enabled(s, Serve(0))
            && Apply(s, Serve(0)) == Alone(cl.(toServer := [], toClient := [Message(1, Created(0))]))
  {
    var m := Message(1, Created(0));
    assert [create][1..] == [] && [] + [create] == [create] && [] + [m] == [m];
    assert Init().live[0 := 0] == map[0 := 0];
  }

  lemma FirstServed(cl: Client, r: Request, body: Body)
    requires cl.toServer == [r] && cl.toClient == [] && cl.open
    requires (r.op, body) in {(GetChildren, Children({0})), (GetData, Data)}
    ensures Enabled(Alone(cl), Serve(0))
    ensures Apply(Alone(cl), Serve(0)) == Alone(cl.(toServer := [], toClient := [Message(r.xid, body)]))
  {
    var m := Message(r.xid, body);
    assert map[0 := 0].Keys == {0};
    assert cl.toServer[1..] == [] && cl.toClient + [m] == [m];
  }

  lemma FirstDelivers(cl: Client, t: Client)
    requires |cl.toClient| == 1 && cl.toServer == [] && Process(cl.state, cl.toClient[0]) == Next(t.state, t.toServer)
    requires t == Client(t.state, t.toServer, [], cl.open, cl.watches)
    ensures Enabled(Alone(cl), Deliver(0)) && Apply(Alone(cl), Deliver(0)) == Alone(t)
  {
    assert cl.toClient[1..] == [] && [] + t.toServer == t.toServer;
  }

  /** Whoever reigns, in any run, owns the least of all nodes. */
  lemma MasterIsLeast(states: seq<System>, steps: seq<Step>, k: nat, c: nat, q: nat)
    requires IsRun(states, steps) && k < |states| && c in states[k].clients
    requires ToldMaster(states[k].clients[c].state.told) && q in states[k].live && states[k].live[q] == c
    ensures states[k].clients[c].state.me == Some(q) && forall p :: p in states[k].live ==> q <= p
  {
    hide IsRun, Fifo, ToldMaster, Shape, View, Ops, News;
    RunKeeps(states, steps, k);
    var s := states[k];
    assert ClientOk(s.next, s.live, c, s.clients[c]);
    MasterRole(s.next, s.live, c, RoleOf(s.clients[c]), q);
  }

  lemma MasterRole(next: nat, live: map<nat, nat>, c: nat, r: Role, q: nat)
    requires Shape(r) && View(next, live, c, r) && r.master && q in live && live[q] == c
    ensures r.me == Some(q) && forall p :: p in live ==> q <= p
  {
    assert forall p :: p in live && p < q ==> p in r.Lower();
  }

  /** Election safety: in every run, two clients never reign at the same time. */
  lemma OneMaster(states: seq<System>, steps: seq<Step>, k: nat, c: nat, d: nat)
    requires IsRun(states, steps) && k < |states| && Reigns(states[k], c) && Reigns(states[k], d)
    ensures c == d
  {
    hide IsRun, ToldMaster;
    var s := states[k];
    var p :| p in s.live && s.live[p] == c;
    var q :| q in s.live && s.live[q] == d;
    MasterIsLeast(states, steps, k, c, p);
    MasterIsLeast(states, steps, k, d, q);
  }

  /** No handler ever fails: no reply finds the wrong request, and no assert of the program is violated. */
  lemma NoHandlerFails(states: seq<System>, steps: seq<Step>, k: nat, c: nat)
    requires IsRun(states, steps) && k < |states| && c in states[k].clients && states[k].clients[c].toClient != []
    ensures Process(states[k].clients[c].state, states[k].clients[c].toClient[0]).Next?
  {
    RunKeeps(states, steps, k);
    hide Process, ClientOk;
    DeliverKeeps(states[k], c);
  }

  /** The packets about the election that are under way for a client: its request, or what it will be told. */
  predicate UnderWay(cl: Client) { Ops(cl.toServer) != [] || News(cl.toClient) != [] }

  /** The client watches the closest node below its own, which exists. */
  ghost predicate WatchesBelow(s: System, cl: Client) {
    cl.state.me.Some? && exists q :: cl.watches == {q} && IsClosestBelow(s.live, q, cl.state.me.value)
  }

  predicate IsClosestBelow(live: map<nat, nat>, q: nat, me: nat) {
    q in live && q < me && forall p :: p in live && p < me ==> p <= q
  }

  /** No lost takeover, in any run: a client with a session that is not master yet has a packet under way, or its watch
      stands. */
  lemma NoLostTakeover(states: seq<System>, steps: seq<Step>, k: nat, c: nat)
    requires IsRun(states, steps) && k < |states| && c in states[k].clients
    requires states[k].clients[c].open && !ToldMaster(states[k].clients[c].state.told)
    ensures UnderWay(states[k].clients[c]) || WatchesBelow(states[k], states[k].clients[c])
  {
    hide IsRun, Fifo, ToldMaster, Ops, News, Shape, View;
    RunKeeps(states, steps, k);
    var s := states[k];
    var cl := s.clients[c];
    assert ClientOk(s.next, s.live, c, cl);
    if !UnderWay(cl) {
      WaitingRole(s.next, s.live, c, RoleOf(cl));
    }
  }

  lemma WaitingRole(next: nat, live: map<nat, nat>, c: nat, r: Role)
    requires Shape(r) && View(next, live, c, r) && r.open && !r.master && r.asked == [] && r.news == []
    ensures r.me.Some? && r.Lower() != {} && r.watches == {Max(r.Lower())}
    ensures IsClosestBelow(live, Max(r.Lower()), r.me.value)
  {
    assert r.watches == {Max(r.Lower())};
    assert forall p :: p in live && p < r.me.value ==> p in r.Lower();
  }

  /** When nothing is under way, the owner of the least node is master, and every other client watches the node right
      below its own. */
  lemma Settled(states: seq<System>, steps: seq<Step>, k: nat, c: nat)
    requires IsRun(states, steps) && k < |states| && c in states[k].clients
    requires states[k].clients[c].open && !UnderWay(states[k].clients[c])
    ensures var s := states[k];
            var cl := s.clients[c];
            && cl.state.me.Some? && cl.state.me.value in s.live && s.live[cl.state.me.value] == c
            && (ToldMaster(cl.state.told) <==> forall p :: p in s.live ==> cl.state.me.value <= p)
            && (ToldMaster(cl.state.told) || WatchesBelow(s, cl))
  {
    hide IsRun, Fifo, ToldMaster;
    RunKeeps(states, steps, k);
    var s := states[k];
    var cl := s.clients[c];
    assert ClientOk(s.next, s.live, c, cl);
    assert cl.state.me.Some?;
    if ToldMaster(cl.state.told) {
      MasterIsLeast(states, steps, k, c, cl.state.me.value);
    } else {
      NoLostTakeover(states, steps, k, c);
    }
  }

  // ----- how a takeover ends -----

  /** The news that a node is gone takes exactly that node from the lower siblings of the client it reaches. */
  lemma DeleteLowers(states: seq<System>, steps: seq<Step>, k: nat, c: nat)
    requires IsRun(states, steps) && k < |steps| && steps[k] == Deliver(c)
    requires Enabled(states[k], steps[k])
    requires var body := states[k].clients[c].toClient[0].body; body.Deleted? || body == Stat(false)
    ensures c in states[k + 1].clients
    ensures var before, after := RoleOf(states[k].clients[c]), RoleOf(states[k + 1].clients[c]);
            && before.Lower() != {} && after.Lower() == before.Lower() - {Max(before.Lower())}
            && |after.Lower()| == |before.Lower()| - 1
            && after.ops == [if after.Lower() == {} then GetChildren else Exists(Max(after.Lower()))]
  {
    hide Fifo, View, Process, Shape, RoleOf, Taken, Ops, News, Apply, ClientOk;
    RunKeeps(states, steps, k);
    var s := states[k];
    var cl := s.clients[c];
    ClientIsOk(s, c);
    DeliverKeeps(s, c);
    TakenRole(cl);
    var body, r := cl.toClient[0].body, RoleOf(cl);
    var q := if body.Deleted? then body.node else r.ops[0].node;
    GoneNews(s.next, s.live, c, r, q);
    FollowRole(s.next, s.live, c, r, q);
  }

  lemma ClientIsOk(s: System, c: nat)
    requires Inv(s) && c in s.clients
    ensures var cl := s.clients[c];
            Fifo(cl.state.pending, cl.toClient, cl.toServer) && Shape(RoleOf(cl)) && View(s.next, s.live, c, RoleOf(cl))
  {
    hide Fifo, View, Shape, RoleOf;
    assert ClientOk(s.next, s.live, c, s.clients[c]);
  }

  /** A client that lists its siblings because none is left below it finds itself the least, and asks to be master. */
  lemma RelistedAsLeast(states: seq<System>, steps: seq<Step>, k: nat, c: nat)
    requires IsRun(states, steps) && k < |steps| && steps[k] == Deliver(c)
    requires Enabled(states[k], steps[k])
    requires states[k].clients[c].toClient[0].body.Children? && states[k].clients[c].state.siblings != {}
    ensures c in states[k + 1].clients && RoleOf(states[k + 1].clients[c]).ops == [GetData]
  {
    hide Fifo, Process, Apply, Taken, Ops, News;
    RunKeeps(states, steps, k);
    var s := states[k];
    var cl := s.clients[c];
    assert ClientOk(s.next, s.live, c, cl);
    DeliverKeeps(s, c);
    TakenRole(cl);
    OneNews(RoleOf(cl));
  }

  /** How many packets about the election can still be served or delivered to a client while no node disappears, and
      no sequence number reaches cap. */
  function Work(r: Role, cap: nat): nat
    requires Shape(r)
  {
    var low := 2 * |r.Lower()|;
    if r.ops == [] then (if r.news == [] then 0 else low + 5)
    else match r.ops[0]
      case Create => if r.asked != [] then 2 * cap + 10 else 2 * r.news[0].node + 9
      case GetChildren =>
        if r.siblings != {} then (if r.asked != [] then 6 else 5)
        else if r.asked != [] then 2 * r.me.value + 8 else 2 * |Below(r.news[0].nodes, r.me.value)| + 7
      case GetData => if r.asked != [] then 2 else 1
      case _ => if |r.news| == 1 then low + 5 else low + 6
  }

  lemma {:induction false} FewBelow(s: set<nat>, k: nat)
    ensures |Below(s, k)| <= k
  {
    if k > 0 {
      FewBelow(s, k - 1);
      assert Below(s, k) <= Below(s, k - 1) + {k - 1};
      SubsetCount(Below(s, k), Below(s, k - 1) + {k - 1});
    }
  }

  lemma {:induction false} SubsetCount(a: set<nat>, b: set<nat>)
    requires a <= b
    ensures |a| <= |b|
  {
    if a != {} {
      var x :| x in a;
      SubsetCount(a - {x}, b - {x});
    }
  }

  lemma ServedWork(s: System, r: Role, op: Op, watches: set<nat>, cap: nat)
    requires Shape(r) && r.asked == r.ops == [op] && r.news == [] && (op == Create ==> s.next < cap)
    requires Shape(r.(asked := [], news := [AnswerTo(s, op)], watches := watches))
    ensures Work(r.(asked := [], news := [AnswerTo(s, op)], watches := watches), cap) < Work(r, cap)
  {
    if op == GetChildren {
      FewBelow(s.live.Keys, r.me.value);
    }
  }

  lemma DeliveredWork(next: nat, live: map<nat, nat>, c: nat, r: Role, cap: nat)
    requires Shape(r) && View(next, live, c, r) && r.news != [] && Shape(Reacting(r, r.news[0]))
    ensures Work(Reacting(r, r.news[0]), cap) < Work(r, cap)
  {
    if r.news[0].Deleted? || (r.news[0] == Stat(false) && r.ops[0].Exists?) {
      var q := if r.news[0].Deleted? then r.news[0].node else r.ops[0].node;
      GoneNews(next, live, c, r, q);
      FollowRole(next, live, c, r, q);
    }
  }

  function ClientWork(cl: Client, cap: nat): nat { if Shape(RoleOf(cl)) then Work(RoleOf(cl), cap) else 0 }

  /** The work of all clients numbered below k. */
  function Total(clients: map<nat, Client>, cap: nat, k: nat): nat {
    if k == 0 then 0
    else Total(clients, cap, k - 1) + if k - 1 in clients then ClientWork(clients[k - 1], cap) else 0
  }

  function Creates(cl: Client): nat { if RoleOf(cl).asked == [Create] then 1 else 0 }

  /** How many of them still wait for the server to make their node. */
  function Unserved(clients: map<nat, Client>, k: nat): nat {
    if k == 0 then 0 else Unserved(clients, k - 1) + if k - 1 in clients then Creates(clients[k - 1]) else 0
  }

  lemma {:induction false} TotalChange(clients: map<nat, Client>, c: nat, cl: Client, cap: nat, k: nat)
    requires c in clients
    ensures Total(clients[c := cl], cap, k)
            == Total(clients, cap, k) + if c < k then ClientWork(cl, cap) - ClientWork(clients[c], cap) else 0
    ensures Unserved(clients[c := cl], k)
            == Unserved(clients, k) + if c < k then Creates(cl) - Creates(clients[c]) else 0
  {
    hide ClientWork, Creates;
    if k > 0 {
      TotalChange(clients, c, cl, cap, k - 1);
    }
  }

  lemma {:induction false} UnservedAny(clients: map<nat, Client>, c: nat, k: nat)
    requires c in clients && c < k
    ensures Unserved(clients, k) >= Creates(clients[c])
  {
    if c < k - 1 {
      UnservedAny(clients, c, k - 1);
    }
  }

  /** A step that moves a packet about the election. */
  predicate Moves(s: System, step: Step) {
    match step
    case Serve(c) => c in s.clients && s.clients[c].toServer != [] && s.clients[c].toServer[0].op != Ping
    case Deliver(c) => c in s.clients && s.clients[c].toClient != [] && s.clients[c].toClient[0].body != Pong
    case _ => false
  }

  /** Clients are numbered below k, and no sequence number will reach cap. */
  ghost predicate Within(s: System, cap: nat, k: nat) {
    (forall c :: c in s.clients ==> c < k) && s.next + Unserved(s.clients, k) <= cap
  }

  /** Every such step costs some of the work that is left, and no ping adds to it. */
  lemma StepWorks(s: System, step: Step, cap: nat, k: nat)
    requires Within(s, cap, k) && Inv(s) && Enabled(s, step) && !step.Connect? && !step.Expire?
    ensures var t := Apply(s, step);
            && Within(t, cap, k) && Inv(t)
            && Total(t.clients, cap, k) + (if Moves(s, step) then 1 else 0) <= Total(s.clients, cap, k)
  {
    hide Fifo, Shape, View, RoleOf, Apply, Reacting, AnswerTo, Work, Process, Total, Unserved;
    var t := Apply(s, step);
    StepKeeps(s, step);
    var c := step.c;
    var cl := s.clients[c];
    assert ClientOk(s.next, s.live, c, cl);
    match step {
      case Timer(_) =>
        TimerKeeps(s, c);
      case Serve(_) =>
        ServeKeeps(s, c);
        ServeApplies(s, c);
      case Deliver(_) =>
        DeliverKeeps(s, c);
    }
    assert ClientOk(t.next, t.live, c, t.clients[c]);
    TotalChange(s.clients, c, t.clients[c], cap, k);
    UnservedAny(s.clients, c, k);
    if Moves(s, step) {
      if step.Serve? {
        ServedWork(s, RoleOf(cl), cl.toServer[0].op, t.clients[c].watches, cap);
      } else {
        DeliveredWork(s.next, s.live, c, RoleOf(cl), cap);
        ReactingCreates(RoleOf(cl), cl.toClient[0].body);
      }
    }
  }

  lemma ReactingCreates(r: Role, body: Body)
    requires Shape(r) && r.news != [] && r.news[0] == body
    ensures Reacting(r, body).asked != [Create]
  {
  }

  ghost predicate IsCalm(states: seq<System>, steps: seq<Step>) {
    && |states| == |steps| + 1
    && forall i :: 0 <= i < |steps| ==>
         && Enabled(states[i], steps[i]) && !steps[i].Connect? && !steps[i].Expire?
         && states[i + 1] == Apply(states[i], steps[i])
  }

  function Moved(states: seq<System>, steps: seq<Step>): nat
    requires |states| >= |steps|
  {
    if steps == [] then 0 else (if Moves(states[0], steps[0]) then 1 else 0) + Moved(states[1..], steps[1..])
  }

  /** A takeover ends: while no client comes or goes, only a bounded number of packets about the election can be
      moved, whatever the order and however many pings are sent. */
  lemma {:induction false} TakeoverEnds(states: seq<System>, steps: seq<Step>, cap: nat, k: nat)
    requires IsCalm(states, steps) && Within(states[0], cap, k) && Inv(states[0])
    ensures Moved(states, steps) <= Total(states[0].clients, cap, k)
    decreases |steps|
  {
    hide Enabled, Apply, Moves, ClientOk, Unserved, Total, Within;
    if steps != [] {
      StepWorks(states[0], steps[0], cap, k);
      assert states[1] == Apply(states[0], steps[0]);
      forall i | 0 <= i < |steps| - 1
        ensures var st, s, t := steps[1..][i], states[1..][i], states[1..][i + 1];
                Enabled(s, st) && !st.Connect? && !st.Expire? && t == Apply(s, st)
      {
        assert steps[1..][i] == steps[i + 1] && states[1..][i] == states[i + 1];
      }
      TakeoverEnds(states[1..], steps[1..], cap, k);
    }
  }
}
