/** What the callbacks of QSentinel/zookeeper/ZookeeperConn.cc tell the members of an election, in every run. */
module ElectionCalls {
  import opened Options
  import opened ZookeeperConn
  import opened Election

  // ----- what one packet makes a client call -----

  /** The news of its closest sibling makes the client call back with m. */
  ghost predicate IsFirst(m: nat, me: Option<nat>, siblings: set<nat>, live: map<nat, nat>) {
    me.Some? && m in siblings && m < me.value && forall q :: q in siblings || q in live ==> m <= q
  }

  ghost predicate IsAbove(slaves: set<nat>, me: Option<nat>, nodes: set<nat>) {
    me.Some? && forall q :: q in slaves <==> q in nodes && q > me.value
  }

  /** What is called on the arrival of a packet. */
  ghost predicate Calls(cl: Client, live: map<nat, nat>, told: seq<Callback>)
    requires cl.toClient != []
  {
    var body, st := cl.toClient[0].body, cl.state;
    if body == Stat(true) then
      exists m :: IsFirst(m, st.me, st.siblings, live) && told == st.told + [BecomeSlave(m)]
    else if body == Data then
      exists slaves :: IsAbove(slaves, st.me, st.siblings) && told == st.told + [BecomeMaster(slaves)]
    else told == st.told
  }

  lemma ArrivalCalls(next: nat, live: map<nat, nat>, c: nat, cl: Client)
    requires ClientOk(next, live, c, cl) && cl.toClient != []
    requires Process(cl.state, cl.toClient[0]).Next?
    ensures Calls(cl, live, Process(cl.state, cl.toClient[0]).state.told)
  {
    hide Fifo, View, Shape, RoleOf, Max, Process, IsFirst, IsAbove;
    TakenRole(cl);
    TakenState(cl);
    AnswerXid(cl);
    var st, body := cl.state, cl.toClient[0].body;
    if body == Stat(true) {
      FoundFirst(next, live, c, RoleOf(cl), st);
      FoundCalls(cl);
    } else if body == Data {
      DataCalls(cl);
      AboveIs(st.siblings, st.me.value);
    } else {
      OtherCalls(cl);
    }
  }

  lemma AnswerXid(cl: Client)
    requires cl.toClient != [] && Fifo(cl.state.pending, cl.toClient, cl.toServer)
    ensures !cl.toClient[0].body.Deleted? ==> cl.toClient[0].xid != WATCHER_EVENT_XID
  {
  }

  lemma AboveIs(nodes: set<nat>, me: nat)
    ensures IsAbove(Above(nodes, me), Some(me), nodes)
  {
  }

  lemma FoundFirst(next: nat, live: map<nat, nat>, c: nat, r: Role, st: State)
    requires Shape(r) && View(next, live, c, r) && r.me == st.me && r.siblings == st.siblings
    requires r.news != [] && r.news[0] == Stat(true) && |r.ops| == 1 && r.ops[0].Exists?
    ensures st.siblings != {} && IsFirst(Min(st.siblings), st.me, st.siblings, live)
  {
    var m := Max(r.Lower());
    assert m in st.siblings && m < st.me.value;
    assert forall q :: q in live && q < st.me.value ==> q in st.siblings;
  }

  lemma FoundCalls(cl: Client)
    requires cl.toClient != [] && cl.toClient[0].body == Stat(true) && cl.state.siblings != {}
    requires Process(cl.state, cl.toClient[0]).Next? && cl.toClient[0].xid != WATCHER_EVENT_XID
    ensures Process(cl.state, cl.toClient[0]).state.told == cl.state.told + [BecomeSlave(Min(cl.state.siblings))]
  {
    hide OnNodeDelete, Min, Max;
  }

  lemma DataCalls(cl: Client)
    requires cl.toClient != [] && cl.toClient[0].body == Data
    requires Process(cl.state, cl.toClient[0]).Next? && cl.toClient[0].xid != WATCHER_EVENT_XID
    ensures var st := cl.state;
            && st.me.Some?
            && Process(st, cl.toClient[0]).state.told == st.told + [BecomeMaster(Above(st.siblings, st.me.value))]
  {
    hide OnNodeDelete, Above, Min, Max;
  }

  lemma OtherCalls(cl: Client)
    requires cl.toClient != [] && cl.toClient[0].body != Data && cl.toClient[0].body != Stat(true)
    requires Process(cl.state, cl.toClient[0]).Next?
    ensures Process(cl.state, cl.toClient[0]).state.told == cl.state.told
  {
    hide Max, Min;
  }

  // ----- runs -----

  /** In every run, what a client is told: when it hears that the sibling it follows exists, that it is the slave of the
      least of its siblings, which is below its own node and not above any node that exists; when it has got the data,
      that it is the master of its siblings above its own node; and at no other step anything at all. */
  lemma ToldIs(states: seq<System>, steps: seq<Step>, k: nat, c: nat)
    requires IsRun(states, steps) && k < |steps| && c in states[k].clients
    ensures c in states[k + 1].clients
    ensures var cl, cl' := states[k].clients[c], states[k + 1].clients[c];
            if steps[k] == Deliver(c) then cl.toClient != [] && Calls(cl, states[k].live, cl'.state.told)
            else cl'.state.told == cl.state.told
  {
    hide Calls, ClientOk, Process;
    RunKeeps(states, steps, k);
    var s, cl := states[k], states[k].clients[c];
    if steps[k] == Deliver(c) {
      assert ClientOk(s.next, s.live, c, cl);
      DeliverKeeps(s, c);
      ArrivalCalls(s.next, s.live, c, cl);
    } else {
      OtherStep(s, steps[k], c);
    }
  }

  lemma OtherStep(s: System, step: Step, c: nat)
    requires Enabled(s, step) && c in s.clients && step != Deliver(c)
    ensures c in Apply(s, step).clients && Apply(s, step).clients[c].state.told == s.clients[c].state.told
  {
    hide Process, Min, Max;
  }

  // ----- whom a master is told of -----

  /** At step j the server answers client c with a list of the nodes. */
  ghost predicate Lists(states: seq<System>, steps: seq<Step>, j: nat, c: nat, nodes: set<nat>)
    requires |states| > |steps|
  {
    && j < |steps| && steps[j] == Serve(c) && c in states[j].clients
    && states[j].clients[c].toServer != [] && states[j].clients[c].toServer[0].op == GetChildren
    && nodes == states[j].live.Keys
  }

  ghost predicate WasListed(states: seq<System>, steps: seq<Step>, k: nat, c: nat, nodes: set<nat>)
    requires |states| > |steps|
  {
    exists j: nat :: j < k && Lists(states, steps, j, c, nodes)
  }

  /** A list under way is one that the server gave, and so are the siblings of a client that is to be master. */
  ghost predicate Remembers(states: seq<System>, steps: seq<Step>, k: nat, c: nat, r: Role)
    requires |states| > |steps|
  {
    && (|r.news| == 1 && r.news[0].Children? ==> WasListed(states, steps, k, c, r.news[0].nodes))
    && (r.ops == [GetData] ==> WasListed(states, steps, k, c, r.siblings))
  }

  lemma StillRemembers(states: seq<System>, steps: seq<Step>, k: nat, c: nat, r: Role)
    requires |states| > |steps| && Remembers(states, steps, k, c, r)
    ensures Remembers(states, steps, k + 1, c, r)
  {
    hide Lists;
    if |r.news| == 1 && r.news[0].Children? {
      var j: nat :| j < k && Lists(states, steps, j, c, r.news[0].nodes);
      assert j < k + 1;
    }
    if r.ops == [GetData] {
      var j: nat :| j < k && Lists(states, steps, j, c, r.siblings);
      assert j < k + 1;
    }
  }

  /** The role of a client after a step of another one: news that a node is gone may have come. */
  lemma OthersStep(s: System, step: Step, c: nat)
    requires Inv(s) && Enabled(s, step) && c in s.clients && step.c != c
    ensures c in Apply(s, step).clients
    ensures var r, r' := RoleOf(s.clients[c]), RoleOf(Apply(s, step).clients[c]);
            && r'.ops == r.ops && r'.siblings == r.siblings
            && (r'.news == r.news || (|r'.news| > 0 && r'.news[|r'.news| - 1].Deleted?))
  {
    hide Fifo, Shape, View, RoleOf, Process, Min, Max, Gone, Election.Notified;
    var cl := s.clients[c];
    assert ClientOk(s.next, s.live, c, cl);
    if step.Expire? {
      OthersExpire(s, step.c, c);
      var gone := Gone(s.live, step.c);
      if gone != {} && Min(gone) in cl.watches {
        NotifiedRole(cl, Min(gone));
      } else {
        NotNotified(cl, gone);
      }
    } else {
      Untouched(s, step, c);
    }
  }

  lemma OthersExpire(s: System, d: nat, c: nat)
    requires Enabled(s, Expire(d)) && c in s.clients && c != d
    ensures var cl, gone, t := s.clients[c], Gone(s.live, d), Apply(s, Expire(d));
            c in t.clients && t.clients[c] == if gone == {} then cl else Election.Notified(cl, Min(gone))
  {
    hide Election.Notified, Min;
    assert Gone(s.live, d) == set q | q in s.live && s.live[q] == d;
  }

  lemma Untouched(s: System, step: Step, c: nat)
    requires Enabled(s, step) && c in s.clients && step.c != c && !step.Expire?
    ensures c in Apply(s, step).clients && Apply(s, step).clients[c] == s.clients[c]
  {
    hide Process, Min, Max;
  }

  lemma OwnStep(states: seq<System>, steps: seq<Step>, k: nat, c: nat)
    requires IsRun(states, steps) && k < |steps| && steps[k].c == c && c in states[k].clients && Inv(states[k])
    requires Remembers(states, steps, k, c, RoleOf(states[k].clients[c]))
    ensures c in states[k + 1].clients
    ensures Remembers(states, steps, k + 1, c, RoleOf(states[k + 1].clients[c]))
  {
    hide Fifo, Shape, View, RoleOf, Process, Apply, Reacting, IsServed, Remembers;
    var s, step, r := states[k], steps[k], RoleOf(states[k].clients[c]);
    StillRemembers(states, steps, k, c, r);
    assert Enabled(s, step) && states[k + 1] == Apply(s, step);
    assert ClientOk(s.next, s.live, c, s.clients[c]);
    match step {
      case Timer(_) => TimerKeeps(s, c);
      case Serve(_) =>
        ServeKeeps(s, c);
        ServeApplies(s, c);
        ServedRemembers(states, steps, k, c);
      case Deliver(_) =>
        DeliverKeeps(s, c);
        if s.clients[c].toClient[0].body != Pong {
          ReactingRemembers(states, steps, k, c, r);
        }
      case Expire(_) =>
        ExpiredRole(s, c);
        SameMemory(states, steps, k + 1, c, r, RoleOf(states[k + 1].clients[c]));
    }
  }

  lemma SameMemory(states: seq<System>, steps: seq<Step>, k: nat, c: nat, r: Role, r': Role)
    requires |states| > |steps| && Remembers(states, steps, k, c, r)
    requires r'.ops == r.ops && r'.siblings == r.siblings
    requires r'.news == r.news || (|r'.news| > 0 && r'.news[|r'.news| - 1].Deleted?)
    ensures Remembers(states, steps, k, c, r')
  {
    hide WasListed;
  }

  lemma ExpiredRole(s: System, c: nat)
    requires Enabled(s, Expire(c))
    ensures c in Apply(s, Expire(c)).clients
    ensures RoleOf(Apply(s, Expire(c)).clients[c]) == RoleOf(s.clients[c]).(open := false, watches := {})
  {
    hide RoleOf, Min, Election.Notified;
    ClosedRole(s.clients[c]);
  }

  lemma ServedRemembers(states: seq<System>, steps: seq<Step>, k: nat, c: nat)
    requires |states| > |steps| && k < |steps| && steps[k] == Serve(c)
    requires var s, t := states[k], states[k + 1];
             c in s.clients && s.clients[c].toServer != [] && c in t.clients && IsServed(s, c, t)
    requires Remembers(states, steps, k + 1, c, RoleOf(states[k].clients[c]))
    ensures Remembers(states, steps, k + 1, c, RoleOf(states[k + 1].clients[c]))
  {
    hide RoleOf;
    var s := states[k];
    if s.clients[c].toServer[0].op == GetChildren {
      assert Lists(states, steps, k, c, s.live.Keys);
    }
  }

  lemma ReactingRemembers(states: seq<System>, steps: seq<Step>, k: nat, c: nat, r: Role)
    requires |states| > |steps| && r.news != [] && Shape(r) && Remembers(states, steps, k + 1, c, r)
    ensures Remembers(states, steps, k + 1, c, Reacting(r, r.news[0]))
  {
    hide WasListed, Max;
    if r.ops != [] {
      OneNews(r);
    }
  }

  lemma {:induction false} RunRemembers(states: seq<System>, steps: seq<Step>, k: nat, c: nat)
    requires IsRun(states, steps) && k < |states| && c in states[k].clients
    ensures Remembers(states, steps, k, c, RoleOf(states[k].clients[c]))
    decreases k
  {
    hide Apply, Enabled, Remembers, ClientOk, RoleOf;
    if k > 0 {
      var s, step := states[k - 1], steps[k - 1];
      RunKeeps(states, steps, k - 1);
      assert Enabled(s, step) && states[k] == Apply(s, step);
      if c !in s.clients {
        NewRemembers(states, steps, k, c, s, step);
      } else {
        RunRemembers(states, steps, k - 1, c);
        if step.c == c {
          OwnStep(states, steps, k - 1, c);
        } else {
          StillRemembers(states, steps, k - 1, c, RoleOf(s.clients[c]));
          OthersStep(s, step, c);
          SameMemory(states, steps, k, c, RoleOf(s.clients[c]), RoleOf(states[k].clients[c]));
        }
      }
    } else {
      NoClients(c);
    }
  }

  lemma NoClients(c: nat)
    ensures c !in Init().clients
  {
  }

  lemma NewRemembers(states: seq<System>, steps: seq<Step>, k: nat, c: nat, s: System, step: Step)
    requires |states| > |steps| && Enabled(s, step) && c !in s.clients && c in Apply(s, step).clients
    ensures Remembers(states, steps, k, c, RoleOf(Apply(s, step).clients[c]))
  {
    hide Process, Min, Max, WasListed;
    var r := Request(1, Create);
    var cl := Client(State(1, [r], None, {}, []), [r], [], true, {});
    OnlyConnects(s, step, c);
    Starting(s, c, cl);
    OneRequest(r, cl);
  }

  lemma OnlyConnects(s: System, step: Step, c: nat)
    requires Enabled(s, step) && c !in s.clients && c in Apply(s, step).clients
    ensures step == Connect(c)
  {
    hide Process, Min, Max;
  }

  lemma OneRequest(r: Request, cl: Client)
    requires r == Request(1, Create) && cl == Client(State(1, [r], None, {}, []), [r], [], true, {})
    ensures RoleOf(cl).ops == [Create] && RoleOf(cl).news == []
  {
    assert [r][1..] == [] && Ops([r]) == [Create] + Ops([]);
  }

  /** A master is told of exactly the nodes above its own that existed when the server answered its last list. */
  lemma SlavesAre(states: seq<System>, steps: seq<Step>, k: nat, c: nat)
    requires IsRun(states, steps) && k < |steps| && steps[k] == Deliver(c)
    requires c in states[k].clients && states[k].clients[c].toClient != []
    requires states[k].clients[c].toClient[0].body == Data
    ensures c in states[k + 1].clients
    ensures exists j: nat, slaves ::
              && j < k && Lists(states, steps, j, c, states[j].live.Keys)
              && IsAbove(slaves, states[k].clients[c].state.me, states[j].live.Keys)
              && states[k + 1].clients[c].state.told == states[k].clients[c].state.told + [BecomeMaster(slaves)]
  {
    hide Apply, Enabled, Fifo, View, RoleOf, Lists, IsAbove;
    ToldIs(states, steps, k, c);
    RunKeeps(states, steps, k);
    RunRemembers(states, steps, k, c);
    var cl := states[k].clients[c];
    var r := RoleOf(cl);
    assert ClientOk(states[k].next, states[k].live, c, cl);
    TakenRole(cl);
    TakenState(cl);
    var slaves :| IsAbove(slaves, cl.state.me, cl.state.siblings)
                  && states[k + 1].clients[c].state.told == cl.state.told + [BecomeMaster(slaves)];
    assert r.ops == [GetData];
    var j: nat :| j < k && Lists(states, steps, j, c, r.siblings);
    ListIs(states, steps, j, c, r.siblings);
    assert IsAbove(slaves, cl.state.me, states[j].live.Keys);
  }

  lemma ListIs(states: seq<System>, steps: seq<Step>, j: nat, c: nat, nodes: set<nat>)
    requires |states| > |steps| && Lists(states, steps, j, c, nodes)
    ensures nodes == states[j].live.Keys
  {
  }
}
