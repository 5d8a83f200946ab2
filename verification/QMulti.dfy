/** WATCH, MULTI and EXEC: QedisCore/QMulti.cc and QedisCore/QClient.cc. Clients are kept under numbers, which stand for
    their addresses; the table of watchers holds such numbers, and one without a client is a pointer that has
    expired. */
module QMulti {
  import opened Bytes
  import opened Options

  type QString = seq<byte>

  /** A key of one database. */
  datatype Key = Key(db: int, name: QString)

  type Cmd = seq<QString>

  /** QClient: the keys it watches, its flags, and the commands queued since MULTI. */
  datatype Client = Client(watchKeys: set<Key>, dirty: bool, multi: bool, wrongExec: bool, queueCmds: seq<Cmd>)

  /** current is QClient::s_current: the client whose packet was the last to be looked at, unless that held a whole
      command, which resets it at its end. It can be the address of a client that is gone. */
  datatype State = State(clients: map<nat, Client>, table: map<Key, seq<nat>>, current: Option<nat>)

  // ----- QClient -----

  function ClearMulti(c: Client): Client { c.(queueCmds := [], multi := false, wrongExec := false) }

  function ClearWatch(c: Client): Client { c.(watchKeys := {}, dirty := false) }

  /** What EXEC does: it refuses, it aborts, or it runs the queue. */
  datatype ExecResult = NoMulti | Wrong | Aborted | Ran(cmds: seq<Cmd>)

  function ExecOf(c: Client): ExecResult {
    if !c.multi then NoMulti else if c.wrongExec then Wrong else if c.dirty then Aborted else Ran(c.queueCmds)
  }

  // ----- QMulti -----

  function Put(s: State, c: nat, cl: Client): State { s.(clients := s.clients[c := cl]) }

  function Watchers(s: State, key: Key): seq<nat> { if key in s.table then s.table[key] else [] }

  /** Watch. */
  function Watched(s: State, c: nat, key: Key): State
    requires c in s.clients
  {
    var cl := s.clients[c];
    if key in cl.watchKeys then s
    else
      s.(clients := s.clients[c := cl.(watchKeys := cl.watchKeys + {key})],
         table := s.table[key := Watchers(s, key) + [c]])
  }

  function AllWatched(s: State, c: nat, keys: seq<Key>): (t: State)
    requires c in s.clients
    ensures c in t.clients
    decreases |keys|
  {
    if keys == [] then s else AllWatched(Watched(s, c, keys[0]), c, keys[1..])
  }

  /** A watcher that NotifyDirty leaves in the list: the current client, whether or not it made the change, or one that
      has stopped watching the key and is not dirty. */
  predicate Stays(s: State, key: Key, w: nat) {
    w in s.clients && (s.current == Some(w) || (!s.clients[w].dirty && key !in s.clients[w].watchKeys))
  }

  function Staying(s: State, key: Key, ws: seq<nat>): seq<nat> {
    if ws == [] then []
    else (if Stays(s, key, ws[0]) then [ws[0]] else []) + Staying(s, key, ws[1..])
  }

  /** The watchers in ws that become dirty. */
  function Hit(s: State, key: Key, ws: seq<nat>): set<nat> {
    set w | w in ws && w in s.clients && !Stays(s, key, w)
  }

  function MadeDirty(clients: map<nat, Client>, hit: set<nat>): map<nat, Client> {
    map c | c in clients :: if c in hit then clients[c].(dirty := true) else clients[c]
  }

  /** NotifyDirty; the current client is passed over. */
  function Notified(s: State, key: Key): State {
    if key !in s.table then s
    else
      var ws, left := s.table[key], Staying(s, key, s.table[key]);
      s.(clients := MadeDirty(s.clients, Hit(s, key, ws)),
         table := if left == [] then s.table - {key} else s.table[key := left])
  }

  /** NotifyDirtyAll: everyone in the lists of a database, or of all for -1. */
  function NotifiedAll(s: State, db: int): State {
    s.(clients := MadeDirty(s.clients, Registered(s, db)))
  }

  function Registered(s: State, db: int): set<nat> {
    set key, w | key in s.table && (db == -1 || key.db == db) && w in s.table[key] :: w
  }

  // ----- the steps of a server -----

  datatype Change = OneKey(key: Key) | Database(db: int)

  /** Write is any other command that is not queued, with the changes it makes, if any; in a transaction that is one
      that is not known, and makes none. Partial is a packet that does
      not hold a whole command. Timed is a change made by a timer. */
  datatype Step = Connect(c: nat) | Disconnect(c: nat) | Watch(c: nat, keys: seq<Key>) | Unwatch(c: nat) | Multi(c: nat)
                | Queue(c: nat, cmd: Cmd, valid: bool) | Exec(c: nat, changes: seq<Change>) | Discard(c: nat)
                | Write(c: nat, changes: seq<Change>) | Partial(c: nat) | Timed(change: Change)

  function Spread(s: State, change: Change): State {
    match change
    case OneKey(key) => Notified(s, key)
    case Database(db) => NotifiedAll(s, db)
  }

  function SpreadAll(s: State, changes: seq<Change>): State
    decreases |changes|
  {
    if changes == [] then s else SpreadAll(Spread(s, changes[0]), changes[1..])
  }

  ghost predicate Enabled(s: State, step: Step) {
    match step
    case Connect(c) => c !in s.clients && forall key :: key in s.table ==> c !in s.table[key]
    case Write(c, changes) => c in s.clients && (s.clients[c].multi ==> changes == [])
    case Queue(c, _, _) => c in s.clients && s.clients[c].multi
    case Timed(_) => true
    case _ => step.c in s.clients
  }

  predicate IsCommand(step: Step) {
    !step.Connect? && !step.Disconnect? && !step.Partial? && !step.Timed?
  }

  /** What a whole command does between the two assignments to s_current; EXEC makes the changes of the commands it
      runs. */
  function Command(s: State, step: Step): State
    requires IsCommand(step) && step.c in s.clients
  {
    match step
    case Watch(c, keys) => if s.clients[c].multi then s else AllWatched(s, c, keys)
    case Unwatch(c) => Put(s, c, ClearWatch(s.clients[c]))
    case Multi(c) => if s.clients[c].multi then s else Put(s, c, ClearMulti(s.clients[c]).(multi := true))
    case Queue(c, cmd, valid) =>
      var cl := s.clients[c];
      if !valid then Put(s, c, cl.(wrongExec := true))
      else if cl.wrongExec then s else Put(s, c, cl.(queueCmds := cl.queueCmds + [cmd]))
    case Exec(c, changes) =>
      var r := ExecOf(s.clients[c]);
      if r == NoMulti then s
      else
        var t := if r.Ran? then SpreadAll(s, changes) else s;
        if c in t.clients then Put(t, c, ClearWatch(ClearMulti(t.clients[c]))) else t
    case Discard(c) =>
      if !s.clients[c].multi then s else Put(s, c, ClearWatch(ClearMulti(s.clients[c])))
    case Write(_, changes) => SpreadAll(s, changes)
  }

  /** What is looked at next: a packet of a client, a connection made or lost, or a timer. */
  function Apply(s: State, step: Step): State
    requires Enabled(s, step)
  {
    match step
    case Connect(c) => Put(s, c, Client({}, false, false, false, [])).(current := None)
    case Disconnect(c) => s.(clients := s.clients - {c})
    case Partial(c) => s.(current := Some(c))
    case Timed(change) => Spread(s, change)
    case _ => Command(s.(current := Some(step.c)), step).(current := None)
  }

  // ----- what every step keeps -----

  /** A client that is not dirty is in the list of every key it watches. */
  ghost predicate Inv(s: State) {
    forall c, key :: c in s.clients && !s.clients[c].dirty && key in s.clients[c].watchKeys ==>
      key in s.table && c in s.table[key]
  }

  lemma {:induction false} StayingHas(s: State, key: Key, ws: seq<nat>, w: nat)
    ensures w in Staying(s, key, ws) <==> w in ws && Stays(s, key, w)
  {
    if ws != [] {
      StayingHas(s, key, ws[1..], w);
    }
  }

  lemma NotifiedKeeps(s: State, key: Key)
    requires Inv(s)
    ensures Inv(Notified(s, key))
  {
    if key in s.table {
      var t, ws := Notified(s, key), s.table[key];
      forall c, k | c in t.clients && !t.clients[c].dirty && k in t.clients[c].watchKeys
        ensures k in t.table && c in t.table[k]
      {
        StayingHas(s, key, ws, c);
      }
    }
  }

  lemma WatchedOne(s: State, c: nat, key: Key)
    requires Inv(s) && c in s.clients
    ensures var t := Watched(s, c, key);
            && Inv(t) && t.clients == s.clients[c := s.clients[c].(watchKeys := s.clients[c].watchKeys + {key})]
  {
    var cl := s.clients[c];
    if key in cl.watchKeys {
      assert cl.watchKeys + {key} == cl.watchKeys;
    } else {
      assert c in Watched(s, c, key).table[key] by {
        assert (Watchers(s, key) + [c])[|Watchers(s, key)|] == c;
      }
    }
  }

  lemma {:induction false} WatchedKeeps(s: State, c: nat, keys: seq<Key>)
    requires Inv(s) && c in s.clients
    ensures var t := AllWatched(s, c, keys);
            && Inv(t)
            && t.clients == s.clients[c := s.clients[c].(watchKeys := s.clients[c].watchKeys + set k | k in keys)]
    decreases |keys|
  {
    hide Inv, Watched;
    if keys == [] {
      assert s.clients[c].watchKeys + (set k | k in keys) == s.clients[c].watchKeys;
    } else {
      WatchedOne(s, c, keys[0]);
      WatchedKeeps(Watched(s, c, keys[0]), c, keys[1..]);
      var before := s.clients[c].watchKeys;
      assert before + {keys[0]} + (set k | k in keys[1..]) == before + (set k | k in keys);
    }
  }

  predicate Hits(change: Change, key: Key) {
    match change case OneKey(k) => k == key case Database(db) => db == -1 || db == key.db
  }

  /** A change leaves what clients watch, and their transactions; it makes clients dirty and never the opposite. A
      client other than the current one does not stay clean if it watches a key that is hit, nor does the current one
      if a whole database is. */
  lemma SpreadKeeps(s: State, change: Change)
    requires Inv(s)
    ensures var t := Spread(s, change);
            && Inv(t) && t.clients.Keys == s.clients.Keys && t.current == s.current
            && (forall c :: c in s.clients ==>
                  && t.clients[c] == s.clients[c].(dirty := t.clients[c].dirty)
                  && (s.clients[c].dirty ==> t.clients[c].dirty))
            && (forall c, key ::
                  c in s.clients && (Some(c) != s.current || change.Database?) && Hits(change, key)
                  && key in s.clients[c].watchKeys ==>
                  t.clients[c].dirty)
  {
    var t := Spread(s, change);
    if change.OneKey? {
      NotifiedKeeps(s, change.key);
    }
    forall c, key | c in s.clients && (Some(c) != s.current || change.Database?) && Hits(change, key)
        && key in s.clients[c].watchKeys
      ensures t.clients[c].dirty
    {
      if !s.clients[c].dirty {
        assert c in s.table[key];
        assert change.Database? ==> c in Registered(s, change.db);
      }
    }
  }

  lemma {:induction false} SpreadAllKeeps(s: State, changes: seq<Change>)
    requires Inv(s)
    ensures var t := SpreadAll(s, changes);
            && Inv(t) && t.clients.Keys == s.clients.Keys && t.current == s.current
            && (forall c :: c in s.clients ==>
                  && t.clients[c] == s.clients[c].(dirty := t.clients[c].dirty)
                  && (s.clients[c].dirty ==> t.clients[c].dirty))
            && (forall c, key, i ::
                  c in s.clients && Some(c) != s.current && 0 <= i < |changes| && Hits(changes[i], key)
                  && key in s.clients[c].watchKeys ==>
                  t.clients[c].dirty)
    decreases |changes|
  {
    hide Spread, Hits;
    if changes != [] {
      SpreadKeeps(s, changes[0]);
      var m := Spread(s, changes[0]);
      SpreadAllKeeps(m, changes[1..]);
      var t := SpreadAll(m, changes[1..]);
      forall c, key, i | c in s.clients && Some(c) != s.current && 0 <= i < |changes| && Hits(changes[i], key)
          && key in s.clients[c].watchKeys
        ensures t.clients[c].dirty
      {
        assert i > 0 ==> changes[i] == changes[1..][i - 1];
      }
    }
  }

  lemma StepKeeps(s: State, step: Step)
    requires Inv(s) && Enabled(s, step)
    ensures Inv(Apply(s, step))
  {
    hide SpreadAll, Spread, AllWatched;
    if IsCommand(step) {
      var r := s.(current := Some(step.c));
      assert Inv(r);
      match step {
        case Watch(c, keys) => WatchedKeeps(r, c, keys);
        case Exec(_, changes) => SpreadAllKeeps(r, changes);
        case Write(_, changes) => SpreadAllKeeps(r, changes);
        case _ =>
      }
    } else if step.Timed? {
      SpreadKeeps(s, step.change);
    }
  }

  // ----- a watched key guards the transaction -----

  /** The steps that end the watching of client c. */
  predicate Ends(step: Step, c: nat) {
    match step
    case Unwatch(d) => d == c
    case Discard(d) => d == c
    case Exec(d, _) => d == c
    case Disconnect(d) => d == c
    case _ => false
  }

  predicate HitsOne(changes: seq<Change>, key: Key) { exists i :: 0 <= i < |changes| && Hits(changes[i], key) }

  /** The key is changed by a command of another client, or by one it had queued; or by a timer, while c is not the
      current client, or with the whole database. */
  predicate ChangedByOther(s: State, step: Step, c: nat, key: Key) {
    match step
    case Write(d, changes) => d != c && HitsOne(changes, key)
    case Exec(d, changes) => d != c && d in s.clients && ExecOf(s.clients[d]).Ran? && HitsOne(changes, key)
    case Timed(change) => Hits(change, key) && (s.current != Some(c) || change.Database?)
    case _ => false
  }

  predicate Guarded(s: State, c: nat, key: Key) { c in s.clients && key in s.clients[c].watchKeys }

  lemma StillGuarded(s: State, step: Step, c: nat, key: Key)
    requires Inv(s) && Enabled(s, step) && !Ends(step, c) && Guarded(s, c, key)
    ensures var t := Apply(s, step);
            && Guarded(t, c, key) && (s.clients[c].dirty ==> t.clients[c].dirty)
            && (ChangedByOther(s, step, c, key) ==> t.clients[c].dirty)
  {
    hide SpreadAll, Spread, AllWatched, Hits;
    if IsCommand(step) {
      var r := s.(current := Some(step.c));
      assert Inv(r);
      match step {
        case Watch(d, keys) => WatchedKeeps(r, d, keys);
        case Exec(_, changes) => SpreadAllKeeps(r, changes);
        case Write(_, changes) => SpreadAllKeeps(r, changes);
        case _ =>
      }
    } else if step.Timed? {
      SpreadKeeps(s, step.change);
    }
  }

  ghost predicate IsRun(states: seq<State>, steps: seq<Step>) {
    && |states| == |steps| + 1 && states[0] == State(map[], map[], None)
    && forall i :: 0 <= i < |steps| ==> Enabled(states[i], steps[i]) && states[i + 1] == Apply(states[i], steps[i])
  }

  lemma {:induction false} RunKeeps(states: seq<State>, steps: seq<Step>, k: nat)
    requires IsRun(states, steps) && k < |states|
    ensures Inv(states[k])
    decreases k
  {
    hide Apply, Enabled;
    if k > 0 {
      RunKeeps(states, steps, k - 1);
      StepKeeps(states[k - 1], steps[k - 1]);
    }
  }

  lemma {:induction false} RunGuards(states: seq<State>, steps: seq<Step>, i: nat, j: nat, k: nat, c: nat, key: Key)
    requires IsRun(states, steps) && i < j <= k < |states| && Guarded(states[i + 1], c, key)
    requires forall m :: i < m < k ==> !Ends(steps[m], c)
    ensures Guarded(states[k], c, key)
    ensures j < k && ChangedByOther(states[j], steps[j], c, key) ==> states[k].clients[c].dirty
    decreases k
  {
    hide Apply, Enabled, Ends, Guarded, ChangedByOther;
    if k > i + 1 {
      RunGuards(states, steps, i, if j < k then j else k - 1, k - 1, c, key);
      RunKeeps(states, steps, k - 1);
      StillGuarded(states[k - 1], steps[k - 1], c, key);
    }
  }

  /** WATCH safety: if a client watches a key, and before its EXEC another client changes the key, or a timer while the
      client is not the current one, EXEC runs none of the queued commands, unless the client has meanwhile ended its
      watching. */
  lemma WatchGuardsExec(states: seq<State>, steps: seq<Step>, i: nat, j: nat, k: nat, c: nat, key: Key)
    requires IsRun(states, steps) && i < j < k < |steps|
    requires steps[i].Watch? && steps[i].c == c && key in steps[i].keys && !states[i].clients[c].multi
    requires ChangedByOther(states[j], steps[j], c, key) && steps[k].Exec? && steps[k].c == c
    requires forall m :: i < m < k ==> !Ends(steps[m], c)
    ensures !ExecOf(states[k].clients[c]).Ran?
  {
    RunKeeps(states, steps, i);
    WatchedKeeps(states[i].(current := Some(c)), c, steps[i].keys);
    assert Guarded(states[i + 1], c, key);
    hide Apply, Ends, ChangedByOther;
    RunGuards(states, steps, i, j, k, c, key);
  }

  // ----- what a transaction runs -----

  /** The commands that client c queues in the steps, in their order. */
  function QueuedBy(steps: seq<Step>, c: nat): seq<Cmd> {
    if steps == [] then []
    else (if steps[0].Queue? && steps[0].c == c then [steps[0].cmd] else []) + QueuedBy(steps[1..], c)
  }

  lemma {:induction false} QueuedByMore(steps: seq<Step>, step: Step, c: nat)
    ensures QueuedBy(steps + [step], c)
            == QueuedBy(steps, c) + if step.Queue? && step.c == c then [step.cmd] else []
  {
    if steps == [] {
      assert [step][1..] == [] && steps + [step] == [step];
    } else {
      assert (steps + [step])[0] == steps[0] && (steps + [step])[1..] == steps[1..] + [step];
      QueuedByMore(steps[1..], step, c);
    }
  }

  predicate IsRefused(step: Step, c: nat) { step.Queue? && step.c == c && !step.valid }

  /** Client c has given a command with the wrong number of parameters. */
  predicate HasRefused(steps: seq<Step>, c: nat) { exists m :: 0 <= m < |steps| && IsRefused(steps[m], c) }

  lemma HasRefusedMore(steps: seq<Step>, step: Step, c: nat)
    ensures HasRefused(steps + [step], c) <==> HasRefused(steps, c) || IsRefused(step, c)
  {
    var more := steps + [step];
    if HasRefused(steps, c) {
      var m :| 0 <= m < |steps| && IsRefused(steps[m], c);
      assert IsRefused(more[m], c);
    }
    assert more[|steps|] == step;
  }

  /** The steps that end the transaction of client c. */
  predicate EndsMulti(step: Step, c: nat) {
    (step.Exec? || step.Discard? || step.Disconnect?) && step.c == c
  }

  /** A client in a transaction whose steps since MULTI are given. */
  ghost predicate InMulti(s: State, c: nat, since: seq<Step>) {
    && c in s.clients && s.clients[c].multi && (s.clients[c].wrongExec <==> HasRefused(since, c))
    && (!s.clients[c].wrongExec ==> s.clients[c].queueCmds == QueuedBy(since, c))
  }

  lemma StaysInMulti(s: State, step: Step, c: nat, since: seq<Step>)
    requires Inv(s) && Enabled(s, step) && !EndsMulti(step, c) && InMulti(s, c, since)
    ensures InMulti(Apply(s, step), c, since + [step])
  {
    hide SpreadAll, Spread, AllWatched, QueuedBy, HasRefused;
    QueuedByMore(since, step, c);
    HasRefusedMore(since, step, c);
    if IsCommand(step) {
      var r := s.(current := Some(step.c));
      assert Inv(r);
      match step {
        case Watch(d, keys) => WatchedKeeps(r, d, keys);
        case Exec(_, changes) => SpreadAllKeeps(r, changes);
        case Write(_, changes) => SpreadAllKeeps(r, changes);
        case _ =>
      }
    } else if step.Timed? {
      SpreadKeeps(s, step.change);
    }
  }

  lemma {:induction false} RunInMulti(states: seq<State>, steps: seq<Step>, i: nat, k: nat, c: nat)
    requires IsRun(states, steps) && i < k < |states|
    requires steps[i] == Multi(c) && !states[i].clients[c].multi
    requires forall m :: i < m < k ==> !EndsMulti(steps[m], c)
    ensures InMulti(states[k], c, steps[i + 1..k])
    decreases k
  {
    if k == i + 1 {
      assert steps[i + 1..k] == [] && !HasRefused([], c);
    } else {
      hide Apply, Enabled, InMulti, EndsMulti;
      RunInMulti(states, steps, i, k - 1, c);
      RunKeeps(states, steps, k - 1);
      StaysInMulti(states[k - 1], steps[k - 1], c, steps[i + 1..k - 1]);
      assert steps[i + 1..k] == steps[i + 1..k - 1] + [steps[k - 1]];
    }
  }

  /** What EXEC does after MULTI: it refuses if and only if a command was refused in between; otherwise it runs all
      that the client has queued, in that order, unless the client is dirty. Then the client is as it was at first. */
  lemma ExecRuns(states: seq<State>, steps: seq<Step>, i: nat, k: nat, c: nat)
    requires IsRun(states, steps) && i < k < |steps|
    requires steps[i] == Multi(c) && !states[i].clients[c].multi && steps[k].Exec? && steps[k].c == c
    requires forall m :: i < m < k ==> !EndsMulti(steps[m], c)
    ensures c in states[k].clients
    ensures ExecOf(states[k].clients[c])
            == if HasRefused(steps[i + 1..k], c) then Wrong
               else if states[k].clients[c].dirty then Aborted
               else Ran(QueuedBy(steps[i + 1..k], c))
    ensures c in states[k + 1].clients
    ensures states[k + 1].clients[c] == Client(watchKeys := {}, dirty := false, multi := false, wrongExec := false,
                                               queueCmds := [])
  {
    hide SpreadAll, QueuedBy, HasRefused;
    RunInMulti(states, steps, i, k, c);
    RunKeeps(states, steps, k);
    var r := states[k].(current := Some(c));
    assert Inv(r);
    SpreadAllKeeps(r, steps[k].changes);
  }

  /** Client c is out of any transaction after these. */
  predicate LeavesMulti(step: Step, c: nat) { (step.Connect? || step.Exec? || step.Discard?) && step.c == c }

  lemma StaysOutOfMulti(s: State, step: Step, c: nat)
    requires Inv(s) && Enabled(s, step) && step != Multi(c) && step != Disconnect(c)
    requires LeavesMulti(step, c) || (c in s.clients && !s.clients[c].multi)
    ensures c in Apply(s, step).clients && !Apply(s, step).clients[c].multi
  {
    hide SpreadAll, Spread, AllWatched;
    if IsCommand(step) {
      var r := s.(current := Some(step.c));
      assert Inv(r);
      match step {
        case Watch(d, keys) => WatchedKeeps(r, d, keys);
        case Exec(_, changes) => SpreadAllKeeps(r, changes);
        case Write(_, changes) => SpreadAllKeeps(r, changes);
        case _ =>
      }
    } else if step.Timed? {
      SpreadKeeps(s, step.change);
    }
  }

  /** Without MULTI, since the client was connected or its last transaction ended, EXEC does nothing. */
  lemma {:induction false} NoMultiNoExec(states: seq<State>, steps: seq<Step>, i: nat, k: nat, c: nat)
    requires IsRun(states, steps) && i < k < |states| && LeavesMulti(steps[i], c)
    requires forall m :: i < m < k ==> steps[m] != Multi(c) && steps[m] != Disconnect(c)
    ensures c in states[k].clients && ExecOf(states[k].clients[c]) == NoMulti
    decreases k
  {
    hide Apply, Enabled, LeavesMulti;
    RunKeeps(states, steps, k - 1);
    if k > i + 1 {
      NoMultiNoExec(states, steps, i, k - 1, c);
    }
    assert LeavesMulti(steps[i], c) ==> steps[i] != Multi(c) && steps[i] != Disconnect(c) by { NotBoth(steps[i], c); }
    StaysOutOfMulti(states[k - 1], steps[k - 1], c);
  }

  lemma NotBoth(step: Step, c: nat)
    ensures LeavesMulti(step, c) ==> step != Multi(c) && step != Disconnect(c)
  {
  }

  /** The changes that a step makes. */
  function Changes(s: State, step: Step): seq<Change> {
    match step
    case Write(_, changes) => changes
    case Exec(d, changes) => if d in s.clients && ExecOf(s.clients[d]).Ran? then changes else []
    case Timed(change) => [change]
    case _ => []
  }

  predicate IsHarmless(change: Change, keys: set<Key>) { change.OneKey? && change.key !in keys }

  /** The step changes no key that c watches, and no whole database. */
  predicate Harmless(s: State, step: Step, c: nat) {
    c in s.clients ==> forall change :: change in Changes(s, step) ==> IsHarmless(change, s.clients[c].watchKeys)
  }

  lemma {:induction false} StaysClean(s: State, changes: seq<Change>, c: nat)
    requires Inv(s) && c in s.clients && !s.clients[c].dirty
    requires forall change :: change in changes ==> IsHarmless(change, s.clients[c].watchKeys)
    ensures c in SpreadAll(s, changes).clients && !SpreadAll(s, changes).clients[c].dirty
    decreases |changes|
  {
    hide Spread;
    if changes != [] {
      assert IsHarmless(changes[0], s.clients[c].watchKeys);
      SpreadKeeps(s, changes[0]);
      ExactlyDirty(s, changes[0], c);
      StaysClean(Spread(s, changes[0]), changes[1..], c);
    }
  }

  lemma StepStaysClean(s: State, step: Step, c: nat)
    requires Inv(s) && Enabled(s, step) && c in s.clients && !s.clients[c].dirty
    requires Harmless(s, step, c) && step != Disconnect(c)
    ensures c in Apply(s, step).clients && !Apply(s, step).clients[c].dirty
  {
    hide SpreadAll, Spread, AllWatched, IsHarmless, Registered;
    if IsCommand(step) {
      var r := s.(current := Some(step.c));
      assert Inv(r);
      match step {
        case Watch(d, keys) => WatchedKeeps(r, d, keys);
        case Exec(_, changes) => if ExecOf(s.clients[step.c]).Ran? { StaysClean(r, changes, c); }
        case Write(_, changes) => StaysClean(r, changes, c);
        case _ =>
      }
    } else if step.Timed? {
      assert IsHarmless(step.change, s.clients[c].watchKeys);
      SpreadKeeps(s, step.change);
      TimedClean(s, step.change, c);
    }
  }

  lemma TimedClean(s: State, change: Change, c: nat)
    requires Inv(s) && c in s.clients && !s.clients[c].dirty && IsHarmless(change, s.clients[c].watchKeys)
    ensures c in Spread(s, change).clients && !Spread(s, change).clients[c].dirty
  {
    ExactlyDirty(s, change, c);
  }

  /** The steps after which client c watches nothing. */
  predicate Forgets(s: State, step: Step, c: nat) {
    || step == Connect(c) || step == Unwatch(c)
    || ((step.Exec? || step.Discard?) && step.c == c && c in s.clients && s.clients[c].multi)
  }

  lemma {:induction false} RunStaysClean(states: seq<State>, steps: seq<Step>, i: nat, k: nat, c: nat)
    requires IsRun(states, steps) && i < k < |states| && Forgets(states[i], steps[i], c)
    requires forall m :: i < m < k ==> Harmless(states[m], steps[m], c) && steps[m] != Disconnect(c)
    ensures c in states[k].clients && !states[k].clients[c].dirty
    decreases k
  {
    RunKeeps(states, steps, k - 1);
    if k == i + 1 {
      Forgotten(states[i], steps[i], c);
    } else {
      hide Apply, Enabled, Harmless, Forgets;
      RunStaysClean(states, steps, i, k - 1, c);
      StepStaysClean(states[k - 1], steps[k - 1], c);
    }
  }

  lemma Forgotten(s: State, step: Step, c: nat)
    requires Inv(s) && Enabled(s, step) && Forgets(s, step, c)
    ensures var t := Apply(s, step); c in t.clients && t.clients[c].watchKeys == {} && !t.clients[c].dirty
  {
    hide SpreadAll;
    if step.Exec? {
      var r := s.(current := Some(c));
      assert Inv(r);
      SpreadAllKeeps(r, step.changes);
    }
  }

  /** EXEC is not aborted for nothing, but for whole databases: it is not if nothing that the client was watching has
      been changed since it watched nothing, and no whole database. */
  lemma NotAborted(states: seq<State>, steps: seq<Step>, i: nat, k: nat, c: nat)
    requires IsRun(states, steps) && i < k < |steps| && Forgets(states[i], steps[i], c)
    requires steps[k].Exec? && steps[k].c == c
    requires forall m :: i < m < k ==> Harmless(states[m], steps[m], c) && steps[m] != Disconnect(c)
    ensures ExecOf(states[k].clients[c]) != Aborted
  {
    RunStaysClean(states, steps, i, k, c);
  }

  predicate IsWatchOf(step: Step, c: nat, key: Key) { step.Watch? && step.c == c && key in step.keys }

  /** At step m client c has watched the key, outside a transaction, and has not forgotten it up to step k. */
  ghost predicate WatchedSince(states: seq<State>, steps: seq<Step>, m: nat, k: nat, c: nat, key: Key)
    requires m < k <= |steps| < |states|
  {
    && IsWatchOf(steps[m], c, key) && c in states[m].clients && !states[m].clients[c].multi
    && forall j :: m < j < k ==> !Forgets(states[j], steps[j], c) && steps[j] != Disconnect(c)
  }

  lemma StepWatches(s: State, step: Step, c: nat, key: Key)
    requires Inv(s) && Enabled(s, step) && c in Apply(s, step).clients
    ensures c !in s.clients ==> Forgets(s, step, c)
    ensures step != Disconnect(c)
    ensures key in Apply(s, step).clients[c].watchKeys
            <==> c in s.clients && !Forgets(s, step, c)
                 && (key in s.clients[c].watchKeys || (IsWatchOf(step, c, key) && !s.clients[c].multi))
  {
    hide SpreadAll, Spread, AllWatched;
    if IsCommand(step) {
      var r := s.(current := Some(step.c));
      assert Inv(r);
      match step {
        case Watch(d, keys) => WatchedKeeps(r, d, keys);
        case Exec(_, changes) => SpreadAllKeeps(r, changes);
        case Write(_, changes) => SpreadAllKeeps(r, changes);
        case _ =>
      }
    } else if step.Timed? {
      SpreadKeeps(s, step.change);
    }
  }

  lemma NoForgetting(s: State, step: Step, c: nat, key: Key)
    requires IsWatchOf(step, c, key)
    ensures !Forgets(s, step, c)
  {
  }

  /** What a client watches, exactly: the keys of its WATCH commands outside transactions since it last forgot them. */
  lemma {:induction false} WatchesIff(states: seq<State>, steps: seq<Step>, k: nat, c: nat, key: Key)
    requires IsRun(states, steps) && k < |states| && c in states[k].clients
    ensures key in states[k].clients[c].watchKeys
            <==> exists m: nat :: m < k && WatchedSince(states, steps, m, k, c, key)
    decreases k
  {
    hide Apply, Enabled, Forgets, IsWatchOf;
    if k > 0 {
      var s, step := states[k - 1], steps[k - 1];
      RunKeeps(states, steps, k - 1);
      StepWatches(s, step, c, key);
      if c in s.clients {
        WatchesIff(states, steps, k - 1, c, key);
      }
      if m: nat :| m < k && WatchedSince(states, steps, m, k, c, key) {
        if m < k - 1 {
          assert WatchedSince(states, steps, m, k - 1, c, key);
        } else {
          NoForgetting(s, step, c, key);
        }
      }
      if key in states[k].clients[c].watchKeys {
        if key in s.clients[c].watchKeys {
          var m: nat :| m < k - 1 && WatchedSince(states, steps, m, k - 1, c, key);
          assert WatchedSince(states, steps, m, k, c, key);
        } else {
          assert WatchedSince(states, steps, k - 1, k, c, key);
        }
      }
    }
  }

  /** Client c watches a key of the database, or any for -1. */
  predicate IsWatchIn(step: Step, c: nat, db: int) {
    step.Watch? && step.c == c && exists key :: key in step.keys && (db == -1 || key.db == db)
  }

  /** Client c is in the list of the key. */
  predicate IsListed(s: State, c: nat, key: Key) { key in s.table && c in s.table[key] }

  lemma SpreadLists(s: State, change: Change, c: nat, key: Key)
    requires IsListed(Spread(s, change), c, key)
    ensures IsListed(s, c, key)
  {
    if change.OneKey? && change.key == key && key in s.table {
      StayingHas(s, key, s.table[key], c);
    }
  }

  lemma {:induction false} SpreadAllLists(s: State, changes: seq<Change>, c: nat, key: Key)
    requires IsListed(SpreadAll(s, changes), c, key)
    ensures IsListed(s, c, key)
    decreases |changes|
  {
    hide Spread, IsListed;
    if changes != [] {
      SpreadAllLists(Spread(s, changes[0]), changes[1..], c, key);
      SpreadLists(s, changes[0], c, key);
    }
  }

  lemma {:induction false} WatchLists(s: State, d: nat, keys: seq<Key>, c: nat, key: Key)
    requires d in s.clients && IsListed(AllWatched(s, d, keys), c, key)
    ensures IsListed(s, c, key) || (c == d && key in keys)
    decreases |keys|
  {
    if keys != [] {
      WatchLists(Watched(s, d, keys[0]), d, keys[1..], c, key);
    }
  }

  lemma StepLists(s: State, step: Step, c: nat, key: Key)
    requires Enabled(s, step) && IsListed(Apply(s, step), c, key)
    ensures IsListed(s, c, key) || IsWatchOf(step, c, key)
  {
    hide SpreadAll, Spread, AllWatched;
    if IsCommand(step) {
      var r := s.(current := Some(step.c));
      match step {
        case Watch(d, keys) => if !s.clients[d].multi { WatchLists(r, d, keys, c, key); }
        case Exec(_, changes) => if ExecOf(s.clients[step.c]).Ran? { SpreadAllLists(r, changes, c, key); }
        case Write(_, changes) => SpreadAllLists(r, changes, c, key);
        case _ =>
      }
    } else if step.Timed? {
      SpreadLists(s, step.change, c, key);
    }
  }

  lemma {:induction false} OnlyWatchLists(states: seq<State>, steps: seq<Step>, k: nat, c: nat, key: Key)
    requires IsRun(states, steps) && k < |states| && IsListed(states[k], c, key)
    ensures exists m :: 0 <= m < k && IsWatchOf(steps[m], c, key)
    decreases k
  {
    hide Apply, Enabled, IsListed, IsWatchOf;
    if k > 0 {
      StepLists(states[k - 1], steps[k - 1], c, key);
      if !IsWatchOf(steps[k - 1], c, key) {
        OnlyWatchLists(states, steps, k - 1, c, key);
      }
    } else {
      NothingListed(c, key);
    }
  }

  lemma NothingListed(c: nat, key: Key)
    ensures !IsListed(State(map[], map[], None), c, key)
  {
  }

  lemma ListOf(s: State, c: nat, db: int) returns (key: Key)
    requires c in Registered(s, db)
    ensures IsListed(s, c, key) && (db == -1 || key.db == db)
  {
    key :| key in s.table && (db == -1 || key.db == db) && c in s.table[key];
  }

  /** After the change of a key only two sorts of clients are left in its list: the current one, and those who have
      stopped watching it and are not dirty. */
  lemma LeftInList(s: State, key: Key, c: nat)
    requires IsListed(Notified(s, key), c, key)
    ensures IsListed(s, c, key) && c in s.clients
    ensures s.current == Some(c) || (!s.clients[c].dirty && key !in s.clients[c].watchKeys)
  {
    if key in s.table {
      StayingHas(s, key, s.table[key], c);
    }
  }

  /** A change of a whole database makes only those dirty who have at some time watched a key of it. */
  lemma DatabaseDirties(states: seq<State>, steps: seq<Step>, k: nat, c: nat, db: int)
    requires IsRun(states, steps) && k < |states| && c in states[k].clients && !states[k].clients[c].dirty
    requires Spread(states[k], Database(db)).clients[c].dirty
    ensures exists m :: 0 <= m < k && IsWatchIn(steps[m], c, db)
  {
    hide Apply, Enabled;
    RunKeeps(states, steps, k);
    ExactlyDirty(states[k], Database(db), c);
    var key := ListOf(states[k], c, db);
    OnlyWatchLists(states, steps, k, c, key);
    var m :| 0 <= m < k && IsWatchOf(steps[m], c, key);
    assert IsWatchIn(steps[m], c, db);
  }

  // ----- the current client -----

  /** A client is the current one between its packets if and only if the last packet of all was of that client and did
      not hold a whole command, and no connection has been made since. */
  lemma {:induction false} CurrentIs(states: seq<State>, steps: seq<Step>, k: nat, c: nat)
    requires IsRun(states, steps) && k < |states|
    ensures states[k].current == Some(c)
            <==> exists i :: 0 <= i < k && steps[i] == Partial(c)
                             && forall j :: i < j < k ==> steps[j].Timed? || steps[j].Disconnect?
    decreases k
  {
    hide Notified, NotifiedAll, Command, Enabled, IsCommand;
    if k > 0 {
      CurrentIs(states, steps, k - 1, c);
      CurrentStep(states[k - 1], steps[k - 1]);
      if states[k].current == Some(c) && !steps[k - 1].Partial? {
        var i :| 0 <= i < k - 1 && steps[i] == Partial(c)
                 && forall j :: i < j < k - 1 ==> steps[j].Timed? || steps[j].Disconnect?;
        assert forall j :: i < j < k ==> steps[j].Timed? || steps[j].Disconnect?;
      }
    }
  }

  lemma CurrentStep(s: State, step: Step)
    requires Enabled(s, step)
    ensures Apply(s, step).current == match step
                                      case Partial(c) => Some(c)
                                      case Timed(_) => s.current
                                      case Disconnect(_) => s.current
                                      case _ => None
  {
  }

  /** A timer that changes a key makes a clean client that watches it dirty if and only if it is not the current one. */
  lemma TimerDirties(s: State, c: nat, key: Key)
    requires Inv(s) && c in s.clients && !s.clients[c].dirty && key in s.clients[c].watchKeys
    ensures Apply(s, Timed(OneKey(key))).clients[c].dirty <==> s.current != Some(c)
  {
    ExactlyDirty(s, OneKey(key), c);
  }

  /** So a transaction can run although its key has expired: when the first part of EXEC has arrived before, and the
      rest after. */
  lemma TimerMissed(key: Key, cmd: Cmd) returns (states: seq<State>, steps: seq<Step>)
    ensures IsRun(states, steps)
    ensures steps == [Connect(1), Watch(1, [key]), Multi(1), Queue(1, cmd, true), Partial(1), Timed(OneKey(key)),
                      Exec(1, [])]
    ensures 1 in states[6].clients && ExecOf(states[6].clients[1]) == Ran([cmd])
  {
    WatchSteps(key);
    QueueSteps(key, cmd);
    MissedSteps(key, cmd);
    hide IsRun, Apply, Enabled, Alone;
    states, steps := [State(map[], map[], None)], [];
    NoSteps();
    states, steps := RunOn(states, steps, Connect(1));
    states, steps := RunOn(states, steps, Watch(1, [key]));
    states, steps := RunOn(states, steps, Multi(1));
    states, steps := RunOn(states, steps, Queue(1, cmd, true));
    states, steps := RunOn(states, steps, Partial(1));
    states, steps := RunOn(states, steps, Timed(OneKey(key)));
    OneQueued(key, cmd);
    states, steps := RunOn(states, steps, Exec(1, []));
  }

  /** One client, which watches one key. */
  function Alone(key: Key, multi: bool, queueCmds: seq<Cmd>, current: Option<nat>): State {
    State(map[1 := Client({key}, false, multi, false, queueCmds)], map[key := [1]], current)
  }

  lemma WatchSteps(key: Key)
    ensures var s0 := State(map[], map[], None);
            && Enabled(s0, Connect(1)) && Enabled(Apply(s0, Connect(1)), Watch(1, [key]))
            && Apply(Apply(s0, Connect(1)), Watch(1, [key])) == Alone(key, false, [], None)
  {
    hide AllWatched;
    var s := State(map[1 := Client({}, false, false, false, [])], map[], None);
    assert Apply(State(map[], map[], None), Connect(1)) == s;
    FirstWatch(s.(current := Some(1)), key);
  }

  lemma QueueSteps(key: Key, cmd: Cmd)
    ensures var s, t := Alone(key, false, [], None), Alone(key, true, [], None);
            && Enabled(s, Multi(1)) && Apply(s, Multi(1)) == t
            && Enabled(t, Queue(1, cmd, true)) && Apply(t, Queue(1, cmd, true)) == Alone(key, true, [cmd], None)
  {
    assert [] + [cmd] == [cmd];
  }

  lemma MissedSteps(key: Key, cmd: Cmd)
    ensures var s, t := Alone(key, true, [cmd], None), Alone(key, true, [cmd], Some(1));
            && Enabled(s, Partial(1)) && Apply(s, Partial(1)) == t
            && Enabled(t, Timed(OneKey(key))) && Apply(t, Timed(OneKey(key))) == t && Enabled(t, Exec(1, []))
  {
    hide Notified;
    MissedChange(Alone(key, true, [cmd], Some(1)), key);
  }

  lemma OneQueued(key: Key, cmd: Cmd)
    ensures var s := Alone(key, true, [cmd], Some(1)); 1 in s.clients && ExecOf(s.clients[1]) == Ran([cmd])
  {
  }

  lemma NoSteps()
    ensures IsRun([State(map[], map[], None)], [])
  {
  }

  lemma RunOn(states0: seq<State>, steps0: seq<Step>, step: Step) returns (states: seq<State>, steps: seq<Step>)
    requires IsRun(states0, steps0) && Enabled(states0[|steps0|], step)
    ensures IsRun(states, steps) && steps == steps0 + [step]
    ensures states == states0 + [Apply(states0[|steps0|], step)]
  {
    hide Apply, Enabled;
    states, steps := states0 + [Apply(states0[|steps0|], step)], steps0 + [step];
  }

  lemma FirstWatch(s: State, key: Key)
    requires 1 in s.clients && s.clients[1].watchKeys == {} && s.table == map[]
    ensures AllWatched(s, 1, [key])
            == s.(clients := s.clients[1 := s.clients[1].(watchKeys := {key})], table := map[key := [1]])
  {
    assert [key][1..] == [] && [] + [1] == [1] && {} + {key} == {key};
    assert AllWatched(s, 1, [key]) == AllWatched(Watched(s, 1, key), 1, []);
  }

  lemma MissedChange(s: State, key: Key)
    requires s.current == Some(1) && 1 in s.clients && s.table == map[key := [1]]
    ensures Notified(s, key) == s
  {
    var ws := s.table[key];
    assert ws == [1];
    assert Stays(s, key, 1);
    OnlyStays(s, key, 1);
    NobodyHit(s.clients);
    assert Notified(s, key).table == s.table;
    assert Notified(s, key).clients == s.clients;
  }

  lemma OnlyStays(s: State, key: Key, w: nat)
    requires Stays(s, key, w)
    ensures Staying(s, key, [w]) == [w] && Hit(s, key, [w]) == {}
  {
    assert [w][1..] == [];
  }

  // ----- who is made dirty, exactly -----

  /** A change of one key makes dirty exactly those who watch it, but for the current client. A change of a whole
      database makes dirty everyone in its lists. */
  lemma ExactlyDirty(s: State, change: Change, c: nat)
    requires Inv(s) && c in s.clients && !s.clients[c].dirty
    ensures Spread(s, change).clients[c].dirty <==>
              match change
              case OneKey(key) => s.current != Some(c) && key in s.clients[c].watchKeys
              case Database(db) => c in Registered(s, db)
  {
    if change.OneKey? && change.key in s.clients[c].watchKeys {
      assert c in s.table[change.key];
    }
  }

  /** And the lists are cleaned only lazily: a client that has stopped watching is made dirty by the change of a
      database, and its next transaction is aborted although it watches nothing. */
  lemma AbortedForNothing(key: Key)
    ensures var s0 := State(map[], map[], None);
            var s1 := Apply(s0, Connect(1));
            var s2 := Apply(s1, Watch(1, [key]));
            var s3 := Apply(s2, Unwatch(1));
            var s4 := Apply(s3, Timed(Database(key.db)));
            var s5 := Apply(s4, Multi(1));
            s5.clients[1].watchKeys == {} && ExecOf(s5.clients[1]) == Aborted
  {
    var s1 := Apply(State(map[], map[], None), Connect(1));
    var s2 := Apply(s1, Watch(1, [key]));
    FirstWatch(s1.(current := Some(1)), key);
    var s3 := Apply(s2, Unwatch(1));
    assert s3.table == map[key := [1]];
    assert key in s3.table && 1 in s3.table[key];
    assert 1 in Registered(s3, key.db);
  }

  // ----- the object -----

  class QMulti {
    /** The QClient objects that exist. */
    var clients: map<nat, Client>
    /** clients_: the lists of watchers. */
    var table: map<Key, seq<nat>>
    /** QClient::s_current. */
    var current: Option<nat>

    function Abstract(): State
      reads this
    {
      State(clients, table, current)
    }

    constructor ()
      ensures Abstract() == State(map[], map[], None)
    {
      clients, table, current := map[], map[], None;
    }

    /** Watch, and QClient::Watch. */
    method Watch(c: nat, key: Key)
      requires c in clients
      modifies this
      ensures Abstract() == Watched(old(Abstract()), c, key)
    {
      var isNew := key !in clients[c].watchKeys;
      if isNew {
        clients := clients[c := clients[c].(watchKeys := clients[c].watchKeys + {key})];
        if key !in table {
          table := table[key := []];
        }
        table := table[key := table[key] + [c]];
      }
    }

    /** QClient::NotifyDirty: whether the client is dirty now. */
    method NotifyClient(c: nat, key: Key) returns (r: bool)
      requires c in clients
      modifies this`clients
      ensures r == (old(clients[c].dirty) || key in old(clients[c].watchKeys))
      ensures clients == if r then old(clients)[c := old(clients[c]).(dirty := true)] else old(clients)
    {
      if clients[c].dirty {
        assert clients == clients[c := clients[c].(dirty := true)];
        return true;
      }
      if key in clients[c].watchKeys {
        clients := clients[c := clients[c].(dirty := true)];
        return true;
      }
      return false;
    }

    /** NotifyDirty: walks over the list, and erases from it. */
    method NotifyDirty(key: Key)
      modifies this
      ensures Abstract() == Notified(old(Abstract()), key)
    {
      hide Staying;
      if key !in table { return; }
      ghost var s, ws, done := Abstract(), table[key], 0;
      var cls, i := table[key], 0;
      WalkStart(s, key, ws);
      while i < |cls|
        invariant done <= |ws| && i <= |cls| && cls[i..] == ws[done..]
        invariant cls[..i] == Staying(s, key, ws[..done])
        invariant clients == MadeDirty(s.clients, Hit(s, key, ws[..done])) && table == s.table && current == s.current
        decreases |cls| - i
      {
        var w := cls[i];
        assert w == ws[done] by { assert w == cls[i..][0]; }
        WalkStep(s, key, ws, done);
        assert cls[i + 1..] == ws[done + 1..] by { assert cls[i + 1..] == cls[i..][1..]; }
        if w !in clients {
          cls := cls[..i] + cls[i + 1..];
        } else {
          var dirtied := false;
          if current != Some(w) {
            dirtied := NotifyClient(w, key);
          }
          if dirtied {
            cls := cls[..i] + cls[i + 1..];
          } else {
            i := i + 1;
          }
        }
        done := done + 1;
      }
      assert ws[..done] == ws && cls[..i] == cls;
      table := if cls == [] then table - {key} else table[key := cls];
    }

    /** NotifyDirtyAll. */
    method NotifyDirtyAll(db: int)
      modifies this`clients
      ensures Abstract() == NotifiedAll(old(Abstract()), db)
    {
      hide Registered, RegisteredIn, MadeDirty;
      ghost var s := Abstract();
      var keys := table.Keys;
      NobodyHit(s.clients);
      AllLists(s, db);
      assert table.Keys - keys == {};
      while keys != {}
        invariant table == s.table && keys <= table.Keys
        invariant clients == MadeDirty(s.clients, RegisteredIn(s, db, table.Keys - keys))
        decreases |keys|
      {
        var key :| key in keys;
        ghost var done := table.Keys - keys;
        NotifyList(db, key, s, done);
        assert done + {key} == table.Keys - (keys - {key});
        keys := keys - {key};
      }
      assert table.Keys - keys == table.Keys;
    }

    /** One more list of NotifyDirtyAll. */
    method NotifyList(db: int, key: Key, ghost s: State, ghost done: set<Key>)
      requires table == s.table && key in table && clients == MadeDirty(s.clients, RegisteredIn(s, db, done))
      modifies this`clients
      ensures clients == MadeDirty(s.clients, RegisteredIn(s, db, done + {key}))
    {
      hide RegisteredIn, MadeDirty;
      OneMoreList(s, db, done, key);
      if db == -1 || key.db == db {
        SetAllDirty(table[key]);
        DirtyTwice(s.clients, RegisteredIn(s, db, done), Members(s.table[key]));
      } else {
        assert RegisteredIn(s, db, done) + {} == RegisteredIn(s, db, done);
      }
    }

    /** Everyone in a list who still exists. */
    method SetAllDirty(ws: seq<nat>)
      modifies this`clients
      ensures clients == MadeDirty(old(clients), Members(ws))
    {
      hide MadeDirty;
      NobodyHit(clients);
      var i := 0;
      assert Members(ws[..0]) == {};
      while i < |ws|
        invariant i <= |ws| && clients == MadeDirty(old(clients), Members(ws[..i]))
      {
        OneMember(ws, i);
        DirtyTwice(old(clients), Members(ws[..i]), {ws[i]});
        OneDirty(clients, ws[i]);
        if ws[i] in clients {
          clients := clients[ws[i] := clients[ws[i]].(dirty := true)];
        }
        i := i + 1;
      }
      assert ws[..i] == ws;
    }
  }

  function Members(ws: seq<nat>): set<nat> { set w | w in ws }

  lemma OneMember(ws: seq<nat>, i: nat)
    requires i < |ws|
    ensures Members(ws[..i + 1]) == Members(ws[..i]) + {ws[i]}
  {
    assert ws[..i + 1] == ws[..i] + [ws[i]];
  }

  lemma OneDirty(clients: map<nat, Client>, w: nat)
    ensures MadeDirty(clients, {w}) == if w in clients then clients[w := clients[w].(dirty := true)] else clients
  {
  }

  lemma DirtyTwice(clients: map<nat, Client>, a: set<nat>, b: set<nat>)
    ensures MadeDirty(MadeDirty(clients, a), b) == MadeDirty(clients, a + b)
  {
  }

  lemma NobodyHit(clients: map<nat, Client>)
    ensures MadeDirty(clients, {}) == clients
  {
  }

  function RegisteredIn(s: State, db: int, keys: set<Key>): set<nat> {
    set key, w | key in keys && key in s.table && (db == -1 || key.db == db) && w in s.table[key] :: w
  }

  lemma OneMoreList(s: State, db: int, keys: set<Key>, key: Key)
    requires key in s.table
    ensures RegisteredIn(s, db, keys + {key})
            == RegisteredIn(s, db, keys) + if db == -1 || key.db == db then Members(s.table[key]) else {}
  {
    var more, rest := RegisteredIn(s, db, keys + {key}), RegisteredIn(s, db, keys);
    forall w | w in rest || ((db == -1 || key.db == db) && w in s.table[key]) ensures w in more {
    }
  }

  lemma AllLists(s: State, db: int)
    ensures RegisteredIn(s, db, s.table.Keys) == Registered(s, db) && RegisteredIn(s, db, {}) == {}
  {
  }

  lemma WalkStart(s: State, key: Key, ws: seq<nat>)
    ensures ws[..0] == [] && Staying(s, key, []) == []
    ensures MadeDirty(s.clients, Hit(s, key, [])) == s.clients
  {
  }

  /** One watcher of the list: it stays, or is hit and goes. That the clients hit before it are dirty already makes no
      difference. */
  lemma WalkStep(s: State, key: Key, ws: seq<nat>, n: nat)
    requires n < |ws|
    ensures var w := ws[n]; var stays := Stays(s, key, w);
            && Staying(s, key, ws[..n + 1]) == Staying(s, key, ws[..n]) + (if stays then [w] else [])
            && Hit(s, key, ws[..n + 1])
               == Hit(s, key, ws[..n]) + if w in s.clients && !stays then {w} else {}
  {
    assert ws[..n + 1] == ws[..n] + [ws[n]];
    StayingAppend(s, key, ws[..n], ws[n]);
  }

  lemma {:induction false} StayingAppend(s: State, key: Key, ws: seq<nat>, w: nat)
    ensures Staying(s, key, ws + [w])
            == Staying(s, key, ws) + if Stays(s, key, w) then [w] else []
  {
    if ws == [] {
      assert ws + [w] == [w] && [w][1..] == [];
    } else {
      assert (ws + [w])[0] == ws[0] && (ws + [w])[1..] == ws[1..] + [w];
      StayingAppend(s, key, ws[1..], w);
    }
  }
}
