/** When a message can be lost or delivered twice.

    A sender that was never unregistered and was given at most 2^32 - 1 ids has distinct ids; for such
    a sender a removal by key is always a removal of the message's own node. Without that condition the
    code does lose messages, as a concrete run shows.
  */
module Loss {
  import opened Basics
  import opened MessageIds
  import opened Registry
  import opened Protocol
  import opened Ownership
  import opened Delivery
  import opened Ledger

  /** How many ids a sender was given. */
  function Assigned(log: seq<Entry>, n: Name): nat {
    if log == [] then 0
    else Assigned(log[..|log| - 1], n) + if log[|log| - 1].msg.sender == n then 1 else 0
  }

  /** A registered sender's counter stands where the number of its messages puts it. */
  ghost predicate CountersFollow(us: Users, log: seq<Entry>, gone: set<Name>) {
    forall n | n !in gone ::
      if n in us then us[n].lastId == IdAfter(Assigned(log, n)) else Assigned(log, n) == 0
  }

  /** Every message has the id its position among its sender's calls for. */
  ghost predicate LogFollows(log: seq<Entry>, gone: set<Name>) {
    forall t | 0 <= t < |log| && log[t].msg.sender !in gone ::
      log[t].msg.id == IdAfter(Assigned(log[..t], log[t].msg.sender) + 1)
  }

  /** Every id is the one its position since registration calls for, while the sender stays registered. */
  ghost predicate IdInv(s: State) {
    CountersFollow(s.users, s.accepted, s.gone) && LogFollows(s.accepted, s.gone)
  }

  /** Storing a message moves the sender's counter and no other. */
  lemma EnqueueCounts(us: Users, sender: Name, dest: Name, tag: nat, text: Bytes, file: Bytes, attach: bool)
    requires sender in us && dest in us
    ensures var us' := Enqueue(us, sender, dest, tag, text, file, attach).users;
      && us'.Keys == us.Keys
      && forall n | n in us :: us'[n].lastId == if n == sender then NextId(us[n].lastId) else us[n].lastId
  {
  }

  lemma SendKeepsIds(s: State, tid: nat, sender: Name, dest: Name, text: Bytes, file: Bytes, attach: bool)
    requires IdInv(s)
    ensures IdInv(SendStep(s, tid, sender, dest, text, file, attach))
  {
    if tid !in s.workers && sender in s.users && dest in s.users {
      var us' := Enqueue(s.users, sender, dest, |s.accepted|, text, file, attach).users;
      var e := Entry(dest, Compose(NextId(s.users[sender].lastId), sender, text, file, attach));
      EnqueueCounts(s.users, sender, dest, |s.accepted|, text, file, attach);
      CountersGrow(s.users, us', s.accepted, e, s.gone);
      LogGrows(s.accepted, e, s.gone);
    }
  }

  lemma CountersGrow(us: Users, us': Users, log: seq<Entry>, e: Entry, gone: set<Name>)
    requires CountersFollow(us, log, gone) && us'.Keys == us.Keys && e.msg.sender in us
    requires forall n | n in us :: us'[n].lastId == if n == e.msg.sender then NextId(us[n].lastId) else us[n].lastId
    ensures CountersFollow(us', log + [e], gone)
    ensures e.msg.sender !in gone ==> NextId(us[e.msg.sender].lastId) == IdAfter(Assigned(log, e.msg.sender) + 1)
  {
    SnocParts(log, e);
  }

  lemma LogGrows(log: seq<Entry>, e: Entry, gone: set<Name>)
    requires LogFollows(log, gone)
    requires e.msg.sender !in gone ==> e.msg.id == IdAfter(Assigned(log, e.msg.sender) + 1)
    ensures LogFollows(log + [e], gone)
  {
    var log' := log + [e];
    forall t | 0 <= t < |log'| && log'[t].msg.sender !in gone
      ensures log'[t].msg.id == IdAfter(Assigned(log'[..t], log'[t].msg.sender) + 1)
    {
      assert log'[..t] == log[..t];
      assert log[..|log|] == log;
    }
  }

  /** Counters survive everything but registration, which starts them at 0, and unregistration. */
  ghost predicate CountersStay(s: State, s': State) {
    && (forall n | n in s'.users :: s'.users[n].lastId == if n in s.users then s.users[n].lastId else 0)
    && (forall n | n in s.users && n !in s'.users :: n in s'.gone)
    && s.gone <= s'.gone
    && s'.accepted == s.accepted
  }

  lemma StepKeepsCounters(s: State, a: Action)
    requires !a.DoSend?
    ensures CountersStay(s, Apply(s, a))
  {
    if a.Settle? {
      SettleKeepsCounters(s, a.tid);
    } else if a.GiveBack? {
      GiveBackKeepsCounters(s, a.tid);
    } else if a.DoConnect? {
      ConnectKeepsCounters(s, a.tid, a.name, a.ip, a.port);
    }
  }

  lemma SettleKeepsCounters(s: State, tid: nat)
    ensures CountersStay(s, SettleStep(s, tid))
  {
  }

  lemma GiveBackKeepsCounters(s: State, tid: nat)
    ensures CountersStay(s, GiveBackStep(s, tid))
  {
  }

  lemma ConnectKeepsCounters(s: State, tid: nat, n: Name, ip: Bytes, port: Bytes)
    ensures CountersStay(s, ConnectStep(s, tid, n, ip, port))
  {
  }

  lemma OthersKeepIds(s: State, s': State)
    requires IdInv(s) && CountersStay(s, s')
    ensures IdInv(s')
  {
  }

  lemma {:induction false} IdsFollowPositions(steps: seq<Action>)
    ensures IdInv(Run(steps))
  {
    if steps != [] {
      var s, a := Run(steps[..|steps| - 1]), steps[|steps| - 1];
      IdsFollowPositions(steps[..|steps| - 1]);
      if a.DoSend? {
        SendKeepsIds(s, a.tid, a.sender, a.dest, a.text, a.file, a.attach);
      } else {
        StepKeepsCounters(s, a);
        OthersKeepIds(s, Apply(s, a));
      }
    }
  }

  /** Never unregistered, and at most 2^32 - 1 ids assigned. */
  predicate CleanSender(s: State, n: Name) {
    n !in s.gone && Assigned(s.accepted, n) <= MAX_IDS
  }

  lemma {:induction false} AssignedGrows(log: seq<Entry>, t: nat, n: Name)
    requires t <= |log|
    ensures Assigned(log[..t], n) <= Assigned(log, n)
    ensures t < |log| && log[t].msg.sender == n ==> Assigned(log[..t], n) + 1 <= Assigned(log, n)
  {
    if t == |log| {
      assert log[..t] == log;
    } else {
      var shorter := log[..|log| - 1];
      assert log[..t] == shorter[..t];
      AssignedGrows(shorter, t, n);
    }
  }

  /** A clean sender's messages have different ids, in the order they were accepted. */
  lemma {:induction false} CleanIdsGrow(steps: seq<Action>, t: nat, u: nat)
    requires t < u < |Run(steps).accepted|
    requires Run(steps).accepted[t].msg.sender == Run(steps).accepted[u].msg.sender
    requires CleanSender(Run(steps), Run(steps).accepted[t].msg.sender)
    ensures 0 < Run(steps).accepted[t].msg.id < Run(steps).accepted[u].msg.id
    ensures var n := Run(steps).accepted[t].msg.sender;
            n in Run(steps).users ==> Run(steps).accepted[u].msg.id <= Run(steps).users[n].lastId
  {
    IdsFollowPositions(steps);
    var s := Run(steps);
    FollowedIdsGrow(s.users, s.accepted, s.gone, t, u);
  }

  lemma {:induction false} FollowedIdsGrow(us: Users, log: seq<Entry>, gone: set<Name>, t: nat, u: nat)
    requires CountersFollow(us, log, gone) && LogFollows(log, gone)
    requires t < u < |log| && log[t].msg.sender == log[u].msg.sender && log[t].msg.sender !in gone
    requires Assigned(log, log[t].msg.sender) <= MAX_IDS
    ensures 0 < log[t].msg.id < log[u].msg.id
    ensures log[t].msg.sender in us ==> log[u].msg.id <= us[log[t].msg.sender].lastId
  {
    var n := log[t].msg.sender;
    AssignedGrows(log, u, n);
    assert log[..u][..t] == log[..t];
    AssignedGrows(log[..u], t, n);
    IdInLog(log, gone, t);
    IdInLog(log, gone, u);
    if n in us {
      CounterInUse(us, log, gone, n);
    }
  }

  /** Below the wrap the id is the message's position among its sender's. */
  lemma IdInLog(log: seq<Entry>, gone: set<Name>, t: nat)
    requires LogFollows(log, gone) && t < |log| && log[t].msg.sender !in gone
    requires Assigned(log[..t], log[t].msg.sender) + 1 <= MAX_IDS
    ensures log[t].msg.id == Assigned(log[..t], log[t].msg.sender) + 1
  {
    IdIsPosition(Assigned(log[..t], log[t].msg.sender) + 1);
  }

  lemma CounterInUse(us: Users, log: seq<Entry>, gone: set<Name>, n: Name)
    requires CountersFollow(us, log, gone) && n in us && n !in gone && Assigned(log, n) <= MAX_IDS
    ensures us[n].lastId == Assigned(log, n)
  {
    IdIsPosition(Assigned(log, n));
  }

  // ---- No loss.

  /** The removal by key never hits another message's node. */
  lemma RemovalHitsOwnNode(steps: seq<Action>, tid: nat)
    requires
      var s := Run(steps);
      && tid in s.workers && s.workers[tid].Settling? && s.workers[tid].dest in s.users
      && CleanSender(s, s.workers[tid].node.msg.sender)
    ensures
      var s, w := Run(steps), Run(steps).workers[tid];
      var q := s.users[w.dest].queue;
      FirstMatch(q, w.node.msg) < |q| ==> q[FirstMatch(q, w.node.msg)] == w.node
  {
    var s, w := Run(steps), Run(steps).workers[tid];
    var q := s.users[w.dest].queue;
    AlwaysOwned(steps);
    assert Holds(s.accepted, s.place, q, w.dest, InQueue(w.dest));
    var i := FirstMatch(q, w.node.msg);
    if i < |q| {
      var a, b := Min(q[i].tag, w.node.tag), Max(q[i].tag, w.node.tag);
      if a < b {
        CleanIdsGrow(steps, a, b);
      }
    }
  }

  function Max(a: nat, b: nat): nat {
    if a < b then b else a
  }

  lemma {:induction false} CleanRemovalIsOwn(steps: seq<Action>, t: nat, own: nat)
    requires t < |Run(steps).place| && Run(steps).place[t] == RemovedBy(own)
    requires t < |Run(steps).accepted| && CleanSender(Run(steps), Run(steps).accepted[t].msg.sender)
    ensures own == t && Report(t, false) in Run(steps).reports
  {
    var s := Run(steps);
    LedgerStaysSound(steps);
    assert Answers(s, t, own);
    if own != t {
      CleanIdsGrow(steps, Min(t, own), Max(t, own));
    }
  }

  /** Where an accepted message is while it is not lost. */
  ghost predicate Accounted(s: State, t: nat)
    requires t < |s.accepted|
  {
    || (exists i :: QueuedAt(s, t, s.accepted[t].dest, i))
    || (exists w, i :: DetachedAt(s, t, w, i) && s.workers[w].dest == s.accepted[t].dest)
    || Report(t, false) in s.reports
    || Report(t, true) in s.reports
  }

  lemma OwnerIsAccount(steps: seq<Action>, t: nat)
    requires t < |Run(steps).accepted|
    requires var p := Run(steps).place; t < |p| && (p[t].InQueue? || p[t].Detached? || p[t].FlushedAway?)
    ensures Accounted(Run(steps), t)
  {
    var s := Run(steps);
    AlwaysOwned(steps);
    ReportsStaySound(steps);
    assert Backed(s, t);
    match s.place[t] {
      case InQueue(n) =>
        var i :| 0 <= i < |s.users[n].queue| && Tags(s.users[n].queue)[i] == t;
        assert Holds(s.accepted, s.place, s.users[n].queue, n, InQueue(n));
        assert QueuedAt(s, t, s.accepted[t].dest, i);
      case Detached(w) =>
        var i :| 0 <= i < |s.workers[w].pending| && Tags(s.workers[w].pending)[i] == t;
        assert Holds(s.accepted, s.place, s.workers[w].pending, s.workers[w].dest, Detached(w));
        assert DetachedAt(s, t, w, i);
      case _ =>
    }
  }

  /** No loss: a message of a clean sender to a recipient that was never unregistered is in its
      recipient's queue, in the detached list of a CONNECT of its recipient, or was itself reported. */
  lemma NoLoss(steps: seq<Action>, t: nat)
    requires t < |Run(steps).accepted|
    requires CleanSender(Run(steps), Run(steps).accepted[t].msg.sender)
    requires Run(steps).accepted[t].dest !in Run(steps).gone
    ensures Accounted(Run(steps), t)
  {
    var s := Run(steps);
    LedgerStaysSound(steps);
    if s.place[t].RemovedBy? {
      CleanRemovalIsOwn(steps, t, s.place[t].tag);
    } else if !s.place[t].Discarded? {
      OwnerIsAccount(steps, t);
    }
  }

  /** In a given state a message is in no queue and no list and was not reported exactly when it was not reported
      and its node was thrown away with its recipient or removed by the send of another message. Its own send may
      still be about to try, so this alone does not mean that it is lost. */
  lemma {:induction false} MissingExactlyWhen(steps: seq<Action>, t: nat)
    requires t < |Run(steps).accepted|
    ensures
      var s := Run(steps);
      && t < |s.place|
      && (!Accounted(s, t) <==>
          && (s.place[t].Discarded? || (s.place[t].RemovedBy? && s.place[t].tag != t))
          && Report(t, false) !in s.reports && Report(t, true) !in s.reports)
  {
    var s := Run(steps);
    LedgerStaysSound(steps);
    match s.place[t]
    case RemovedBy(own) =>
      assert Answers(s, t, own);
      NotOwned(s, t);
    case Discarded => NotOwned(s, t);
    case _ => OwnerIsAccount(steps, t);
  }

  lemma NotOwned(s: State, t: nat)
    requires OwnInv(s) && t < |s.place| && Released(s.place[t])
    ensures forall n, i :: !QueuedAt(s, t, n, i)
    ensures forall w, i :: !DetachedAt(s, t, w, i)
  {
    forall n, i ensures !QueuedAt(s, t, n, i) {
      assert n in s.users ==> Holds(s.accepted, s.place, s.users[n].queue, n, InQueue(n));
    }
    forall w, i ensures !DetachedAt(s, t, w, i) {
      assert w in s.workers && !s.workers[w].IsSend() ==>
          Holds(s.accepted, s.place, s.workers[w].pending, s.workers[w].dest, Detached(w));
    }
  }

  /** A message is reported twice only if a CONNECT detached its node while its send was in flight, or its send removed
      another message's node in place of its own. */
  lemma {:induction false} SecondDeliveryNeeds(steps: seq<Action>, t: nat)
    requires Report(t, false) in Run(steps).reports && Report(t, true) in Run(steps).reports
    ensures t < |Run(steps).place| && (t in Run(steps).overtaken || TookAnother(Run(steps), t))
  {
    var s := Run(steps);
    LedgerStaysSound(steps);
    FlushReportsStayPlaced(steps);
    if t in InFlight(s.workers) {
      var w :| w in s.workers && s.workers[w].IsSend() && s.workers[w].node.tag == t;
    } else {
      assert SettledWell(s, t);
    }
  }

  /** For a clean sender only the first is left. */
  lemma {:induction false} SecondDeliveryNeedsOvertaking(steps: seq<Action>, t: nat)
    requires Report(t, false) in Run(steps).reports && Report(t, true) in Run(steps).reports
    requires t < |Run(steps).accepted| && CleanSender(Run(steps), Run(steps).accepted[t].msg.sender)
    ensures t in Run(steps).overtaken
  {
    var s := Run(steps);
    SecondDeliveryNeeds(steps, t);
    LedgerStaysSound(steps);
    if TookAnother(s, t) {
      var u :| 0 <= u < |s.place| && u != t && s.place[u] == RemovedBy(t);
      assert Answers(s, u, t);
      CleanRemovalIsOwn(steps, u, t);
    }
  }

  /** A message reported by a flush was flushed away, or heads the list of the CONNECT that reported it. */
  ghost predicate FlushReportsPlaced(s: State) {
    forall t | 0 <= t < |s.place| && Report(t, true) in s.reports :: s.place[t].FlushedAway? || s.place[t].Detached?
  }

  lemma MovedUnreported(s: State, q: seq<Node>, to: Place)
    requires FlushReportsPlaced(s) && Unreported(q, s.reports)
    ensures FlushReportsPlaced(s.(place := Moved(s.place, Tags(q), to)))
  {
  }

  lemma ListStepsKeepPlaced(s: State, a: Action)
    requires QueuesUnreported(s) && FlushesReport(s) && FlushReportsPlaced(s)
    requires a.DoUnregister? || a.DoConnect? || a.GiveBack?
    ensures FlushReportsPlaced(Apply(s, a))
  {
    if a.DoUnregister? && a.name in s.users {
      MovedUnreported(s, s.users[a.name].queue, Discarded);
    } else if a.DoConnect? && a.name in s.users {
      MovedUnreported(s, s.users[a.name].queue, Detached(a.tid));
    } else if a.GiveBack? && a.tid in s.workers && s.workers[a.tid].GivingUp? {
      var w := s.workers[a.tid];
      assert FlushReports(w, s.reports, s.acks);
      MovedUnreported(s, w.pending, if w.dest in s.users then InQueue(w.dest) else Discarded);
    }
  }

  lemma SettleKeepsPlaced(s: State, tid: nat)
    requires QueuesUnreported(s) && FlushReportsPlaced(s)
    ensures FlushReportsPlaced(SettleStep(s, tid))
  {
    if tid in s.workers && s.workers[tid].Settling? && s.workers[tid].dest in s.users {
      assert Unreported(s.users[s.workers[tid].dest].queue, s.reports);
    }
  }

  lemma FlushOutcomeKeepsPlaced(s: State, tid: nat, ok: bool)
    requires |s.place| == |s.accepted| && ListsOwn(s) && FlushReportsPlaced(s)
    ensures FlushReportsPlaced(FlushOutcomeStep(s, tid, ok))
  {
    if tid in s.workers && s.workers[tid].Flushing? {
      assert Holds(s.accepted, s.place, s.workers[tid].pending, s.workers[tid].dest, Detached(tid));
    }
  }

  lemma OthersKeepPlaced(s: State, a: Action)
    requires |s.place| == |s.accepted| && Once(s) && FlushReportsPlaced(s)
    requires a.DoRegister? || a.DoDisconnect? || a.DoSend? || a.SendOutcome? || a.AckFlushed?
    ensures FlushReportsPlaced(Apply(s, a))
  {
    forall t: nat | Report(t, true) in Apply(s, a).reports ensures t < |s.place| && Report(t, true) in s.reports {
      assert Report(t, true) in s.reports;
    }
  }

  lemma StepKeepsPlaced(s: State, a: Action)
    requires OwnInv(s) && DeliveryInv(s) && FlushReportsPlaced(s)
    ensures FlushReportsPlaced(Apply(s, a))
  {
    match a
    case Settle(tid) => SettleKeepsPlaced(s, tid);
    case FlushOutcome(tid, ok) => FlushOutcomeKeepsPlaced(s, tid, ok);
    case DoUnregister(_) => ListStepsKeepPlaced(s, a);
    case DoConnect(_, _, _, _) => ListStepsKeepPlaced(s, a);
    case GiveBack(_) => ListStepsKeepPlaced(s, a);
    case _ => OthersKeepPlaced(s, a);
  }

  lemma {:induction false} FlushReportsStayPlaced(steps: seq<Action>)
    ensures FlushReportsPlaced(Run(steps))
  {
    if steps != [] {
      var s, a := Run(steps[..|steps| - 1]), steps[|steps| - 1];
      FlushReportsStayPlaced(steps[..|steps| - 1]);
      AlwaysOwned(steps[..|steps| - 1]);
      ReportsStaySound(steps[..|steps| - 1]);
      StepKeepsPlaced(s, a);
    }
  }
}
