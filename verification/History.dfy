/** The record of a run in terms of the run's own steps. The state carries a record of what happened; here each part of
    it is tied to the steps that put it there, in both directions and over every run: the record holds something exactly
    if a step of the run did it.
  */
module History {
  import opened Basics
  import opened MessageIds
  import opened Registry
  import opened Protocol
  import opened Ownership
  import opened Stranded
  import opened Delivery

  /** What one step can do. */
  datatype Moment =
    | MessageAccepted(tag: nat)
    | AcceptedFromUp(tag: nat)      // accepted with its sender connected at that moment
    | SendDelivers(tag: nat)        // its own send finds that the recipient took it
    | SendAcknowledges(tag: nat)    // and the sender's listener takes an acknowledgement
    | FlushDelivers(tag: nat)
    | FlushEnds(tag: nat)           // the flush is done with it and releases its node
    | FlushAcknowledges(tag: nat)   // with its sender connected, whose listener takes an acknowledgement
    | Overtakes(tag: nat)           // a CONNECT detaches it while its own send is in flight
    | Discards(tag: nat)            // its node goes with its recipient
    | Removes(tag: nat, own: nat)   // the settling send of message `own` takes its node out
    | Departs(name: Name)

  predicate Occurs(m: Moment, s: State, a: Action) {
    match m
    case MessageAccepted(t) => Accepts(s, a) && t == |s.accepted|
    case AcceptedFromUp(t) => Accepts(s, a) && t == |s.accepted| && Up(s.users, a.sender)
    case SendDelivers(t) => SendReturns(s, a, t) && a.ok
    case SendAcknowledges(t) => SendReturns(s, a, t) && a.ok && a.ackOk
    case FlushDelivers(t) =>
      a.FlushOutcome? && a.ok && a.tid in s.workers && s.workers[a.tid].Flushing? && Heads(s.workers[a.tid].pending, t)
    case FlushEnds(t) => FlushPasses(s, a, t)
    case FlushAcknowledges(t) =>
      FlushPasses(s, a, t) && a.ackOk && t < |s.accepted| && Up(s.users, s.accepted[t].msg.sender)
    case Overtakes(t) => Detaches(s, a, t) && t in InFlight(s.workers)
    case Discards(t) => Drops(s, a, t)
    case Removes(t, own) => TakesOut(s, a, t, own)
    case Departs(n) => a == DoUnregister(n) && n in s.users
  }

  predicate Accepts(s: State, a: Action) {
    a.DoSend? && a.tid !in s.workers && a.sender in s.users && a.dest in s.users
  }

  predicate SendReturns(s: State, a: Action, t: nat) {
    a.SendOutcome? && a.tid in s.workers && s.workers[a.tid].Sending? && s.workers[a.tid].node.tag == t
  }

  predicate FlushPasses(s: State, a: Action, t: nat) {
    a.AckFlushed? && a.tid in s.workers && s.workers[a.tid].Acking? && Heads(s.workers[a.tid].pending, t)
  }

  predicate Heads(q: seq<Node>, t: nat) {
    q != [] && q[0].tag == t
  }

  predicate Detaches(s: State, a: Action, t: nat) {
    a.DoConnect? && a.tid !in s.workers && a.name in s.users && !s.users[a.name].connected
    && t in Tags(s.users[a.name].queue)
  }

  predicate Drops(s: State, a: Action, t: nat) {
    || (a.DoUnregister? && a.name in s.users && t in Tags(s.users[a.name].queue))
    || (a.GiveBack? && a.tid in s.workers && s.workers[a.tid].GivingUp? && s.workers[a.tid].dest !in s.users
        && t in Tags(s.workers[a.tid].pending))
  }

  predicate TakesOut(s: State, a: Action, t: nat, own: nat) {
    && a.Settle? && a.tid in s.workers && s.workers[a.tid].Settling? && s.workers[a.tid].ok
    && s.workers[a.tid].node.tag == own && s.workers[a.tid].dest in s.users
    && FirstWithKey(s.users[s.workers[a.tid].dest].queue, s.workers[a.tid].node.msg, t)
  }

  /** The first node of the message's key has tag t. */
  predicate FirstWithKey(q: seq<Node>, m: Msg, t: nat) {
    exists i :: 0 <= i < |q| && q[i].tag == t && KeyOf(q[i].msg) == KeyOf(m)
                && forall j | 0 <= j < i :: KeyOf(q[j].msg) != KeyOf(m)
  }

  ghost predicate OccursAt(steps: seq<Action>, i: nat, m: Moment) {
    i < |steps| && Occurs(m, Run(steps[..i]), steps[i])
  }

  /** Some step of the run does it. */
  ghost predicate Ever(steps: seq<Action>, m: Moment) {
    exists i: nat :: OccursAt(steps, i, m)
  }

  lemma NeverYet(m: Moment)
    ensures !Ever([], m)
  {
  }

  lemma OneMoreStep(steps: seq<Action>, a: Action, i: nat, m: Moment)
    ensures OccursAt(steps + [a], i, m) <==> OccursAt(steps, i, m) || (i == |steps| && Occurs(m, Run(steps), a))
  {
    var more := steps + [a];
    if i <= |steps| {
      assert more[..i] == steps[..i];
      assert steps[..|steps|] == steps;
    }
  }

  lemma EverSnoc(steps: seq<Action>, a: Action, m: Moment)
    ensures Ever(steps + [a], m) <==> Ever(steps, m) || Occurs(m, Run(steps), a)
  {
    forall i: nat
      ensures OccursAt(steps + [a], i, m) <==> OccursAt(steps, i, m) || (i == |steps| && Occurs(m, Run(steps), a))
    {
      OneMoreStep(steps, a, i, m);
    }
    assert OccursAt(steps + [a], |steps|, m) <==> OccursAt(steps, |steps|, m) || Occurs(m, Run(steps), a);
  }

  // ---- Each part of the record, one step at a time.

  function Reporting(r: Report): Moment {
    if r.byFlush then FlushDelivers(r.tag) else SendDelivers(r.tag)
  }

  /** The logs only grow at their ends. */
  lemma LogsGrow(s: State, a: Action)
    ensures s.accepted <= Apply(s, a).accepted && s.reports <= Apply(s, a).reports && s.acks <= Apply(s, a).acks
  {
  }

  lemma AcceptedStep(s: State, a: Action)
    ensures |Apply(s, a).accepted| == |s.accepted| + if Accepts(s, a) then 1 else 0
  {
  }

  lemma ReportStep(s: State, a: Action, r: Report)
    ensures r in Apply(s, a).reports <==> r in s.reports || Occurs(Reporting(r), s, a)
  {
  }

  lemma OvertakenStep(s: State, a: Action, t: nat)
    ensures t in Apply(s, a).overtaken <==> t in s.overtaken || Occurs(Overtakes(t), s, a)
  {
  }

  lemma GoneStep(s: State, a: Action, n: Name)
    ensures n in Apply(s, a).gone <==> n in s.gone || Occurs(Departs(n), s, a)
  {
  }

  // ---- Over whole runs.

  /** The message with tag t was accepted exactly if some step accepted it as the t-th; a message is accepted exactly
      by a send between registered users. */
  lemma {:induction false} AcceptedIff(steps: seq<Action>, t: nat)
    ensures t < |Run(steps).accepted| <==> Ever(steps, MessageAccepted(t))
  {
    if steps == [] {
      NeverYet(MessageAccepted(t));
    } else {
      var init, a := steps[..|steps| - 1], steps[|steps| - 1];
      assert steps == init + [a];
      AcceptedIff(init, t);
      EverSnoc(init, a, MessageAccepted(t));
      AcceptedStep(Run(init), a);
    }
  }

  /** What was accepted is the message of the step that accepted it, under the next id of its sender, with text and file
      name cut to 255 bytes. */
  lemma {:induction false} AcceptedAs(steps: seq<Action>, i: nat, t: nat)
    requires OccursAt(steps, i, MessageAccepted(t))
    ensures t < |Run(steps).accepted|
    ensures var a, us, e := steps[i], Run(steps[..i]).users, Run(steps).accepted[t];
      && e.dest == a.dest && e.msg.sender == a.sender && e.msg.id == NextId(us[a.sender].lastId)
      && e.msg.text == Cut(a.text, 255) && e.msg.attach == a.attach
      && e.msg.file == if a.attach then Cut(a.file, 255) else []
  {
    var init, last := steps[..|steps| - 1], steps[|steps| - 1];
    assert steps == init + [last];
    if i < |init| {
      OneMoreStep(init, last, i, MessageAccepted(t));
      assert init[..i] == steps[..i];
      AcceptedAs(init, i, t);
      LogsGrow(Run(init), last);
    } else {
      assert steps[..i] == init;
      AcceptedNow(Run(init), last);
    }
  }

  lemma AcceptedNow(s: State, a: Action)
    requires Accepts(s, a)
    ensures Apply(s, a).accepted == s.accepted +
              [Entry(a.dest, Msg(NextId(s.users[a.sender].lastId), a.sender, Cut(a.text, 255),
                                 if a.attach then Cut(a.file, 255) else [], a.attach))]
  {
  }

  /** Exactly the deliveries that succeeded are reported, each once. */
  lemma {:induction false} ReportedIff(steps: seq<Action>, r: Report)
    ensures multiset(Run(steps).reports)[r] == if Ever(steps, Reporting(r)) then 1 else 0
  {
    ReportsStaySound(steps);
    ReportedMember(steps, r);
  }

  lemma {:induction false} ReportedMember(steps: seq<Action>, r: Report)
    ensures r in Run(steps).reports <==> Ever(steps, Reporting(r))
  {
    if steps == [] {
      NeverYet(Reporting(r));
    } else {
      var init, a := steps[..|steps| - 1], steps[|steps| - 1];
      assert steps == init + [a];
      ReportedMember(init, r);
      EverSnoc(init, a, Reporting(r));
      ReportStep(Run(init), a, r);
    }
  }

  /** Exactly the messages count as overtaken that a CONNECT detached while their own send was in flight. */
  lemma {:induction false} OvertakenIff(steps: seq<Action>, t: nat)
    ensures t in Run(steps).overtaken <==> Ever(steps, Overtakes(t))
  {
    if steps == [] {
      NeverYet(Overtakes(t));
    } else {
      var init, a := steps[..|steps| - 1], steps[|steps| - 1];
      assert steps == init + [a];
      OvertakenIff(init, t);
      EverSnoc(init, a, Overtakes(t));
      OvertakenStep(Run(init), a, t);
    }
  }

  /** Exactly the names count as gone that were unregistered while they were known. */
  lemma {:induction false} GoneIff(steps: seq<Action>, n: Name)
    ensures n in Run(steps).gone <==> Ever(steps, Departs(n))
  {
    if steps == [] {
      NeverYet(Departs(n));
    } else {
      var init, a := steps[..|steps| - 1], steps[|steps| - 1];
      assert steps == init + [a];
      GoneIff(init, n);
      EverSnoc(init, a, Departs(n));
      GoneStep(Run(init), a, n);
    }
  }

  // ---- Releases.

  /** What releases the node of message t and leaves it at `p`. */
  function Releasing(t: nat, p: Place): Moment
    requires Released(p)
  {
    match p
    case RemovedBy(own) => Removes(t, own)
    case FlushedAway => FlushEnds(t)
    case _ => Discards(t)
  }

  predicate PlacedAt(place: seq<Place>, t: nat, p: Place) {
    t < |place| && place[t] == p
  }

  /** Moving an unreleased node changes where this one is and no other. */
  lemma OneMoved(place: seq<Place>, x: nat, to: Place, t: nat, p: Place)
    requires Released(p) && x < |place| && !Released(place[x])
    ensures PlacedAt(Moved(place, [x], to), t, p) <==> PlacedAt(place, t, p) || (p == to && t == x)
  {
    assert t in [x] <==> t == x;
  }

  /** The nodes are accepted messages' and not released. */
  predicate Live(place: seq<Place>, q: seq<Node>) {
    forall i | 0 <= i < |q| :: q[i].tag < |place| && !Released(place[q[i].tag])
  }

  lemma HeldIsLive(accepted: seq<Entry>, place: seq<Place>, q: seq<Node>, dest: Name, at: Place)
    requires |place| == |accepted| && Holds(accepted, place, q, dest, at) && !Released(at)
    ensures Live(place, q)
  {
  }

  /** Moving unreleased nodes changes where these are and no other. */
  lemma MovedPlaces(place: seq<Place>, q: seq<Node>, to: Place, t: nat, p: Place)
    requires Released(p) && Live(place, q)
    ensures PlacedAt(Moved(place, Tags(q), to), t, p) <==> PlacedAt(place, t, p) || (p == to && t in Tags(q))
  {
    if t in Tags(q) {
      var i: nat :| i < |q| && Tags(q)[i] == t;
    }
  }

  lemma UnregisterPlaces(s: State, n: Name, t: nat, p: Place)
    requires OwnInv(s) && Released(p)
    ensures PlacedAt(UnregisterStep(s, n).place, t, p)
            <==> PlacedAt(s.place, t, p) || Occurs(Releasing(t, p), s, DoUnregister(n))
  {
    if n in s.users {
      var q := s.users[n].queue;
      HeldIsLive(s.accepted, s.place, q, n, InQueue(n));
      MovedPlaces(s.place, q, Discarded, t, p);
      assert UnregisterStep(s, n).place == Moved(s.place, Tags(q), Discarded);
    }
  }

  lemma GiveBackPlaces(s: State, tid: nat, t: nat, p: Place)
    requires OwnInv(s) && Released(p)
    ensures PlacedAt(GiveBackStep(s, tid).place, t, p)
            <==> PlacedAt(s.place, t, p) || Occurs(Releasing(t, p), s, GiveBack(tid))
  {
    if tid in s.workers && s.workers[tid].GivingUp? {
      var w := s.workers[tid];
      var to := if w.dest in s.users then InQueue(w.dest) else Discarded;
      HeldIsLive(s.accepted, s.place, w.pending, w.dest, Detached(tid));
      MovedPlaces(s.place, w.pending, to, t, p);
      assert GiveBackStep(s, tid).place == Moved(s.place, Tags(w.pending), to);
      GiveBackReleases(s, tid, t, p);
    }
  }

  /** What a failed flush releases when it gives up. */
  lemma GiveBackReleases(s: State, tid: nat, t: nat, p: Place)
    requires Released(p) && tid in s.workers && s.workers[tid].GivingUp?
    ensures var w := s.workers[tid];
            Occurs(Releasing(t, p), s, GiveBack(tid)) <==> p == Discarded && w.dest !in s.users && t in Tags(w.pending)
  {
  }

  lemma AckFlushedPlaces(s: State, tid: nat, ackOk: bool, t: nat, p: Place)
    requires OwnInv(s) && Released(p)
    ensures PlacedAt(AckFlushedStep(s, tid, ackOk).place, t, p)
            <==> PlacedAt(s.place, t, p) || Occurs(Releasing(t, p), s, AckFlushed(tid, ackOk))
  {
    if tid in s.workers && s.workers[tid].Acking? {
      var w := s.workers[tid];
      HeldIsLive(s.accepted, s.place, w.pending, w.dest, Detached(tid));
      var head := w.pending[0].tag;
      OneMoved(s.place, head, FlushedAway, t, p);
      assert AckFlushedStep(s, tid, ackOk).place == Moved(s.place, [head], FlushedAway);
      assert Occurs(Releasing(t, p), s, AckFlushed(tid, ackOk)) <==> p == FlushedAway && t == head;
    }
  }

  lemma ConnectPlaces(s: State, tid: nat, n: Name, ip: Bytes, port: Bytes, t: nat, p: Place)
    requires OwnInv(s) && Released(p)
    ensures PlacedAt(ConnectStep(s, tid, n, ip, port).place, t, p) <==> PlacedAt(s.place, t, p)
  {
    if n in s.users {
      assert Holds(s.accepted, s.place, s.users[n].queue, n, InQueue(n));
    }
  }

  lemma SettlePlaces(s: State, tid: nat, t: nat, p: Place)
    requires OwnInv(s) && StrandInv(s) && Released(p)
    ensures PlacedAt(SettleStep(s, tid).place, t, p)
            <==> PlacedAt(s.place, t, p) || Occurs(Releasing(t, p), s, Settle(tid))
  {
    if tid in s.workers && s.workers[tid].Settling? && s.workers[tid].ok && s.workers[tid].dest in s.users {
      var w := s.workers[tid];
      var q := s.users[w.dest].queue;
      assert WorkerTidy(w) && TidyRecord(s.users[w.dest]);
      HeldIsLive(s.accepted, s.place, q, w.dest, InQueue(w.dest));
      RemovalPlaces(s.place, q, w.node, t, p);
      assert SettleStep(s, tid).place == AfterRemoval(s.place, q, w.node);
      SettleReleases(s, tid, t, p);
    }
  }

  /** What a delivered send that settles releases. */
  lemma SettleReleases(s: State, tid: nat, t: nat, p: Place)
    requires Released(p) && tid in s.workers && s.workers[tid].Settling? && s.workers[tid].ok
    requires s.workers[tid].dest in s.users
    ensures var w := s.workers[tid];
            Occurs(Releasing(t, p), s, Settle(tid))
            <==> p == RemovedBy(w.node.tag) && FirstWithKey(s.users[w.dest].queue, w.node.msg, t)
  {
  }

  function AfterRemoval(place: seq<Place>, q: seq<Node>, node: Node): seq<Place> {
    var i := FirstMatch(q, node.msg);
    if i < |q| then Moved(place, [q[i].tag], RemovedBy(node.tag)) else place
  }

  lemma RemovalPlaces(place: seq<Place>, q: seq<Node>, node: Node, t: nat, p: Place)
    requires PlainHaveNoFile(q) && (!node.msg.attach ==> node.msg.file == []) && Released(p) && Live(place, q)
    ensures PlacedAt(AfterRemoval(place, q, node), t, p)
            <==> PlacedAt(place, t, p) || (p == RemovedBy(node.tag) && FirstWithKey(q, node.msg, t))
  {
    var i := FirstMatch(q, node.msg);
    TakenOutIs(q, node.msg, t);
    if i < |q| {
      OneMoved(place, q[i].tag, RemovedBy(node.tag), t, p);
    }
  }

  /** The removal's target is the first node of the message's key. */
  lemma FirstOfKey(q: seq<Node>, m: Msg)
    requires PlainHaveNoFile(q) && (!m.attach ==> m.file == [])
    ensures var i := FirstMatch(q, m);
      && (i < |q| ==> KeyOf(q[i].msg) == KeyOf(m))
      && (forall j | 0 <= j < i :: KeyOf(q[j].msg) != KeyOf(m))
  {
    forall j | 0 <= j < |q| ensures Takes(q[j], m) <==> KeyOf(q[j].msg) == KeyOf(m) {
      TakesIsKeyEquality(q[j], m);
    }
  }

  lemma TakenOutIs(q: seq<Node>, m: Msg, t: nat)
    requires PlainHaveNoFile(q) && (!m.attach ==> m.file == [])
    ensures var i := FirstMatch(q, m); FirstWithKey(q, m, t) <==> i < |q| && q[i].tag == t
  {
    FirstOfKey(q, m);
  }

  lemma OtherPlaces(s: State, a: Action, t: nat, p: Place)
    requires OwnInv(s) && Released(p)
    requires a.DoRegister? || a.DoDisconnect? || a.DoSend? || a.SendOutcome? || a.FlushOutcome?
    ensures PlacedAt(Apply(s, a).place, t, p) <==> PlacedAt(s.place, t, p)
  {
  }

  lemma PlaceStep(s: State, a: Action, t: nat, p: Place)
    requires OwnInv(s) && StrandInv(s) && Released(p)
    ensures PlacedAt(Apply(s, a).place, t, p) <==> PlacedAt(s.place, t, p) || Occurs(Releasing(t, p), s, a)
  {
    match a
    case DoUnregister(n) =>
      assert Apply(s, a) == UnregisterStep(s, n);
      UnregisterPlaces(s, n, t, p);
    case DoConnect(tid, n, ip, port) =>
      assert Apply(s, a) == ConnectStep(s, tid, n, ip, port) && !Occurs(Releasing(t, p), s, a);
      ConnectPlaces(s, tid, n, ip, port, t, p);
    case Settle(tid) =>
      assert Apply(s, a) == SettleStep(s, tid);
      SettlePlaces(s, tid, t, p);
    case AckFlushed(tid, ackOk) =>
      assert Apply(s, a) == AckFlushedStep(s, tid, ackOk);
      AckFlushedPlaces(s, tid, ackOk, t, p);
    case GiveBack(tid) =>
      assert Apply(s, a) == GiveBackStep(s, tid);
      GiveBackPlaces(s, tid, t, p);
    case _ => OtherPlaces(s, a, t, p);
  }

  /** The node of message t is released, and the way the record says, exactly if a step of the run released it that
      way: the flush that delivered it, a send that took it for its own, or the end of its recipient. */
  lemma {:induction false} ReleasedIff(steps: seq<Action>, t: nat, p: Place)
    requires Released(p)
    ensures PlacedAt(Run(steps).place, t, p) <==> Ever(steps, Releasing(t, p))
  {
    if steps == [] {
      NeverYet(Releasing(t, p));
    } else {
      var init, a := steps[..|steps| - 1], steps[|steps| - 1];
      assert steps == init + [a];
      ReleasedIff(init, t, p);
      AlwaysOwned(init);
      NeverStranded(init);
      EverSnoc(init, a, Releasing(t, p));
      PlaceStep(Run(init), a, t, p);
    }
  }
}
