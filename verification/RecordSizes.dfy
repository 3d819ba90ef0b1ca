/** Over every run the registry respects the server's buffers, and so no USERS record is ever truncated. */
module RecordSizes {
  import opened Basics
  import opened Registry
  import opened Protocol
  import opened UsersReply

  lemma StepKeepsFits(s: State, a: Action)
    requires Fits(s.users) && (a.DoRegister? ==> |a.name| <= MAX_TEXT)
    ensures Fits(Apply(s, a).users)
  {
    var us, us' := s.users, Apply(s, a).users;
    match a
    case DoRegister(n) =>
      assert us' == Register(us, n).users;
      ListSectionsStayFitting(us, n, [], []);
    case DoUnregister(n) =>
      assert us' == Unregister(us, n).users;
      ListSectionsStayFitting(us, n, [], []);
    case DoConnect(tid, n, ip, port) =>
      assert us' == us || us' == Connect(us, n, ip, port).users;
      ListSectionsStayFitting(us, n, ip, port);
    case DoDisconnect(n, ip) =>
      assert us' == Disconnect(us, n, ip).users;
      ListSectionsStayFitting(us, n, ip, []);
    case DoSend(tid, sender, dest, text, file, attach) =>
      assert us' == SendStep(s, tid, sender, dest, text, file, attach).users;
      SendKeepsFits(s, tid, sender, dest, text, file, attach);
    case Settle(tid) =>
      assert us' == SettleStep(s, tid).users;
      SettleKeepsFits(s, tid);
    case GiveBack(tid) =>
      assert us' == GiveBackStep(s, tid).users;
      GiveBackKeepsFits(s, tid);
    case _ =>
  }

  lemma SendKeepsFits(s: State, tid: nat, sender: Name, dest: Name, text: Bytes, file: Bytes, attach: bool)
    requires Fits(s.users)
    ensures Fits(SendStep(s, tid, sender, dest, text, file, attach).users)
  {
    QueueSectionsStayFitting(s.users, sender, dest, |s.accepted|, text, file, attach, Msg(0, [], [], [], false), []);
  }

  lemma SettleKeepsFits(s: State, tid: nat)
    requires Fits(s.users)
    ensures Fits(SettleStep(s, tid).users)
  {
    if tid in s.workers && s.workers[tid].Settling? {
      var w := s.workers[tid];
      ListSectionsStayFitting(s.users, w.dest, [], []);
      QueueSectionsStayFitting(s.users, [], w.dest, 0, [], [], false, w.node.msg, []);
    }
  }

  lemma GiveBackKeepsFits(s: State, tid: nat)
    requires Fits(s.users)
    ensures Fits(GiveBackStep(s, tid).users)
  {
    if tid in s.workers && s.workers[tid].GivingUp? {
      var w := s.workers[tid];
      QueueSectionsStayFitting(s.users, [], w.dest, 0, [], [], false, Msg(0, [], [], [], false), w.pending);
    }
  }

  /** In every run names and addresses respect the server's buffers, if the names read do. */
  lemma {:induction false} AlwaysFits(steps: seq<Action>)
    requires forall i | 0 <= i < |steps| && steps[i].DoRegister? :: |steps[i].name| <= MAX_TEXT
    ensures Fits(Run(steps).users)
  {
    if steps != [] {
      AlwaysFits(steps[..|steps| - 1]);
      StepKeepsFits(Run(steps[..|steps| - 1]), steps[|steps| - 1]);
    }
  }

  /** In no run a USERS record is truncated. */
  lemma NeverTruncated(steps: seq<Action>, n: Name)
    requires forall i | 0 <= i < |steps| && steps[i].DoRegister? :: |steps[i].name| <= MAX_TEXT
    requires n in Run(steps).users
    ensures var r := Run(steps).users[n]; Printed(User(n, r)) == RecordText(n, r.ip, r.port)
  {
    AlwaysFits(steps);
    RecordsFitTheBuffer(Run(steps).users, n);
  }
}
