/**
 Which answers the response handler of bench_multiturn.py can leave unrecorded. The handler looks at the progress bar
 only after its wait on the queue has ended, so answers that arrive in between are left behind; the runs built here
 leave behind every number of answers that is possible at all.
 */
module WorkloadLosses {
  import opened Sums
  import opened Wrappers
  import opened Workload

  function Last(states: seq<System>): System
    requires |states| > 0
  {
    states[|states| - 1]
  }

  /** Every thread is at work and nothing is under way. */
  predicate Calm(s: System) {
    && !s.senderDone && !s.handlerDone && !s.timedOut
    && s.inFlight == [] && s.counted.None? && s.responses == [] && s.settling.None?
  }

  lemma Extend(c: Config, states: seq<System>, s': System)
    requires c.Valid() && IsRun(c, states) && Next(c, Last(states), s')
    ensures IsRun(c, states + [s']) && Last(states + [s']) == s' && Inv(c, s')
  {
    EveryStateIsSafe(c, states + [s']);
  }

  // ---- serving one client ----

  /** A waiting client is found in the ready queue. */
  lemma WaitingClient(c: Config, s: System, i: Client) returns (k: nat)
    requires Inv(c, s) && Calm(s) && i < c.clients && s.round[i] < c.rounds
    ensures k < |s.ready| && s.ready[k].client == i
  {
    UnansweredSize(s);
    assert Present(s)[i] == 1;
    assert Unanswered(s) == multiset{};
    assert i in multiset(ClientsOf(s.ready));
    k :| 0 <= k < |s.ready| && ClientsOf(s.ready)[k] == i;
  }

  /** The request at index k is sent, answered and queued. */
  lemma Respond(c: Config, states: seq<System>, k: nat) returns (longer: seq<System>)
    requires c.Valid() && IsRun(c, states) && Inv(c, Last(states)) && Calm(Last(states)) && k < |Last(states).ready|
    ensures IsRun(c, longer) && Inv(c, Last(longer))
    ensures Last(longer).responses == [Message(Last(states).ready[k].client, "")]
    ensures Last(longer).round == Last(states).round
    ensures Calm(Last(longer).(responses := []))
  {
    var s := Last(states);
    UnansweredSize(s);
    var s1 := Sent(s, k);
    assert Send(c, s, s1, k);
    Extend(c, states, s1);
    var s2 := Answered(s1, 0, "");
    assert Answer(s1, s2, 0, "");
    Extend(c, states + [s1], s2);
    var s3 := Enqueued(s2);
    assert Enqueue(s2, s3);
    Extend(c, states + [s1] + [s2], s3);
    longer := states + [s1] + [s2] + [s3];
  }

  lemma RecordOne(c: Config, states: seq<System>, i: Client) returns (longer: seq<System>)
    requires c.Valid() && IsRun(c, states) && Inv(c, Last(states)) && i < c.clients
    requires Calm(Last(states).(responses := [])) && Last(states).responses == [Message(i, "")]
    ensures IsRun(c, longer) && Inv(c, Last(longer))
    ensures Last(longer).settling == Some(i) && Calm(Last(longer).(settling := None))
    ensures Last(longer).round == Last(states).round[i := Last(states).round[i] + 1]
  {
    var s := Last(states);
    var s1 := Recorded(s);
    assert Record(s, s1);
    Extend(c, states, s1);
    longer := states + [s1];
  }

  /** The client whose answer is recorded goes back to the ready queue or has had all its rounds. */
  lemma Settle(c: Config, states: seq<System>) returns (longer: seq<System>)
    requires c.Valid() && IsRun(c, states) && Inv(c, Last(states))
    requires Last(states).settling.Some? && Calm(Last(states).(settling := None))
    ensures IsRun(c, longer) && Inv(c, Last(longer)) && Calm(Last(longer))
    ensures Last(longer).round == Last(states).round
  {
    var s' := SettlingCanMove(c, Last(states));
    Extend(c, states, s');
    longer := states + [s'];
  }

  /** The run ends calm, with these rounds recorded. */
  ghost predicate Reaches(c: Config, states: seq<System>, round: seq<nat>)
    requires c.Valid()
  {
    IsRun(c, states) && Calm(Last(states)) && Last(states).round == round
  }

  lemma ServeOne(c: Config, states: seq<System>, round: seq<nat>, i: Client) returns (longer: seq<System>)
    requires c.Valid() && Reaches(c, states, round) && i < |round| == c.clients && round[i] < c.rounds
    ensures Reaches(c, longer, round[i := round[i] + 1])
  {
    EveryStateIsSafe(c, states);
    var k := WaitingClient(c, Last(states), i);
    longer := Respond(c, states, k);
    longer := RecordOne(c, longer, i);
    longer := Settle(c, longer);
  }

  // ---- every distribution of rounds can be reached ----

  ghost predicate AtMostAll(round: seq<nat>, target: seq<nat>) {
    |round| == |target| && forall i :: 0 <= i < |round| ==> round[i] <= target[i]
  }

  lemma {:induction false} SumBelow(round: seq<nat>, target: seq<nat>)
    requires AtMostAll(round, target)
    ensures Sum(round) <= Sum(target)
  {
    if |round| > 0 {
      SumBelow(round[..|round| - 1], target[..|target| - 1]);
    }
  }

  lemma Behind(round: seq<nat>, target: seq<nat>) returns (i: nat)
    requires AtMostAll(round, target) && round != target
    ensures i < |round| && round[i] < target[i]
  {
    i :| 0 <= i < |round| && round[i] != target[i];
  }

  lemma CatchUp(round: seq<nat>, target: seq<nat>, i: nat)
    requires AtMostAll(round, target) && i < |round| && round[i] < target[i]
    ensures AtMostAll(round[i := round[i] + 1], target)
    ensures Sum(round) < Sum(round[i := round[i] + 1]) <= Sum(target)
  {
    SumUpdate(round, i, round[i] + 1);
    SumBelow(round[i := round[i] + 1], target);
  }

  lemma {:induction false} Reach(c: Config, states: seq<System>, round: seq<nat>, target: seq<nat>) returns (longer: seq<System>)
    requires c.Valid() && |target| == c.clients && Reaches(c, states, round)
    requires AtMostAll(round, target) && forall i :: 0 <= i < |target| ==> target[i] <= c.rounds
    ensures Reaches(c, longer, target)
    decreases Sum(target) - Sum(round)
  {
    if round == target {
      longer := states;
    } else {
      var i := Behind(round, target);
      longer := ServeOne(c, states, round, i);
      CatchUp(round, target, i);
      longer := Reach(c, longer, round[i := round[i] + 1], target);
    }
  }

  // ---- the last answers ----

  /** The first `left` clients still lack their last round. */
  function AllBut(c: Config, left: nat): (r: seq<nat>)
    requires c.Valid()
    ensures |r| == c.clients
  {
    seq(c.clients, i requires 0 <= i < c.clients => if i < left then c.rounds - 1 else c.rounds)
  }

  lemma {:induction false} SumOfAllBut(xs: seq<nat>, rounds: nat, left: nat)
    requires rounds >= 1 && forall i :: 0 <= i < |xs| ==> xs[i] == if i < left then rounds - 1 else rounds
    ensures Sum(xs) == |xs| * rounds - if left < |xs| then left else |xs|
  {
    if |xs| > 0 {
      SumOfAllBut(xs[..|xs| - 1], rounds, left);
      OneMoreRow(|xs| - 1, rounds);
    }
  }

  lemma {:induction false} CountExactly(m: multiset<Client>, round: seq<nat>, rounds: nat)
    requires forall i :: i in m ==> i < |round|
    requires forall i :: 0 <= i < |round| ==> m[i] + round[i] == rounds
    ensures |m| + Sum(round) == |round| * rounds
  {
    if |round| == 0 {
      assert m == multiset{};
    } else {
      var n := |round| - 1;
      CountExactly(m[n := 0], round[..n], rounds);
      OneMoreRow(n, rounds);
    }
  }

  /** Then exactly these clients are ready. */
  lemma ReadyClients(c: Config, s: System, left: nat)
    requires c.Valid() && Inv(c, s) && Calm(s) && s.round == AllBut(c, left) && left <= c.clients
    ensures |s.ready| == left && s.sent == s.completed == c.total - left
  {
    UnansweredSize(s);
    assert Present(s) == multiset(ClientsOf(s.ready));
    CountExactly(Present(s), s.round, c.rounds);
    SumOfAllBut(s.round, c.rounds, left);
  }

  /** While only requests are under way, all ready ones can be sent as long as the limit allows it. */
  lemma {:induction false} SendAll(c: Config, states: seq<System>) returns (longer: seq<System>)
    requires c.Valid() && IsRun(c, states) && Inv(c, Last(states)) && Calm(Last(states).(inFlight := []))
    requires Last(states).sent - Last(states).completed + |Last(states).ready| <= c.maxParallel
    ensures IsRun(c, longer) && Inv(c, Last(longer)) && Calm(Last(longer).(inFlight := [])) && Last(longer).ready == []
    ensures Last(longer).completed == Last(states).completed
    ensures |Last(longer).inFlight| == |Last(states).inFlight| + |Last(states).ready|
    decreases |Last(states).ready|
  {
    var s := Last(states);
    if s.ready == [] {
      longer := states;
    } else {
      var s1 := Sent(s, 0);
      assert Send(c, s, s1, 0);
      Extend(c, states, s1);
      longer := SendAll(c, states + [s1]);
    }
  }

  /** The handler's wait has ended; meanwhile the server answers everything. */
  lemma {:induction false} AnswerAll(c: Config, states: seq<System>) returns (longer: seq<System>)
    requires c.Valid() && IsRun(c, states) && Inv(c, Last(states)) && Last(states).counted.None?
    ensures IsRun(c, longer) && Inv(c, Last(longer))
    ensures var s, s' := Last(states), Last(longer);
            && s'.inFlight == [] && s'.counted.None? && |s'.responses| == |s.responses| + |s.inFlight|
            && s'.ready == s.ready && s'.completed == s.completed && s'.settling == s.settling
            && s'.timedOut == s.timedOut && s'.senderDone == s.senderDone && s'.handlerDone == s.handlerDone
    decreases |Last(states).inFlight|
  {
    var s := Last(states);
    if s.inFlight == [] {
      longer := states;
    } else {
      var s1 := Answered(s, 0, "");
      assert Answer(s, s1, 0, "");
      Extend(c, states, s1);
      var s2 := Enqueued(s1);
      assert Enqueue(s1, s2);
      Extend(c, states + [s1], s2);
      longer := AnswerAll(c, states + [s1] + [s2]);
    }
  }

  // ---- the exact losses ----

  /** A run after which the handler has stopped and `loss` answers are not recorded. */
  ghost predicate Loses(c: Config, states: seq<System>, loss: int)
    requires c.Valid()
  {
    IsRun(c, states) && Last(states).handlerDone && c.total - Last(states).completed == loss
  }

  /** All rounds but the last ones of some clients are recorded, and these last requests are under way. */
  lemma LastRequests(c: Config, loss: nat) returns (states: seq<System>)
    requires c.Valid() && loss <= c.maxParallel && loss <= c.clients
    ensures IsRun(c, states) && Inv(c, Last(states)) && Calm(Last(states).(inFlight := []))
    ensures Last(states).completed == c.total - loss && |Last(states).inFlight| == loss && Last(states).ready == []
  {
    InitInv(c);
    states := Reach(c, [Init(c)], Init(c).round, AllBut(c, loss));
    EveryStateIsSafe(c, states);
    ReadyClients(c, Last(states), loss);
    states := SendAll(c, states);
  }

  /** The handler's wait ends, the server answers, and only then the handler looks at the bar. */
  lemma StopTooEarly(c: Config, states: seq<System>) returns (longer: seq<System>)
    requires c.Valid() && IsRun(c, states) && Inv(c, Last(states)) && Calm(Last(states).(inFlight := []))
    requires Last(states).completed == c.total - |Last(states).inFlight|
    ensures IsRun(c, longer) && Last(longer).handlerDone && !Last(longer).senderDone && Last(longer).counted.None?
    ensures Last(longer).completed == Last(states).completed && |Last(longer).responses| == |Last(states).inFlight|
  {
    var s := Last(states);
    var waited := s.(timedOut := true);
    assert TimeOut(s, waited);
    Extend(c, states, waited);
    longer := AnswerAll(c, states + [waited]);
    s := Last(longer);
    var stopped := s.(timedOut := false, handlerDone := s.progress == c.total);
    assert ReadBar(c, s, stopped);
    Extend(c, longer, stopped);
    longer := longer + [stopped];
  }

  lemma LoseAnswers(c: Config, loss: nat) returns (states: seq<System>)
    requires c.Valid() && loss <= c.maxParallel && loss <= c.clients
    ensures Loses(c, states, loss)
    ensures !Last(states).senderDone && |Last(states).responses| == loss && Last(states).counted.None?
  {
    states := LastRequests(c, loss);
    states := StopTooEarly(c, states);
  }

  /** The handler can leave behind exactly the numbers of answers up to maxParallel and up to the number of clients. */
  lemma LossExactlyWhen(c: Config, loss: nat)
    requires c.Valid()
    ensures (exists states :: Loses(c, states, loss)) <==> loss <= c.maxParallel && loss <= c.clients
  {
    if states :| Loses(c, states, loss) {
      EveryStateIsSafe(c, states);
      StopLeaves(c, Last(states));
    }
    if loss <= c.maxParallel && loss <= c.clients {
      var states := LoseAnswers(c, loss);
    }
  }

  /** Every answer is recorded in every run exactly when there is no client at all. */
  lemma AllRecordedExactlyWhen(c: Config)
    requires c.Valid()
    ensures (forall states :: IsRun(c, states) && Last(states).handlerDone ==> Last(states).completed == c.total)
       <==> c.clients == 0
  {
    if c.clients == 0 {
      forall states | IsRun(c, states) && Last(states).handlerDone
        ensures Last(states).completed == c.total
      {
        EveryStateIsSafe(c, states);
        StopLeaves(c, Last(states));
      }
    } else {
      var states := LoseAnswers(c, 1);
    }
  }

  /** A run after which the handler has stopped, the sender has not, and nothing can happen any more. */
  ghost predicate Hangs(c: Config, states: seq<System>)
    requires c.Valid()
  {
    && IsRun(c, states) && Last(states).handlerDone && !Last(states).senderDone
    && forall s' :: !Next(c, Last(states), s')
  }

  lemma HangNeedsClients(c: Config, states: seq<System>)
    requires c.Valid() && Hangs(c, states)
    ensures c.maxParallel <= c.clients
  {
    EveryStateIsSafe(c, states);
    StopLeaves(c, Last(states));
    SenderStopsExactlyWhen(c, Last(states));
    forall s'
      ensures !StopSender(c, Last(states), s')
    {
      assert !Next(c, Last(states), s');
    }
  }

  /** With maxParallel answers left behind nothing can happen any more. */
  lemma NothingCanHappen(c: Config, s: System)
    requires c.Valid() && Inv(c, s) && s.handlerDone && s.counted.None? && c.total - s.completed == c.maxParallel
    ensures forall s' :: !Next(c, s, s')
  {
    StopLeaves(c, s);
  }

  /** The benchmark can hang exactly when there are at least maxParallel clients. */
  lemma HangExactlyWhen(c: Config)
    requires c.Valid()
    ensures (exists states :: Hangs(c, states)) <==> c.maxParallel <= c.clients
  {
    if states :| Hangs(c, states) {
      HangNeedsClients(c, states);
    }
    if c.maxParallel <= c.clients {
      var states := LoseAnswers(c, c.maxParallel);
      EveryStateIsSafe(c, states);
      NothingCanHappen(c, Last(states));
      assert Hangs(c, states);
    }
  }

  /** One client, one round, one request at a time: the answer is never recorded and the sender waits for ever. */
  lemma LastAnswerCanBeLost(input: string) returns (c: Config, states: seq<System>)
    ensures c.Valid() && Hangs(c, states) && Last(states).completed == 0 < c.total
  {
    c := Config(1, 1, 1, [input]);
    states := LoseAnswers(c, 1);
    EveryStateIsSafe(c, states);
    NothingCanHappen(c, Last(states));
  }
}
