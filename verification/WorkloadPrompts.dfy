/**
 What the clients of bench_multiturn.py send: the first prompt is the client's input, and every later one is the prompt
 before it, then the server's answer, then the next input (bench_multiturn.py:227-236, 302-324).
 */
module WorkloadPrompts {
  import opened Wrappers
  import opened Workload

  // ---- one step ----

  predicate Sized(c: Config, s: System) {
    |s.history| == c.clients && |s.round| == c.clients
  }

  /** What a step does to conversations, rounds and the client that is being settled. */
  ghost predicate Kind(c: Config, s: System, s': System) {
    || Record(s, s')
    || Requeue(c, s, s')
    || Retire(c, s, s')
    || (s'.history == s.history && s'.round == s.round && s'.settling == s.settling)
  }

  lemma NextKind(c: Config, s: System, s': System)
    requires Next(c, s, s')
    ensures Kind(c, s, s')
  {
  }

  lemma InvSized(c: Config, s: System)
    requires Inv(c, s)
    ensures Sized(c, s)
  {
  }

  lemma StateIsSafe(c: Config, states: seq<System>, k: nat)
    requires c.Valid() && IsRun(c, states) && k < |states|
    ensures Inv(c, states[k])
  {
    EveryStateIsSafe(c, states[..k + 1]);
    assert states[..k + 1][k] == states[k];
  }

  lemma StateIsSized(c: Config, states: seq<System>, k: nat)
    requires c.Valid() && IsRun(c, states) && k < |states|
    ensures Sized(c, states[k])
    ensures k > 0 ==> Kind(c, states[k - 1], states[k])
  {
    StateIsSafe(c, states, k);
    InvSized(c, states[k]);
    if k > 0 {
      NextKind(c, states[k - 1], states[k]);
    }
  }

  /** A step changes the round of a client only by recording its answer. */
  lemma RoundStep(c: Config, s: System, s': System, i: Client)
    requires Sized(c, s) && Sized(c, s') && Kind(c, s, s') && i < c.clients
    ensures s'.round[i] == s.round[i]
            || (Record(s, s') && s.responses[0].client == i && s'.round[i] == s.round[i] + 1 && s'.settling == Some(i))
  {
  }

  /** A recorded client is settled only by being requeued or by having had all its rounds. */
  lemma SettlingStep(c: Config, s: System, s': System, i: Client)
    requires Sized(c, s) && Sized(c, s') && Kind(c, s, s') && i < c.clients && s.settling == Some(i) && s'.settling != Some(i)
    ensures Requeue(c, s, s') || s.round[i] >= c.rounds
  {
  }

  /** Conversations only grow. */
  lemma HistoryStep(c: Config, s: System, s': System, i: Client)
    requires Sized(c, s) && Sized(c, s') && Kind(c, s, s') && i < c.clients
    ensures s.history[i] <= s'.history[i]
  {
  }

  // ---- between two states of a run ----

  /** What a run shows of one client. */
  datatype Trace = Trace(history: seq<Turn>, round: nat, settling: bool)

  function TraceOf(s: System, i: Client): Trace {
    Trace(if i < |s.history| then s.history[i] else [], if i < |s.round| then s.round[i] else 0, s.settling == Some(i))
  }

  function Traces(states: seq<System>, i: Client): (r: seq<Trace>)
    ensures |r| == |states|
  {
    seq(|states|, k requires 0 <= k < |states| => TraceOf(states[k], i))
  }

  predicate Grows(x: Trace, y: Trace) {
    x.history <= y.history && x.round <= y.round
  }

  lemma GrowStep(c: Config, states: seq<System>, i: Client, k: nat)
    requires c.Valid() && IsRun(c, states) && i < c.clients && 0 < k < |states|
    ensures Grows(TraceOf(states[k - 1], i), TraceOf(states[k], i))
  {
    StateIsSized(c, states, k - 1);
    StateIsSized(c, states, k);
    HistoryStep(c, states[k - 1], states[k], i);
    RoundStep(c, states[k - 1], states[k], i);
  }

  lemma {:induction false} GrowAll(xs: seq<Trace>, a: nat, b: nat)
    requires a <= b < |xs| && forall k :: 0 < k < |xs| ==> Grows(xs[k - 1], xs[k])
    ensures Grows(xs[a], xs[b])
    decreases b
  {
    if a < b {
      GrowAll(xs, a, b - 1);
    }
  }

  lemma HistoryGrows(c: Config, states: seq<System>, i: Client, a: nat, b: nat)
    requires c.Valid() && IsRun(c, states) && i < c.clients && a <= b < |states|
    ensures Sized(c, states[a]) && Sized(c, states[b])
    ensures states[a].history[i] <= states[b].history[i] && states[a].round[i] <= states[b].round[i]
  {
    StateIsSized(c, states, a);
    StateIsSized(c, states, b);
    var xs := Traces(states, i);
    forall k | 0 < k < |xs|
      ensures Grows(xs[k - 1], xs[k])
    {
      GrowStep(c, states, i, k);
    }
    GrowAll(xs, a, b);
  }

  lemma {:induction false} FirstRise(xs: seq<Trace>, a: nat, b: nat) returns (m: nat)
    requires a <= b < |xs| && xs[a].round != xs[b].round
    ensures a <= m < b && xs[m].round != xs[m + 1].round
    decreases b
  {
    if xs[b - 1].round == xs[b].round {
      m := FirstRise(xs, a, b - 1);
    } else {
      m := b - 1;
    }
  }

  lemma {:induction false} LastSettling(xs: seq<Trace>, a: nat, b: nat) returns (n: nat)
    requires a <= b < |xs| && xs[a].settling && !xs[b].settling
    ensures a <= n < b && xs[n].settling && !xs[n + 1].settling
    decreases b
  {
    if xs[b - 1].settling {
      n := b - 1;
    } else {
      n := LastSettling(xs, a, b - 1);
    }
  }

  /** The oldest response is the one of client i, and it is recorded. */
  ghost predicate Takes(s: System, s': System, i: Client) {
    Record(s, s') && s.responses[0].client == i && s'.settling == Some(i)
  }

  /** Where a client's round went up, an answer of it was recorded. */
  lemma FindRecord(c: Config, states: seq<System>, i: Client, a: nat, b: nat) returns (m: nat)
    requires c.Valid() && IsRun(c, states) && i < c.clients && a <= b < |states|
    requires Sized(c, states[a]) && Sized(c, states[b]) && states[b].round[i] > states[a].round[i]
    ensures a <= m < b && Takes(states[m], states[m + 1], i)
  {
    m := FirstRise(Traces(states, i), a, b);
    StateIsSized(c, states, m);
    StateIsSized(c, states, m + 1);
    RoundStep(c, states[m], states[m + 1], i);
  }

  /** Client i is put back into the ready queue. */
  ghost predicate Returns(c: Config, s: System, s': System, i: Client) {
    Requeue(c, s, s') && s.settling == Some(i)
  }

  lemma ReturnStep(c: Config, s: System, s': System, i: Client)
    requires Sized(c, s) && Sized(c, s') && Kind(c, s, s') && i < c.clients && s.round[i] < c.rounds
    requires TraceOf(s, i).settling && !TraceOf(s', i).settling
    ensures Returns(c, s, s', i)
  {
    SettlingStep(c, s, s', i);
  }

  lemma RoundBefore(c: Config, states: seq<System>, i: Client, n: nat, b: nat)
    requires c.Valid() && IsRun(c, states) && i < c.clients && n < b < |states|
    ensures Sized(c, states[n]) && Sized(c, states[n + 1]) && Sized(c, states[b])
    ensures Kind(c, states[n], states[n + 1]) && states[n].round[i] <= states[b].round[i]
  {
    HistoryGrows(c, states, i, n, b);
    StateIsSized(c, states, n + 1);
  }

  /** A recorded client that is not settling any more, before its last round, was put back. */
  lemma FindReturn(c: Config, states: seq<System>, i: Client, a: nat, b: nat) returns (n: nat)
    requires c.Valid() && IsRun(c, states) && i < c.clients && a <= b < |states|
    requires states[a].settling == Some(i) && states[b].settling != Some(i)
    requires Sized(c, states[b]) && states[b].round[i] < c.rounds
    ensures a <= n < b && Returns(c, states[n], states[n + 1], i)
  {
    n := LastSettling(Traces(states, i), a, b);
    RoundBefore(c, states, i, n, b);
    ReturnStep(c, states[n], states[n + 1], i);
  }

  // ---- the prompts ----

  /** A ready client has said one thing more than it has had answers, and its prompt is all of that. */
  lemma ReadyClient(c: Config, s: System, k: nat)
    requires c.Valid() && Inv(c, s) && k < |s.ready|
    ensures var i := s.ready[k].client;
            && i < c.clients && |s.history| == |s.round| == c.clients && s.round[i] < c.rounds && s.settling != Some(i)
            && s.ready[k].text == Text(s.history[i]) && |s.history[i]| == 2 * s.round[i] + 1
  {
    var i := s.ready[k].client;
    assert Prompted(s.history, s.ready[k]);
    assert ClientsOf(s.ready)[k] == i;
    assert i in multiset(ClientsOf(s.ready));
    assert Present(s)[i] >= 1;
    assert Present(s)[i] >= multiset(ClientsOf(s.ready))[i] + if s.settling == Some(i) then 1 else 0;
  }

  lemma TextAppend(history: seq<Turn>, turn: Turn)
    ensures Text(history + [turn]) == Text(history) + turn.text
  {
    assert (history + [turn])[..|history|] == history;
  }

  lemma FirstHistory(c: Config, states: seq<System>, i: Client, b: nat)
    requires c.Valid() && IsRun(c, states) && b < |states| && i < c.clients
    ensures c.clients <= |c.inputs| && Sized(c, states[b]) && [User(c.inputs[i])] <= states[b].history[i]
  {
    HistoryGrows(c, states, i, 0, b);
    assert states[0] == Init(c);
  }

  /** Before any answer, a client's prompt is its own first input. */
  lemma FirstPrompt(c: Config, states: seq<System>, b: nat, l: nat)
    requires c.Valid() && IsRun(c, states) && b < |states| && l < |states[b].ready|
    ensures states[b].ready[l].client < c.clients <= |c.inputs| && |states[b].round| == c.clients
    ensures states[b].round[states[b].ready[l].client] == 0 ==>
              states[b].ready[l].text == c.inputs[states[b].ready[l].client]
  {
    var i := states[b].ready[l].client;
    ReadyInRun(c, states, b, l);
    FirstHistory(c, states, i, b);
    if states[b].round[i] == 0 {
      TextAppend([], User(c.inputs[i]));
      assert states[b].history[i] == [] + [User(c.inputs[i])];
    }
  }

  lemma ReadyInRun(c: Config, states: seq<System>, b: nat, l: nat)
    requires c.Valid() && IsRun(c, states) && b < |states| && l < |states[b].ready|
    ensures var i, s := states[b].ready[l].client, states[b];
            && i < c.clients && Sized(c, s) && s.round[i] < c.rounds && s.settling != Some(i)
            && s.ready[l].text == Text(s.history[i]) && |s.history[i]| == 2 * s.round[i] + 1
  {
    StateIsSafe(c, states, b);
    ReadyClient(c, states[b], l);
  }

  /** The conversation from one ready prompt of a client to the next, seen at the record and at the requeue. */
  lemma NextTurns(c: Config, states: seq<System>, i: Client, a: nat, m: nat, n: nat, b: nat)
    requires c.Valid() && IsRun(c, states) && i < c.clients && a <= m < n < b < |states|
    requires Record(states[m], states[m + 1]) && states[m].responses[0].client == i
    requires Requeue(c, states[n], states[n + 1]) && states[n].settling == Some(i)
    requires |states[a].history| == |states[b].history| == c.clients
    requires |states[b].history[i]| == |states[a].history[i]| + 2
    ensures |states[n].candidates| > 0
    ensures states[b].history[i] == states[a].history[i] + [Model(states[m].responses[0].text)]
                                    + [User(states[n].candidates[|states[n].candidates| - 1])]
  {
    var h := states[a].history[i];
    HistoryGrows(c, states, i, a, m);
    HistoryGrows(c, states, i, m + 1, n);
    HistoryGrows(c, states, i, n + 1, b);
    assert |states[m + 1].history[i]| == |states[m].history[i]| + 1;
    assert |states[n + 1].history[i]| == |states[n].history[i]| + 1;
    assert states[m].history[i] == h;
    assert states[n].history[i] == states[m + 1].history[i];
    assert states[b].history[i] == states[n + 1].history[i];
  }

  lemma TwoMore(c: Config, states: seq<System>, i: Client, a: nat, b: nat) returns (m: nat, n: nat)
    requires c.Valid() && IsRun(c, states) && i < c.clients && a <= b < |states|
    requires Sized(c, states[a]) && Sized(c, states[b]) && states[b].round[i] > states[a].round[i]
    requires states[b].settling != Some(i) && states[b].round[i] < c.rounds
    ensures a <= m < n < b && Takes(states[m], states[m + 1], i) && Returns(c, states[n], states[n + 1], i)
  {
    m := FindRecord(c, states, i, a, b);
    n := FindReturn(c, states, i, m + 1, b);
  }

  lemma TextOfNext(h: seq<Turn>, answer: string, input: string)
    ensures Text(h + [Model(answer)] + [User(input)]) == Text(h) + answer + input
  {
    TextAppend(h, Model(answer));
    TextAppend(h + [Model(answer)], User(input));
  }

  /**
   In every run, a client's prompt of the next round is its prompt of this round, then the answer that was recorded for it,
   then the input that it was given when it was put back into the ready queue.
   */
  lemma NextPrompt(c: Config, states: seq<System>, a: nat, k: nat, b: nat, l: nat) returns (m: nat, n: nat)
    requires c.Valid() && IsRun(c, states) && a <= b < |states| && k < |states[a].ready| && l < |states[b].ready|
    requires states[a].ready[k].client == states[b].ready[l].client < |states[a].round| == |states[b].round|
    requires states[b].round[states[b].ready[l].client] == states[a].round[states[a].ready[k].client] + 1
    ensures a <= m < n < b
    ensures Record(states[m], states[m + 1]) && states[m].responses[0].client == states[a].ready[k].client
    ensures Requeue(c, states[n], states[n + 1]) && states[n].settling == Some(states[a].ready[k].client)
    ensures states[b].ready[l].text
            == states[a].ready[k].text + states[m].responses[0].text + states[n].candidates[|states[n].candidates| - 1]
  {
    var i := states[a].ready[k].client;
    ReadyInRun(c, states, a, k);
    ReadyInRun(c, states, b, l);
    m, n := TwoMore(c, states, i, a, b);
    NextTurns(c, states, i, a, m, n, b);
    TextOfNext(states[a].history[i], states[m].responses[0].text, states[n].candidates[|states[n].candidates| - 1]);
  }
}
