/**
 The multi-client workload of bench_multiturn.py: a sender thread, a server that answers in any order, and a
 response handler that records an answer and puts its client back into the ready queue.
 */
module Workload {
  import opened Sorting
  import opened Sums
  import opened Wrappers

  type Client = nat

  /** A turn of a conversation: what the client says, or what the server generates. */
  datatype Turn = User(text: string) | Model(text: string)

  /** What the queues hold: a client with its prompt, or with the text that answers it. */
  datatype Message = Message(client: Client, text: string)

  datatype Config = Config(clients: nat, rounds: nat, maxParallel: nat, inputs: seq<string>) {
    const total: nat := clients * rounds

    predicate Valid() {
      rounds >= 1 && maxParallel >= 1 && |inputs| == total
    }
  }

  datatype System = System(
    ready: seq<Message>,           // the ready queue
    inFlight: seq<Message>,        // requests at the server
    counted: Option<Message>,      // answered and on the progress bar, not yet queued for the handler
    responses: seq<Message>,       // the response queue
    settling: Option<Client>,      // recorded by the handler, not yet requeued
    timedOut: bool,                // the handler's wait ended on an empty queue; it has not looked at the bar yet
    history: seq<seq<Turn>>,       // per client
    round: seq<nat>,               // per client
    candidates: seq<string>,       // inputs not used yet
    sent: nat, progress: nat, completed: nat,
    senderDone: bool, handlerDone: bool)

  /** The prompt is the whole conversation so far. */
  function Text(history: seq<Turn>): string {
    if |history| == 0 then "" else Text(history[..|history| - 1]) + history[|history| - 1].text
  }

  // ---- the threads ----

  function Init(c: Config): System
    requires c.Valid()
  {
    assert c.clients <= |c.inputs| by {
      assert c.total - c.clients == c.clients * (c.rounds - 1);
    }
    System(
      seq(c.clients, i requires 0 <= i < c.clients => Message(i, c.inputs[i])), [], None, [], None, false,
      seq(c.clients, i requires 0 <= i < c.clients => [User(c.inputs[i])]), seq(c.clients, i => 0),
      c.inputs[c.clients..], 0, 0, 0, false, false)
  }

  function Sent(s: System, k: nat): System
    requires k < |s.ready|
  {
    s.(sent := s.sent + 1, ready := s.ready[..k] + s.ready[k + 1..], inFlight := s.inFlight + [s.ready[k]])
  }

  /** The sender takes any ready request while fewer than maxParallel are unanswered. */
  ghost predicate Send(c: Config, s: System, s': System, k: nat) {
    !s.senderDone && s.sent - s.completed < c.maxParallel && k < |s.ready| && s' == Sent(s, k)
  }

  function Answered(s: System, k: nat, text: string): System
    requires k < |s.inFlight|
  {
    s.(progress := s.progress + 1, inFlight := s.inFlight[..k] + s.inFlight[k + 1..],
       counted := Some(Message(s.inFlight[k].client, text)))
  }

  /** The server answers any request in flight; the progress bar moves. */
  ghost predicate Answer(s: System, s': System, k: nat, text: string) {
    k < |s.inFlight| && s.counted.None? && s' == Answered(s, k, text)
  }

  function Enqueued(s: System): System
    requires s.counted.Some?
  {
    s.(responses := s.responses + [s.counted.value], counted := None)
  }

  /** The answer reaches the response queue. */
  ghost predicate Enqueue(s: System, s': System) {
    s.counted.Some? && s' == Enqueued(s)
  }

  predicate CanRecord(s: System) {
    && !s.handlerDone && !s.timedOut && s.settling.None?
    && |s.responses| > 0 && s.responses[0].client < |s.history| == |s.round|
  }

  function Recorded(s: System): System
    requires CanRecord(s)
  {
    var r := s.responses[0];
    s.(responses := s.responses[1..], settling := Some(r.client), completed := s.completed + 1,
       history := s.history[r.client := s.history[r.client] + [Model(r.text)]],
       round := s.round[r.client := s.round[r.client] + 1])
  }

  /** The handler takes the oldest response and records it. */
  ghost predicate Record(s: System, s': System) {
    CanRecord(s) && s' == Recorded(s)
  }

  /** An unfinished client gets the last unused input and goes back to the ready queue; pop needs one to be left. */
  ghost predicate Requeue(c: Config, s: System, s': System) {
    && s.settling.Some? && s.settling.value < |s.history| == |s.round|
    && var i := s.settling.value;
    && s.round[i] < c.rounds && |s.candidates| > 0
    && var h := s.history[i] + [User(s.candidates[|s.candidates| - 1])];
    && s' == s.(settling := None, history := s.history[i := h], ready := s.ready + [Message(i, Text(h))],
                candidates := s.candidates[..|s.candidates| - 1])
  }

  ghost predicate Retire(c: Config, s: System, s': System) {
    && s.settling.Some? && s.settling.value < |s.round| && s.round[s.settling.value] >= c.rounds
    && s' == s.(settling := None)
  }

  ghost predicate StopSender(c: Config, s: System, s': System) {
    && !s.senderDone && s.sent - s.completed < c.maxParallel && s.progress == c.total
    && s' == s.(senderDone := true)
  }

  /** The handler's wait ends on an empty queue. */
  ghost predicate TimeOut(s: System, s': System) {
    && !s.handlerDone && !s.timedOut && s.settling.None? && s.responses == []
    && s' == s.(timedOut := true)
  }

  /** Only then does the handler look at the progress bar: it stops when the bar is full and waits again otherwise. */
  ghost predicate ReadBar(c: Config, s: System, s': System) {
    && s.timedOut && !s.handlerDone
    && s' == s.(timedOut := false, handlerDone := s.progress == c.total)
  }

  ghost predicate Next(c: Config, s: System, s': System) {
    || (exists k: nat :: Send(c, s, s', k))
    || (exists k: nat, text: string :: Answer(s, s', k, text))
    || Enqueue(s, s')
    || Record(s, s')
    || Requeue(c, s, s')
    || Retire(c, s, s')
    || StopSender(c, s, s')
    || TimeOut(s, s')
    || ReadBar(c, s, s')
  }

  ghost predicate IsRun(c: Config, states: seq<System>)
    requires c.Valid()
  {
    && |states| > 0 && states[0] == Init(c)
    && forall k :: 0 < k < |states| ==> Next(c, states[k - 1], states[k])
  }

  // ---- the invariant ----

  function ClientsOf(rs: seq<Message>): (r: seq<Client>)
    ensures |r| == |rs|
  {
    seq(|rs|, i requires 0 <= i < |rs| => rs[i].client)
  }

  /** Sent and not yet recorded. */
  ghost function Unanswered(s: System): multiset<Client> {
    multiset(ClientsOf(s.inFlight)) + multiset(ClientsOf(s.responses))
    + (if s.counted.Some? then multiset{s.counted.value.client} else multiset{})
  }

  /** The clients found in any of the queues and threads. */
  ghost function Present(s: System): multiset<Client> {
    multiset(ClientsOf(s.ready)) + Unanswered(s) + (if s.settling.Some? then multiset{s.settling.value} else multiset{})
  }

  /** What the client side has said. */
  function Said(history: seq<Turn>): seq<string> {
    if |history| == 0 then []
    else Said(history[..|history| - 1]) + match history[|history| - 1] case User(t) => [t] case Model(_) => []
  }

  ghost function AllSaid(histories: seq<seq<Turn>>): multiset<string> {
    if |histories| == 0 then multiset{}
    else AllSaid(histories[..|histories| - 1]) + multiset(Said(histories[|histories| - 1]))
  }

  /** User and Model turns alternate, starting with User. */
  ghost predicate Alternates(history: seq<Turn>) {
    forall k :: 0 <= k < |history| ==> (history[k].User? <==> k % 2 == 0)
  }

  /** A client is in exactly one place until its rounds are over, and in none afterwards. */
  ghost predicate Places(c: Config, s: System) {
    && |s.round| == c.clients
    && (forall i :: i in Present(s) ==> i < c.clients)
    && (forall i :: 0 <= i < c.clients ==>
          Present(s)[i] == if s.round[i] < c.rounds || s.settling == Some(i) then 1 else 0)
    && (forall i :: 0 <= i < c.clients ==> s.round[i] <= c.rounds)
    && (s.settling.Some? && s.settling.value < c.clients ==> s.round[s.settling.value] > 0)
  }

  /** A conversation ends with the client's words unless its last answer is being settled or was the last one. */
  ghost predicate InTurn(c: Config, history: seq<Turn>, round: nat, settling: bool) {
    && Alternates(history)
    && |history| == 2 * round + if settling || round == c.rounds then 0 else 1
  }

  /** Conversations alternate, and every ready prompt is the whole conversation of its client. */
  ghost predicate Turns(c: Config, s: System) {
    && |s.history| == |s.round| == c.clients
    && (forall i :: 0 <= i < c.clients ==> InTurn(c, s.history[i], s.round[i], s.settling == Some(i)))
    && (forall k :: 0 <= k < |s.ready| ==> Prompted(s.history, s.ready[k]))
  }

  ghost predicate Prompted(history: seq<seq<Turn>>, r: Message) {
    r.client < |history| && r.text == Text(history[r.client])
  }

  ghost predicate Counters(c: Config, s: System) {
    && s.sent - s.completed == |Unanswered(s)| <= c.maxParallel
    && s.progress - s.completed == |s.responses| + (if s.counted.Some? then 1 else 0)
    && s.completed == Sum(s.round)
    && (s.senderDone ==> s.progress == c.total)
    && (s.handlerDone ==> s.progress == c.total && s.settling.None?)
    && (s.timedOut ==> !s.handlerDone && s.settling.None?)
  }

  /** Every input is either said by exactly one client, once, or still unused. */
  ghost predicate Inputs(c: Config, s: System) {
    AllSaid(s.history) + multiset(s.candidates) == multiset(c.inputs)
  }

  ghost predicate Inv(c: Config, s: System) {
    Places(c, s) && Turns(c, s) && Counters(c, s) && Inputs(c, s)
  }

  // ---- what a step moves ----

  lemma RemoveMessage(rs: seq<Message>, k: nat)
    requires k < |rs|
    ensures multiset(ClientsOf(rs)) == multiset(ClientsOf(rs[..k] + rs[k + 1..])) + multiset{rs[k].client}
  {
    var xs := ClientsOf(rs);
    assert xs == xs[..k] + [xs[k]] + xs[k + 1..];
    assert ClientsOf(rs[..k] + rs[k + 1..]) == xs[..k] + xs[k + 1..];
  }

  lemma AddMessage(rs: seq<Message>, r: Message)
    ensures multiset(ClientsOf(rs + [r])) == multiset(ClientsOf(rs)) + multiset{r.client}
  {
    assert ClientsOf(rs + [r]) == ClientsOf(rs) + [r.client];
  }

  lemma FirstMessage(rs: seq<Message>)
    requires |rs| > 0
    ensures multiset(ClientsOf(rs)) == multiset(ClientsOf(rs[1..])) + multiset{rs[0].client}
  {
    assert ClientsOf(rs) == [rs[0].client] + ClientsOf(rs[1..]);
  }

  lemma {:induction false} SaidUpdate(hs: seq<seq<Turn>>, i: nat, h: seq<Turn>)
    requires i < |hs|
    ensures AllSaid(hs[i := h]) + multiset(Said(hs[i])) == AllSaid(hs) + multiset(Said(h))
  {
    var n := |hs| - 1;
    if i < n {
      SaidUpdate(hs[..n], i, h);
      assert hs[i := h][..n] == hs[..n][i := h];
      Swap(AllSaid(hs[..n][i := h]), multiset(Said(hs[i])), AllSaid(hs[..n]), multiset(Said(h)), multiset(Said(hs[n])));
    } else {
      assert hs[i := h][..n] == hs[..n];
      Swap(AllSaid(hs[..n]), multiset{}, AllSaid(hs[..n]), multiset{}, multiset(Said(hs[n])) + multiset(Said(h)));
    }
  }

  lemma Swap<T>(a: multiset<T>, x: multiset<T>, b: multiset<T>, y: multiset<T>, z: multiset<T>)
    requires a + x == b + y
    ensures (a + z) + x == (b + z) + y
  {
    assert (a + z) + x == (a + x) + z;
    assert (b + z) + y == (b + y) + z;
  }

  lemma SaidOneMore(h: seq<Turn>, t: Turn)
    ensures Said(h + [t]) == Said(h) + match t case User(text) => [text] case Model(_) => []
  {
    assert (h + [t])[..|h|] == h;
  }

  // ---- every step keeps the invariant ----

  lemma SendMoves(c: Config, s: System, s': System, k: nat)
    requires Send(c, s, s', k)
    ensures Present(s') == Present(s) && Unanswered(s') == Unanswered(s) + multiset{s.ready[k].client}
  {
    RemoveMessage(s.ready, k);
    AddMessage(s.inFlight, s.ready[k]);
  }

  lemma AnswerMoves(s: System, s': System, k: nat, text: string)
    requires Answer(s, s', k, text)
    ensures Present(s') == Present(s) && Unanswered(s') == Unanswered(s)
  {
    RemoveMessage(s.inFlight, k);
  }

  lemma EnqueueMoves(s: System, s': System)
    requires Enqueue(s, s')
    ensures Present(s') == Present(s) && Unanswered(s') == Unanswered(s)
  {
    AddMessage(s.responses, s.counted.value);
  }

  lemma RecordMoves(s: System, s': System)
    requires Record(s, s')
    ensures Present(s') == Present(s) && Unanswered(s) == Unanswered(s') + multiset{s.responses[0].client}
  {
    FirstMessage(s.responses);
  }

  lemma RequeueMoves(c: Config, s: System, s': System)
    requires Requeue(c, s, s')
    ensures Present(s') == Present(s) && Unanswered(s') == Unanswered(s)
  {
    AddMessage(s.ready, s'.ready[|s.ready|]);
  }

  lemma RetireMoves(c: Config, s: System, s': System)
    requires Retire(c, s, s')
    ensures Present(s) == Present(s') + multiset{s.settling.value} && Unanswered(s') == Unanswered(s)
  {
  }

  lemma PlacesKept(c: Config, s: System, s': System)
    requires Places(c, s) && Present(s') == Present(s) && s'.round == s.round && s'.settling == s.settling
    ensures Places(c, s')
  {
  }

  lemma Cancel<T>(a: multiset<T>, b: multiset<T>, x: multiset<T>, y: multiset<T>)
    requires a + x == b + (x + y)
    ensures a == b + y
  {
    assert forall e :: a[e] + x[e] == (a + x)[e];
    assert forall e :: (b + (x + y))[e] == b[e] + x[e] + y[e];
    assert forall e :: a[e] == (b + y)[e];
  }

  ghost function SaidIn(t: Turn): multiset<string> {
    match t case User(text) => multiset{text} case Model(_) => multiset{}
  }

  lemma SaidAppend(hs: seq<seq<Turn>>, i: nat, t: Turn)
    requires i < |hs|
    ensures AllSaid(hs[i := hs[i] + [t]]) == AllSaid(hs) + SaidIn(t)
  {
    SaidOneMore(hs[i], t);
    SaidUpdate(hs, i, hs[i] + [t]);
    assert multiset(Said(hs[i] + [t])) == multiset(Said(hs[i])) + SaidIn(t);
    Cancel(AllSaid(hs[i := hs[i] + [t]]), AllSaid(hs), multiset(Said(hs[i])), SaidIn(t));
  }

  // ---- no more requests than rounds ----

  lemma OneMoreRow(n: nat, rounds: nat)
    ensures (n + 1) * rounds == n * rounds + rounds
  {
  }

  lemma {:induction false} CountAll(m: multiset<Client>, round: seq<nat>, rounds: nat)
    requires forall i :: i in m ==> i < |round|
    requires forall i :: 0 <= i < |round| ==> m[i] + round[i] <= rounds
    ensures |m| + Sum(round) <= |round| * rounds
  {
    if |round| == 0 {
      assert m == multiset{};
    } else {
      var n := |round| - 1;
      CountAll(m[n := 0], round[..n], rounds);
      OneMoreRow(n, rounds);
    }
  }

  lemma UnansweredSize(s: System)
    ensures |Unanswered(s)| == |s.inFlight| + |s.responses| + if s.counted.Some? then 1 else 0
  {
  }

  /** The requests ready, in flight and recorded never exceed the rounds of all clients. */
  lemma RequestsFit(c: Config, s: System)
    requires Inv(c, s)
    ensures |s.ready| + s.sent <= c.total
  {
    var m := multiset(ClientsOf(s.ready)) + Unanswered(s);
    forall i | 0 <= i < c.clients
      ensures m[i] + s.round[i] <= c.rounds
    {
      assert m[i] <= Present(s)[i];
    }
    assert forall i :: i in m ==> i in Present(s);
    CountAll(m, s.round, c.rounds);
  }

  lemma NothingInFlight(c: Config, s: System)
    requires Inv(c, s) && s.progress == c.total
    ensures s.inFlight == []
  {
    UnansweredSize(s);
    RequestsFit(c, s);
  }

  // ---- every step keeps the invariant ----

  lemma SendKeepsTurns(c: Config, s: System, s': System, k: nat)
    requires Turns(c, s) && Send(c, s, s', k)
    ensures Turns(c, s')
  {
    assert forall j :: 0 <= j < |s'.ready| ==> s'.ready[j] == s.ready[if j < k then j else j + 1];
  }

  lemma SendKeeps(c: Config, s: System, s': System, k: nat)
    requires Inv(c, s) && Send(c, s, s', k)
    ensures Inv(c, s')
  {
    SendMoves(c, s, s', k);
    PlacesKept(c, s, s');
    SendKeepsTurns(c, s, s', k);
  }

  lemma AnswerKeeps(c: Config, s: System, s': System, k: nat, text: string)
    requires Inv(c, s) && Answer(s, s', k, text)
    ensures Inv(c, s')
  {
    AnswerMoves(s, s', k, text);
    PlacesKept(c, s, s');
    assert Turns(c, s');
    assert Inputs(c, s');
    if s.progress == c.total {
      NothingInFlight(c, s);
    }
  }

  lemma EnqueueKeeps(c: Config, s: System, s': System)
    requires Inv(c, s) && Enqueue(s, s')
    ensures Inv(c, s')
  {
    EnqueueMoves(s, s');
    PlacesKept(c, s, s');
    assert Turns(c, s');
    assert Inputs(c, s');
  }

  /** The client of the first response has a round left and is not in the ready queue. */
  lemma RespondingClient(c: Config, s: System)
    requires Places(c, s) && |s.responses| > 0 && s.settling.None?
    ensures s.responses[0].client < c.clients && s.round[s.responses[0].client] < c.rounds
    ensures forall k :: 0 <= k < |s.ready| ==> s.ready[k].client != s.responses[0].client
  {
    FirstMessage(s.responses);
    var i := s.responses[0].client;
    assert Unanswered(s)[i] > 0;
    assert Present(s)[i] > 0;
    NotReady(s, i);
  }

  lemma RecordKeepsPlaces(c: Config, s: System, s': System)
    requires Places(c, s) && Record(s, s')
    ensures Places(c, s')
  {
    RecordMoves(s, s');
    RespondingClient(c, s);
  }

  /** A client that is found elsewhere is not in the ready queue. */
  lemma NotReady(s: System, i: Client)
    requires Present(s)[i] <= 1
    requires Unanswered(s)[i] > 0 || s.settling == Some(i)
    ensures forall k :: 0 <= k < |s.ready| ==> s.ready[k].client != i
  {
    forall k | 0 <= k < |s.ready|
      ensures s.ready[k].client != i
    {
      assert ClientsOf(s.ready)[k] in multiset(ClientsOf(s.ready));
    }
  }

  /** Only the conversation and the round of client i change, and nobody else is being settled. */
  lemma TurnsUpdate(c: Config, s: System, s': System, i: Client, h: seq<Turn>, r: nat)
    requires Turns(c, s) && i < c.clients
    requires s'.history == s.history[i := h] && s'.round == s.round[i := r]
    requires s.settling.None? || s.settling == Some(i)
    requires s'.settling.None? || s'.settling == Some(i)
    requires InTurn(c, h, r, s'.settling == Some(i))
    requires forall k :: 0 <= k < |s.ready| ==> s.ready[k].client != i
    requires forall k :: 0 <= k < |s'.ready| ==> s'.ready[k] == Message(i, Text(h)) || (k < |s.ready| && s'.ready[k] == s.ready[k])
    ensures Turns(c, s')
  {
    forall j | 0 <= j < c.clients
      ensures InTurn(c, s'.history[j], s'.round[j], s'.settling == Some(j))
    {
      assert InTurn(c, s.history[j], s.round[j], s.settling == Some(j));
    }
    forall k | 0 <= k < |s'.ready|
      ensures Prompted(s'.history, s'.ready[k])
    {
      if k < |s.ready| {
        assert Prompted(s.history, s.ready[k]);
      }
    }
  }

  lemma AnswerInTurn(c: Config, h: seq<Turn>, round: nat, text: string)
    requires InTurn(c, h, round, false) && round < c.rounds
    ensures InTurn(c, h + [Model(text)], round + 1, true)
  {
  }

  lemma WordsInTurn(c: Config, h: seq<Turn>, round: nat, text: string)
    requires InTurn(c, h, round, true) && round < c.rounds
    ensures InTurn(c, h + [User(text)], round, false)
  {
  }

  lemma RecordKeepsTurns(c: Config, s: System, s': System)
    requires Places(c, s) && Turns(c, s) && Record(s, s')
    ensures Turns(c, s')
  {
    RespondingClient(c, s);
    var i := s.responses[0].client;
    AnswerInTurn(c, s.history[i], s.round[i], s.responses[0].text);
    TurnsUpdate(c, s, s', i, s.history[i] + [Model(s.responses[0].text)], s.round[i] + 1);
  }

  lemma RecordKeepsInputs(c: Config, s: System, s': System)
    requires Inputs(c, s) && Record(s, s')
    ensures Inputs(c, s')
  {
    SaidAppend(s.history, s.responses[0].client, Model(s.responses[0].text));
  }

  lemma RecordKeepsCounters(c: Config, s: System, s': System)
    requires Counters(c, s) && Record(s, s')
    ensures Counters(c, s')
  {
    RecordMoves(s, s');
    var i := s.responses[0].client;
    SumUpdate(s.round, i, s.round[i] + 1);
  }

  lemma RecordKeeps(c: Config, s: System, s': System)
    requires Inv(c, s) && Record(s, s')
    ensures Inv(c, s')
  {
    RecordKeepsPlaces(c, s, s');
    RecordKeepsTurns(c, s, s');
    RecordKeepsInputs(c, s, s');
    RecordKeepsCounters(c, s, s');
  }

  lemma RequeueKeepsTurns(c: Config, s: System, s': System)
    requires Places(c, s) && Turns(c, s) && Requeue(c, s, s')
    ensures Turns(c, s')
  {
    var i := s.settling.value;
    NotReady(s, i);
    var word := s.candidates[|s.candidates| - 1];
    WordsInTurn(c, s.history[i], s.round[i], word);
    TurnsUpdate(c, s, s', i, s.history[i] + [User(word)], s.round[i]);
  }

  lemma RequeueKeepsInputs(c: Config, s: System, s': System)
    requires Inputs(c, s) && Requeue(c, s, s')
    ensures Inputs(c, s')
  {
    var n := |s.candidates| - 1;
    SaidAppend(s.history, s.settling.value, User(s.candidates[n]));
    assert s.candidates == s.candidates[..n] + [s.candidates[n]];
    Shift(AllSaid(s.history), multiset(s.candidates[..n]), multiset{s.candidates[n]});
  }

  lemma Shift<T>(a: multiset<T>, b: multiset<T>, x: multiset<T>)
    ensures a + (b + x) == (a + x) + b
  {
  }

  lemma RequeueKeeps(c: Config, s: System, s': System)
    requires Inv(c, s) && Requeue(c, s, s')
    ensures Inv(c, s')
  {
    RequeueMoves(c, s, s');
    RequeueKeepsTurns(c, s, s');
    RequeueKeepsInputs(c, s, s');
    assert Places(c, s');
  }

  lemma RetireKeepsPlaces(c: Config, s: System, s': System)
    requires Places(c, s) && Retire(c, s, s')
    ensures Places(c, s')
  {
    RetireMoves(c, s, s');
    assert forall i :: Present(s)[i] == Present(s')[i] + if i == s.settling.value then 1 else 0;
  }

  lemma RetireKeepsTurns(c: Config, s: System, s': System)
    requires Places(c, s) && Turns(c, s) && Retire(c, s, s')
    ensures Turns(c, s')
  {
    var i := s.settling.value;
    assert InTurn(c, s.history[i], s.round[i], true);
  }

  lemma RetireKeeps(c: Config, s: System, s': System)
    requires Inv(c, s) && Retire(c, s, s')
    ensures Inv(c, s')
  {
    RetireMoves(c, s, s');
    RetireKeepsPlaces(c, s, s');
    RetireKeepsTurns(c, s, s');
  }

  lemma StepKeeps(c: Config, s: System, s': System)
    requires Inv(c, s) && Next(c, s, s')
    ensures Inv(c, s')
  {
    if k: nat :| Send(c, s, s', k) {
      SendKeeps(c, s, s', k);
    } else if k: nat, text: string :| Answer(s, s', k, text) {
      AnswerKeeps(c, s, s', k, text);
    } else if Enqueue(s, s') {
      EnqueueKeeps(c, s, s');
    } else if Record(s, s') {
      RecordKeeps(c, s, s');
    } else if Requeue(c, s, s') {
      RequeueKeeps(c, s, s');
    } else if Retire(c, s, s') {
      RetireKeeps(c, s, s');
    } else {
      StopKeeps(c, s, s');
    }
  }

  lemma StopKeeps(c: Config, s: System, s': System)
    requires Inv(c, s) && (StopSender(c, s, s') || TimeOut(s, s') || ReadBar(c, s, s'))
    ensures Inv(c, s')
  {
    assert Unanswered(s') == Unanswered(s) && Present(s') == Present(s);
    PlacesKept(c, s, s');
  }

  // ---- the first state ----

  lemma {:induction false} FirstWords(hs: seq<seq<Turn>>, inputs: seq<string>)
    requires |hs| <= |inputs| && forall i :: 0 <= i < |hs| ==> hs[i] == [User(inputs[i])]
    ensures AllSaid(hs) == multiset(inputs[..|hs|])
  {
    if |hs| > 0 {
      var n := |hs| - 1;
      FirstWords(hs[..n], inputs);
      assert hs[n][..0] == [] && Said(hs[n]) == [inputs[n]];
      assert inputs[..n + 1] == inputs[..n] + [inputs[n]];
    }
  }

  lemma InitPlaces(c: Config)
    requires c.Valid()
    ensures Places(c, Init(c))
  {
    var s := Init(c);
    assert ClientsOf(s.ready) == Indices(c.clients);
    IndicesOnce(c.clients);
    assert Present(s) == multiset(Indices(c.clients));
  }

  lemma InitTurns(c: Config)
    requires c.Valid()
    ensures Turns(c, Init(c))
  {
    var s := Init(c);
    forall i | 0 <= i < c.clients
      ensures Prompted(s.history, s.ready[i]) && InTurn(c, s.history[i], s.round[i], false)
    {
      assert s.history[i][..0] == [] && Text(s.history[i]) == "" + c.inputs[i] == c.inputs[i];
    }
  }

  lemma InitCounters(c: Config)
    requires c.Valid()
    ensures Counters(c, Init(c))
  {
    var s := Init(c);
    ZeroSum(s.round);
    UnansweredSize(s);
  }

  lemma InitInputs(c: Config)
    requires c.Valid()
    ensures Inputs(c, Init(c))
  {
    var s := Init(c);
    FirstWords(s.history, c.inputs);
    assert c.inputs == c.inputs[..c.clients] + c.inputs[c.clients..];
  }

  lemma InitInv(c: Config)
    requires c.Valid()
    ensures Inv(c, Init(c))
  {
    InitPlaces(c);
    InitTurns(c);
    InitCounters(c);
    InitInputs(c);
  }

  // ---- all interleavings ----

  /** In every reachable state: each client in one place, at most maxParallel unanswered, inputs conserved. */
  lemma {:induction false} EveryStateIsSafe(c: Config, states: seq<System>)
    requires c.Valid() && IsRun(c, states)
    ensures Inv(c, states[|states| - 1])
  {
    if |states| == 1 {
      InitInv(c);
    } else {
      var front := states[..|states| - 1];
      EveryStateIsSafe(c, front);
      StepKeeps(c, front[|front| - 1], states[|states| - 1]);
    }
  }

  /** In numbers: the unanswered requests, their bound, and the turns of every conversation. */
  lemma CountsInRuns(c: Config, states: seq<System>)
    requires c.Valid() && IsRun(c, states)
    ensures var s := states[|states| - 1];
            && s.sent - s.completed == |s.inFlight| + |s.responses| + (if s.counted.Some? then 1 else 0) <= c.maxParallel
            && |s.history| == |s.round| == c.clients
            && (forall i, k :: 0 <= i < c.clients && 0 <= k < |s.history[i]| ==> (s.history[i][k].User? <==> k % 2 == 0))
            && (forall i :: 0 <= i < c.clients ==> s.round[i] <= c.rounds)
  {
    EveryStateIsSafe(c, states);
    UnansweredSize(states[|states| - 1]);
    AllAlternate(c, states[|states| - 1]);
  }

  lemma AllAlternate(c: Config, s: System)
    requires Turns(c, s)
    ensures forall i, k :: 0 <= i < c.clients && 0 <= k < |s.history[i]| ==> (s.history[i][k].User? <==> k % 2 == 0)
  {
    forall i | 0 <= i < c.clients
      ensures forall k :: 0 <= k < |s.history[i]| ==> (s.history[i][k].User? <==> k % 2 == 0)
    {
      assert InTurn(c, s.history[i], s.round[i], s.settling == Some(i));
    }
  }

  lemma {:induction false} SaidCount(h: seq<Turn>)
    requires Alternates(h)
    ensures |Said(h)| == (|h| + 1) / 2
  {
    if |h| > 0 {
      SaidCount(h[..|h| - 1]);
    }
  }

  lemma SaidLast(hs: seq<seq<Turn>>)
    requires |hs| > 0
    ensures |AllSaid(hs)| == |AllSaid(hs[..|hs| - 1])| + |Said(hs[|hs| - 1])|
  {
  }

  lemma {:induction false} SaidBound(hs: seq<seq<Turn>>, rounds: nat)
    requires forall i :: 0 <= i < |hs| ==> |Said(hs[i])| <= rounds
    ensures |AllSaid(hs)| <= |hs| * rounds
  {
    if |hs| > 0 {
      var n := |hs| - 1;
      SaidBound(hs[..n], rounds);
      SaidLast(hs);
      OneMoreRow(n, rounds);
    }
  }

  lemma {:induction false} SaidLess(hs: seq<seq<Turn>>, rounds: nat, i: nat)
    requires forall k :: 0 <= k < |hs| ==> |Said(hs[k])| <= rounds
    requires i < |hs| && |Said(hs[i])| < rounds
    ensures |AllSaid(hs)| < |hs| * rounds
  {
    var n := |hs| - 1;
    SaidLast(hs);
    OneMoreRow(n, rounds);
    if i == n {
      SaidBound(hs[..n], rounds);
    } else {
      SaidLess(hs[..n], rounds, i);
    }
  }

  lemma SaidByClients(c: Config, s: System)
    requires Inv(c, s)
    ensures forall i :: 0 <= i < c.clients ==> |Said(s.history[i])| <= c.rounds
    ensures s.settling.Some? && s.settling.value < c.clients && s.round[s.settling.value] < c.rounds
            ==> |Said(s.history[s.settling.value])| < c.rounds
  {
    forall i | 0 <= i < c.clients
      ensures |Said(s.history[i])| <= c.rounds
      ensures s.settling == Some(i) && s.round[i] < c.rounds ==> |Said(s.history[i])| < c.rounds
    {
      assert InTurn(c, s.history[i], s.round[i], s.settling == Some(i));
      SaidCount(s.history[i]);
    }
  }

  /** candidate_inputs.pop() never finds an empty list. */
  lemma PopNeverUnderflows(c: Config, s: System)
    requires c.Valid() && Inv(c, s)
    requires s.settling.Some? && s.settling.value < c.clients && s.round[s.settling.value] < c.rounds
    ensures |s.candidates| > 0
  {
    SaidByClients(c, s);
    SaidLess(s.history, c.rounds, s.settling.value);
    assert |AllSaid(s.history) + multiset(s.candidates)| == |multiset(c.inputs)|;
  }

  lemma {:induction false} SomeRoundLeft(round: seq<nat>, rounds: nat) returns (i: nat)
    requires forall k :: 0 <= k < |round| ==> round[k] <= rounds
    requires Sum(round) < |round| * rounds
    ensures i < |round| && round[i] < rounds
  {
    var n := |round| - 1;
    if round[n] < rounds {
      i := n;
    } else {
      OneMoreRow(n, rounds);
      i := SomeRoundLeft(round[..n], rounds);
    }
  }

  /** The handler waits in vain: nothing but its own waiting changes. */
  predicate Poll(s: System, s': System) {
    s' == s.(timedOut := s'.timedOut)
  }

  /**
   Until every round is recorded, something other than stopping can happen, and it is work unless the handler's wait
   has just ended; only a handler whose wait has ended on a full bar has nothing left but to stop.
   */
  lemma NeverStuck(c: Config, s: System) returns (s': System)
    requires c.Valid() && Inv(c, s) && !s.handlerDone
    requires s.completed < c.total || s.settling.Some?
    requires s.timedOut ==> s.progress < c.total
    ensures Next(c, s, s') && s'.senderDone == s.senderDone && s'.handlerDone == s.handlerDone
    ensures !s.timedOut ==> !Poll(s, s')
  {
    if s.timedOut {
      s' := s.(timedOut := false);
      assert ReadBar(c, s, s');
    } else if s.settling.Some? {
      s' := SettlingCanMove(c, s);
    } else if |s.responses| > 0 {
      s' := HandlerCanMove(c, s);
    } else if s.counted.Some? {
      s' := Enqueued(s);
      assert Enqueue(s, s');
    } else if |s.inFlight| > 0 {
      s' := Answered(s, 0, "");
      assert Answer(s, s', 0, "");
    } else {
      s' := SenderCanMove(c, s);
    }
  }

  lemma SettlingCanMove(c: Config, s: System) returns (s': System)
    requires c.Valid() && Inv(c, s) && s.settling.Some?
    ensures Next(c, s, s') && s'.settling.None? && !Poll(s, s')
    ensures s' == s.(settling := None, history := s'.history, ready := s'.ready, candidates := s'.candidates)
  {
    var i := s.settling.value;
    assert i in Present(s);
    if s.round[i] < c.rounds {
      PopNeverUnderflows(c, s);
      var h := s.history[i] + [User(s.candidates[|s.candidates| - 1])];
      s' := s.(settling := None, history := s.history[i := h], ready := s.ready + [Message(i, Text(h))],
               candidates := s.candidates[..|s.candidates| - 1]);
      assert Requeue(c, s, s');
    } else {
      s' := s.(settling := None);
      assert Retire(c, s, s');
    }
  }

  lemma HandlerCanMove(c: Config, s: System) returns (s': System)
    requires Inv(c, s) && !s.handlerDone && !s.timedOut && s.settling.None? && |s.responses| > 0
    ensures Next(c, s, s') && s'.senderDone == s.senderDone && s'.handlerDone == s.handlerDone && !Poll(s, s')
  {
    RespondingClient(c, s);
    s' := Recorded(s);
    assert Record(s, s');
  }

  lemma SenderCanMove(c: Config, s: System) returns (s': System)
    requires c.Valid() && Inv(c, s) && s.completed < c.total
    requires s.settling.None? && s.responses == [] && s.counted.None? && s.inFlight == []
    ensures Next(c, s, s') && s'.senderDone == s.senderDone && s'.handlerDone == s.handlerDone && !Poll(s, s')
  {
    var i := SomeRoundLeft(s.round, c.rounds);
    UnansweredSize(s);
    assert Present(s)[i] == 1;
    assert Unanswered(s) == multiset{};
    assert |s.ready| > 0;
    s' := Sent(s, 0);
    assert Send(c, s, s', 0);
  }

  // ---- every run ends ----

  ghost function Measure(c: Config, s: System): int {
    5 * (c.total - s.completed) + 4 * |s.ready| + 3 * |s.inFlight| + 2 * (if s.counted.Some? then 1 else 0)
    + |s.responses| + 5 * (if s.settling.Some? then 1 else 0)
    + (if s.senderDone then 0 else 1) + (if s.handlerDone then 0 else 1)
  }

  lemma SenderDecreases(c: Config, s: System, s': System)
    requires (exists k: nat :: Send(c, s, s', k)) || StopSender(c, s, s')
    ensures !Poll(s, s') && Measure(c, s') < Measure(c, s)
  {
    if k: nat :| Send(c, s, s', k) {
      assert |s'.ready| == |s.ready| - 1;
    }
  }

  lemma ServerDecreases(c: Config, s: System, s': System)
    requires (exists k: nat, text: string :: Answer(s, s', k, text)) || Enqueue(s, s')
    ensures !Poll(s, s') && Measure(c, s') < Measure(c, s)
  {
    if k: nat, text: string :| Answer(s, s', k, text) {
      assert |s'.inFlight| == |s.inFlight| - 1;
    }
  }

  lemma HandlerDecreases(c: Config, s: System, s': System)
    requires Record(s, s') || Requeue(c, s, s') || Retire(c, s, s')
    ensures !Poll(s, s') && Measure(c, s') < Measure(c, s)
  {
  }

  /** Every step lowers the measure, except the handler's waiting, which leaves it alone. */
  lemma StepDecreases(c: Config, s: System, s': System)
    requires Next(c, s, s')
    ensures if Poll(s, s') then Measure(c, s') == Measure(c, s) else Measure(c, s') < Measure(c, s)
  {
    if (exists k: nat :: Send(c, s, s', k)) || StopSender(c, s, s') {
      SenderDecreases(c, s, s');
    } else if (exists k: nat, text: string :: Answer(s, s', k, text)) || Enqueue(s, s') {
      ServerDecreases(c, s, s');
    } else if Record(s, s') || Requeue(c, s, s') || Retire(c, s, s') {
      HandlerDecreases(c, s, s');
    }
  }

  lemma MeasureIsNatural(c: Config, s: System)
    requires Inv(c, s)
    ensures Measure(c, s) >= 0
  {
    RequestsFit(c, s);
  }

  /** The steps of a run in which the handler does not just wait. */
  function WorkSteps(states: seq<System>): nat {
    var n := |states| - 1;
    if n <= 0 then 0 else WorkSteps(states[..n]) + if Poll(states[n - 1], states[n]) then 0 else 1
  }

  /** Apart from the handler's waiting, no interleaving takes more than a fixed number of steps. */
  lemma {:induction false} RunsAreShort(c: Config, states: seq<System>)
    requires c.Valid() && IsRun(c, states)
    ensures WorkSteps(states) <= Measure(c, Init(c)) - Measure(c, states[|states| - 1]) <= Measure(c, Init(c))
  {
    EveryStateIsSafe(c, states);
    MeasureIsNatural(c, states[|states| - 1]);
    if |states| == 1 {
    } else {
      var front := states[..|states| - 1];
      RunsAreShort(c, front);
      StepDecreases(c, front[|front| - 1], states[|states| - 1]);
    }
  }

  // ---- how it ends ----

  /** When everything is recorded and settled, every client has had all its rounds and every input is used once. */
  lemma CompletedUsesEverything(c: Config, s: System)
    requires c.Valid() && Inv(c, s) && s.completed == c.total && s.settling.None?
    ensures forall i :: 0 <= i < c.clients ==> s.round[i] == c.rounds && |s.history[i]| == 2 * c.rounds
    ensures s.candidates == [] && AllSaid(s.history) == multiset(c.inputs)
    ensures s.ready == [] && s.inFlight == [] && s.counted.None? && s.responses == []
  {
    RequestsFit(c, s);
    UnansweredSize(s);
    AllRoundsDone(s.round, c.rounds);
    forall i | 0 <= i < c.clients
      ensures |s.history[i]| == 2 * c.rounds && |Said(s.history[i])| == c.rounds
    {
      assert InTurn(c, s.history[i], s.round[i], false);
      SaidCount(s.history[i]);
    }
    SaidExactly(s.history, c.rounds);
    assert |AllSaid(s.history) + multiset(s.candidates)| == |multiset(c.inputs)|;
    assert |s.candidates| == 0;
  }

  lemma {:induction false} AllRoundsDone(round: seq<nat>, rounds: nat)
    requires forall k :: 0 <= k < |round| ==> round[k] <= rounds
    requires Sum(round) == |round| * rounds
    ensures forall k :: 0 <= k < |round| ==> round[k] == rounds
  {
    if |round| > 0 {
      var n := |round| - 1;
      OneMoreRow(n, rounds);
      SumAtMost(round[..n], rounds);
      AllRoundsDone(round[..n], rounds);
    }
  }

  lemma {:induction false} SumAtMost(round: seq<nat>, rounds: nat)
    requires forall k :: 0 <= k < |round| ==> round[k] <= rounds
    ensures Sum(round) <= |round| * rounds
  {
    if |round| > 0 {
      var n := |round| - 1;
      OneMoreRow(n, rounds);
      SumAtMost(round[..n], rounds);
    }
  }

  lemma {:induction false} SaidExactly(hs: seq<seq<Turn>>, rounds: nat)
    requires forall i :: 0 <= i < |hs| ==> |Said(hs[i])| == rounds
    ensures |AllSaid(hs)| == |hs| * rounds
  {
    if |hs| > 0 {
      var n := |hs| - 1;
      SaidExactly(hs[..n], rounds);
      SaidLast(hs);
      OneMoreRow(n, rounds);
    }
  }

  // ---- answers that are never recorded ----

  /** When the handler has stopped, what is missing are the answers it left behind: counted or in its queue. */
  lemma StopLeaves(c: Config, s: System)
    requires c.Valid() && Inv(c, s) && s.handlerDone
    ensures c.total - s.completed == |s.responses| + (if s.counted.Some? then 1 else 0)
    ensures c.total - s.completed <= c.maxParallel && c.total - s.completed <= c.clients
    ensures s.sent == c.total && s.ready == [] && s.inFlight == []
  {
    NothingInFlight(c, s);
    UnansweredSize(s);
    RequestsFit(c, s);
    forall i | 0 <= i < c.clients
      ensures Unanswered(s)[i] <= 1
    {
      assert Unanswered(s)[i] <= Present(s)[i];
    }
    assert forall i :: i in Unanswered(s) ==> i in Present(s);
    var none := seq(c.clients, _ => 0);
    ZeroSum(none);
    CountAll(Unanswered(s), none, 1);
  }

  /** After the handler has stopped, the sender can stop exactly when fewer than maxParallel answers were left behind. */
  lemma SenderStopsExactlyWhen(c: Config, s: System)
    requires c.Valid() && Inv(c, s) && s.handlerDone && !s.senderDone
    ensures (exists s' :: StopSender(c, s, s')) <==> c.total - s.completed < c.maxParallel
  {
    StopLeaves(c, s);
    if c.total - s.completed < c.maxParallel {
      assert StopSender(c, s, s.(senderDone := true));
    }
  }
}
