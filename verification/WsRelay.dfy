/** The websocket relay between a GraphQL client and its backend: two loops that run at the same
    time and tell each other by closing a channel that they have ended
    (cmd/api-firewall/internal/handlers/graphql/wsHandler.go). */
module WsRelay {

  datatype Mode = Disable | Block | LogOnly

  /** What validating a query comes to: valid, invalid, or an error of the validation itself. */
  datatype Check = Passed | Failed | Broken

  /** A message of the client: whether it carries data (text or binary), is empty, is JSON; its
      type and id, and how its query fares. */
  datatype Message = Message(data: bool, empty: bool, json: bool, kind: string, id: string, check: Check)

  /** What the client loop does with a message, one write after the other. */
  datatype Action = Forward | SendError(id: string) | SendComplete(id: string)

  predicate StartsQuery(m: Message) {
    m.data && !m.empty && m.json && (m.kind == "subscribe" || m.kind == "start")
  }

  /** The writes of one turn of the client loop. In log-only mode a broken validation forwards the
      message and goes on to forward it again. */
  function Plan(mode: Mode, m: Message): seq<Action> {
    if mode == Disable || m.empty || !m.data then [Forward]
    else if !m.json then (if mode == LogOnly then [Forward] else [])
    else if m.kind != "subscribe" && m.kind != "start" then [Forward]
    else if m.check == Broken then (if mode == Block then [SendError(m.id), SendComplete(m.id)] else [Forward, Forward])
    else if m.check == Failed && mode == Block then [SendError(m.id), SendComplete(m.id)]
    else [Forward]
  }

  /** A message is forwarded twice exactly when it starts a query, the mode is log-only and the
      validation itself breaks. */
  predicate Doubles(mode: Mode, m: Message) {
    mode == LogOnly && StartsQuery(m) && m.check == Broken
  }

  // ---------------------------------------------------------------- the two loops

  /** The client loop: before it looks at the other loop's channel, reading, carrying out the rest
      of a plan, or ended. */
  datatype ClientLoop = AtSelect | Reading | Acting(rest: seq<Action>) | Ended

  datatype BackendLoop = BackendSelect | BackendReading | BackendWriting | BackendEnded

  /** An attempted write of the client loop: for which message, what, and whether it worked. */
  datatype Attempt = Attempt(index: nat, action: Action, ok: bool)

  datatype State = State(
    client: ClientLoop, backend: BackendLoop,
    read: seq<Message>, attempts: seq<Attempt>,
    backendRead: nat, backendSent: nat,
    clientCloses: nat, backendCloses: nat)

  datatype Event =
    | ClientLooks
    | ClientReads(m: Message)
    | ClientReadFails
    | ClientWrites(ok: bool)
    | BackendLooks
    | BackendReads
    | BackendReadFails
    | BackendWrites(ok: bool)

  const INITIAL: State := State(AtSelect, BackendSelect, [], [], 0, 0, 0, 0)

  function EndClient(s: State): State {
    s.(client := Ended, clientCloses := s.clientCloses + 1)
  }

  function EndBackend(s: State): State {
    s.(backend := BackendEnded, backendCloses := s.backendCloses + 1)
  }

  function AfterAction(rest: seq<Action>): ClientLoop {
    if rest == [] then AtSelect else Acting(rest)
  }

  ghost predicate Step(mode: Mode, s: State, e: Event, s': State) {
    match e
    case ClientLooks =>
      s.client.AtSelect? && s' == if s.backendCloses > 0 then EndClient(s) else s.(client := Reading)
    case ClientReads(m) =>
      s.client.Reading? && s' == s.(read := s.read + [m], client := AfterAction(Plan(mode, m)))
    case ClientReadFails =>
      s.client.Reading? && s' == EndClient(s)
    case ClientWrites(ok) =>
      && s.client.Acting? && s.client.rest != [] && s.read != []
      && var t := s.(attempts := s.attempts + [Attempt(|s.read| - 1, s.client.rest[0], ok)]);
         s' == if s.client.rest[0].Forward? && !ok then EndClient(t) else t.(client := AfterAction(s.client.rest[1..]))
    case BackendLooks =>
      s.backend.BackendSelect? && s' == if s.clientCloses > 0 then EndBackend(s) else s.(backend := BackendReading)
    case BackendReads =>
      s.backend.BackendReading? && s' == s.(backend := BackendWriting, backendRead := s.backendRead + 1)
    case BackendReadFails =>
      s.backend.BackendReading? && s' == EndBackend(s)
    case BackendWrites(ok) =>
      s.backend.BackendWriting? &&
      s' == if ok then s.(backend := BackendSelect, backendSent := s.backendSent + 1) else EndBackend(s)
  }

  ghost predicate Next(mode: Mode, s: State, s': State) {
    exists e :: Step(mode, s, e, s')
  }

  ghost predicate Run(mode: Mode, states: seq<State>) {
    && states != [] && states[0] == INITIAL
    && forall k :: 0 <= k < |states| - 1 ==> Next(mode, states[k], states[k + 1])
  }

  // ---------------------------------------------------------------- what the client loop has done

  /** The plans of all messages read, one after the other, each action with its message. */
  function Script(mode: Mode, read: seq<Message>): seq<(nat, Action)> {
    if read == [] then [] else Script(mode, read[..|read| - 1]) + Tagged(|read| - 1, Plan(mode, read[|read| - 1]))
  }

  function Tagged(i: nat, actions: seq<Action>): (tagged: seq<(nat, Action)>)
    ensures |tagged| == |actions| && forall k :: 0 <= k < |actions| ==> tagged[k] == (i, actions[k])
  {
    seq(|actions|, k requires 0 <= k < |actions| => (i, actions[k]))
  }

  function Done(attempts: seq<Attempt>): (done: seq<(nat, Action)>)
    ensures |done| == |attempts| && forall k :: 0 <= k < |attempts| ==> done[k] == (attempts[k].index, attempts[k].action)
  {
    seq(|attempts|, k requires 0 <= k < |attempts| => (attempts[k].index, attempts[k].action))
  }

  predicate Suffix<T(==)>(a: seq<T>, b: seq<T>) {
    |a| <= |b| && b[|b| - |a|..] == a
  }

  /** The actions that an ended loop can have left undone: the second of two forwards. */
  function LeftUndone(mode: Mode, read: seq<Message>): nat {
    if read != [] && Doubles(mode, read[|read| - 1]) then 1 else 0
  }

  /** The attempts follow the script; what is left is the rest of the current plan, or of the plan
      that a failed forward has cut short. Only the last forward can have failed, for the last
      message read. */
  ghost predicate Inv(mode: Mode, s: State) {
    && (match s.client
        case Acting(rest) =>
          && s.read != [] && rest != [] && Suffix(rest, Plan(mode, s.read[|s.read| - 1]))
          && Script(mode, s.read) == Done(s.attempts) + Tagged(|s.read| - 1, rest)
        case Ended =>
          Done(s.attempts) <= Script(mode, s.read) && |Script(mode, s.read)| <= |s.attempts| + LeftUndone(mode, s.read)
        case _ => Script(mode, s.read) == Done(s.attempts))
    && (forall k :: 0 <= k < |s.attempts| && s.attempts[k].action.Forward? && !s.attempts[k].ok ==>
          s.client.Ended? && k == |s.attempts| - 1 && s.attempts[k].index == |s.read| - 1)
    && s.clientCloses == (if s.client.Ended? then 1 else 0)
    && s.backendCloses == (if s.backend.BackendEnded? then 1 else 0)
    && s.backendRead == s.backendSent + (if s.backend.BackendWriting? then 1 else 0) + (if s.backend.BackendEnded? && s.backendRead > s.backendSent then 1 else 0)
  }

  lemma ReadsMore(mode: Mode, s: State, m: Message)
    requires Inv(mode, s) && s.client.Reading?
    ensures Inv(mode, s.(read := s.read + [m], client := AfterAction(Plan(mode, m))))
  {
    hide Plan;
    var read := s.read + [m];
    assert read[..|s.read|] == s.read;
    assert Script(mode, read) == Script(mode, s.read) + Tagged(|s.read|, Plan(mode, m));
    if Plan(mode, m) == [] {
      assert Script(mode, read) == Script(mode, s.read);
    }
  }

  lemma WritesMore(mode: Mode, s: State, ok: bool)
    requires Inv(mode, s) && s.client.Acting? && s.client.rest != [] && s.read != []
    ensures var t := s.(attempts := s.attempts + [Attempt(|s.read| - 1, s.client.rest[0], ok)]);
            Inv(mode, if s.client.rest[0].Forward? && !ok then EndClient(t) else t.(client := AfterAction(s.client.rest[1..])))
  {
    hide Plan, Script, Done, Tagged, Doubles;
    var i, rest := |s.read| - 1, s.client.rest;
    WriteScript(Script(mode, s.read), s.attempts, i, rest, ok);
    assert Suffix(rest[1..], Plan(mode, s.read[i]));
    if rest[0].Forward? {
      LeftOfPlan(mode, s.read[i], rest);
    }
  }

  lemma {:induction false} LeftOfPlan(mode: Mode, m: Message, rest: seq<Action>)
    requires rest != [] && rest[0].Forward? && Suffix(rest, Plan(mode, m))
    ensures |rest| <= if Doubles(mode, m) then 2 else 1
  {
    hide Plan, Doubles;
    var plan := Plan(mode, m);
    assert plan[|plan| - |rest|] == plan[|plan| - |rest|..][0];
    PlanForms(mode, m);
  }

  lemma PlanForms(mode: Mode, m: Message)
    ensures var plan := Plan(mode, m);
            if Doubles(mode, m) then plan == [Forward, Forward]
            else plan == [] || plan == [Forward] || plan == [SendError(m.id), SendComplete(m.id)]
  {}

  lemma WriteScript(script: seq<(nat, Action)>, attempts: seq<Attempt>, i: nat, rest: seq<Action>, ok: bool)
    requires rest != [] && script == Done(attempts) + Tagged(i, rest)
    ensures var more := attempts + [Attempt(i, rest[0], ok)];
            && script == Done(more) + Tagged(i, rest[1..]) && Done(more) <= script && |script| == |more| + |rest| - 1
            && (rest[1..] == [] ==> script == Done(more))
  {
    hide Done, Tagged;
    var more := attempts + [Attempt(i, rest[0], ok)];
    DoneMore(attempts, Attempt(i, rest[0], ok));
    TaggedCons(i, rest);
    Regroup(Done(attempts), (i, rest[0]), Tagged(i, rest[1..]));
    if rest[1..] == [] {
      TaggedNone(i);
      assert Done(more) + [] == Done(more);
    }
  }

  lemma DoneMore(attempts: seq<Attempt>, a: Attempt)
    ensures Done(attempts + [a]) == Done(attempts) + [(a.index, a.action)]
  {}

  lemma TaggedCons(i: nat, rest: seq<Action>)
    requires rest != []
    ensures Tagged(i, rest) == [(i, rest[0])] + Tagged(i, rest[1..])
  {}

  lemma TaggedNone(i: nat)
    ensures Tagged(i, []) == []
  {}

  lemma Regroup<T>(a: seq<T>, x: T, b: seq<T>)
    ensures a + ([x] + b) == a + [x] + b && a + [x] <= a + ([x] + b)
  {}

  lemma StepInv(mode: Mode, s: State, e: Event, s': State)
    requires Inv(mode, s) && Step(mode, s, e, s')
    ensures Inv(mode, s')
  {
    hide Plan, Script, Done, Tagged;
    match e
    case ClientReads(m) => ReadsMore(mode, s, m);
    case ClientWrites(ok) => WritesMore(mode, s, ok);
    case _ =>
  }

  lemma {:induction false} RunInv(mode: Mode, states: seq<State>, k: nat)
    requires Run(mode, states) && k < |states|
    ensures Inv(mode, states[k])
    decreases k
  {
    hide Step;
    if k > 0 {
      RunInv(mode, states, k - 1);
      assert Next(mode, states[k - 1], states[k - 1 + 1]);
      var e :| Step(mode, states[k - 1], e, states[k]);
      hide Inv;
      StepInv(mode, states[k - 1], e, states[k]);
    }
  }

  // ---------------------------------------------------------------- scripts

  /** What the script says about one of its actions. */
  lemma {:induction false} ScriptAt(mode: Mode, read: seq<Message>, k: nat) returns (j: nat)
    requires k < |Script(mode, read)|
    ensures var (i, a) := Script(mode, read)[k]; i < |read| && j < |Plan(mode, read[i])| && a == Plan(mode, read[i])[j]
    decreases |read|
  {
    hide Plan;
    var last := |read| - 1;
    var front := Script(mode, read[..last]);
    if k < |front| {
      j := ScriptAt(mode, read[..last], k);
      assert read[..last][front[k].0] == read[front[k].0];
      assert Script(mode, read)[k] == front[k];
    } else {
      j := k - |front|;
    }
  }

  /** Messages come in order in the script. */
  lemma {:induction false} ScriptOrdered(mode: Mode, read: seq<Message>, k: nat, l: nat)
    requires k < l < |Script(mode, read)|
    ensures Script(mode, read)[k].0 <= Script(mode, read)[l].0
    decreases |read|
  {
    hide Plan;
    var last := |read| - 1;
    var front := Script(mode, read[..last]);
    if l < |front| {
      ScriptOrdered(mode, read[..last], k, l);
    } else if k < |front| {
      var _ := ScriptAt(mode, read[..last], k);
    }
  }

  lemma PlanDoubles(mode: Mode, m: Message)
    ensures Doubles(mode, m) <==> exists j, k :: 0 <= j < k < |Plan(mode, m)| && Plan(mode, m)[j].Forward? && Plan(mode, m)[k].Forward?
  {
    if Doubles(mode, m) {
      assert Plan(mode, m)[0].Forward? && Plan(mode, m)[1].Forward?;
    }
  }

  lemma {:induction false} ForwardOnce(mode: Mode, read: seq<Message>, k: nat, l: nat)
    requires k < l < |Script(mode, read)|
    requires Script(mode, read)[k].1.Forward? && Script(mode, read)[l].1.Forward? && Script(mode, read)[k].0 == Script(mode, read)[l].0
    ensures Script(mode, read)[k].0 < |read| && Doubles(mode, read[Script(mode, read)[k].0])
    decreases |read|
  {
    hide Plan, Doubles;
    var last := |read| - 1;
    var front := Script(mode, read[..last]);
    if l < |front| {
      ForwardOnce(mode, read[..last], k, l);
    } else {
      if k < |front| {
        var _ := ScriptAt(mode, read[..last], k);
      }
      PlanDoubles(mode, read[last]);
    }
  }

  // ---------------------------------------------------------------- what the backend receives

  /** The message was delivered to the backend by this attempt. */
  predicate Delivered(s: State, k: nat) {
    k < |s.attempts| && s.attempts[k].action.Forward? && s.attempts[k].ok
  }

  lemma DoneInScript(mode: Mode, s: State, k: nat)
    requires Inv(mode, s) && k < |s.attempts|
    ensures k < |Script(mode, s.read)| && Script(mode, s.read)[k] == (s.attempts[k].index, s.attempts[k].action)
  {
    hide Script;
    assert Done(s.attempts)[k] == (s.attempts[k].index, s.attempts[k].action);
  }

  /** Over every run the backend receives the client's messages in order; none twice, unless the
      mode is log-only and the validation of that message broke. */
  lemma BackendReceivesInOrder(mode: Mode, states: seq<State>, n: nat, k: nat, l: nat)
    requires Run(mode, states) && n < |states| && k < l && Delivered(states[n], k) && Delivered(states[n], l)
    ensures var s := states[n];
            var i, j := s.attempts[k].index, s.attempts[l].index;
            i <= j < |s.read| && (i == j ==> Doubles(mode, s.read[i]))
  {
    hide Script, Plan, Doubles, Inv;
    RunInv(mode, states, n);
    var s := states[n];
    DoneInScript(mode, s, k);
    DoneInScript(mode, s, l);
    ScriptOrdered(mode, s.read, k, l);
    var _ := ScriptAt(mode, s.read, l);
    if s.attempts[k].index == s.attempts[l].index {
      ForwardOnce(mode, s.read, k, l);
    }
  }

  /** In block mode every start or subscribe message the backend receives passed validation, and
      everything else it receives is no unreadable data. */
  lemma BackendReceivesValid(states: seq<State>, n: nat, k: nat)
    requires Run(Block, states) && n < |states| && Delivered(states[n], k)
    ensures var s := states[n];
            && s.attempts[k].index < |s.read|
            && var m := s.read[s.attempts[k].index];
               (StartsQuery(m) ==> m.check == Passed) && (m.data && !m.empty ==> m.json)
  {
    hide Script, Inv;
    RunInv(Block, states, n);
    DoneInScript(Block, states[n], k);
    var j := ScriptAt(Block, states[n].read, k);
  }

  // ---------------------------------------------------------------- what a blocked client is told

  /** The part of the script that belongs to one message is its plan. */
  lemma {:induction false} ScriptPart(mode: Mode, read: seq<Message>, i: nat) returns (from: nat)
    requires i < |read|
    ensures from + |Plan(mode, read[i])| <= |Script(mode, read)|
    ensures Script(mode, read)[from..from + |Plan(mode, read[i])|] == Tagged(i, Plan(mode, read[i]))
    ensures from == |Script(mode, read[..i])|
    decreases |read|
  {
    hide Plan;
    var last := |read| - 1;
    var front := Script(mode, read[..last]);
    if i == last {
      from := |front|;
    } else {
      from := ScriptPart(mode, read[..last], i);
      assert read[..last][..i] == read[..i];
      assert Script(mode, read) == front + Tagged(last, Plan(mode, read[last]));
      var n := |Plan(mode, read[i])|;
      assert Script(mode, read)[from..from + n] == front[from..from + n];
    }
  }

  predicate Blocked(m: Message) {
    StartsQuery(m) && m.check != Passed
  }

  /** In block mode, once the client loop has gone on from a blocked message or has ended, it has
      attempted an error and then a completion with that message's id, and nothing else for that
      message. */
  lemma BlockedIsTold(states: seq<State>, n: nat, i: nat) returns (from: nat)
    requires Run(Block, states) && n < |states| && i < |states[n].read| && Blocked(states[n].read[i])
    requires i < |states[n].read| - 1 || !states[n].client.Acting?
    ensures var s := states[n];
            && from + 2 <= |s.attempts|
            && s.attempts[from].index == i && s.attempts[from].action == SendError(s.read[i].id)
            && s.attempts[from + 1].index == i && s.attempts[from + 1].action == SendComplete(s.read[i].id)
            && forall k :: 0 <= k < |s.attempts| && s.attempts[k].index == i ==> k == from || k == from + 1
  {
    hide Script;
    RunInv(Block, states, n);
    var s := states[n];
    from := ScriptPart(Block, s.read, i);
    var script := Script(Block, s.read);
    assert Plan(Block, s.read[i]) == [SendError(s.read[i].id), SendComplete(s.read[i].id)];
    assert script[from..from + 2] == Tagged(i, Plan(Block, s.read[i]));
    assert script[from] == script[from..from + 2][0] && script[from + 1] == script[from..from + 2][1];
    Reached(Block, s, i, from);
    forall k | 0 <= k < |s.attempts| && s.attempts[k].index == i ensures k == from || k == from + 1 {
      DoneInScript(Block, s, k);
      OnlyInPart(Block, s.read, i, k);
    }
  }

  /** The attempts cover the whole plan of a message the loop has gone on from, or at which it has
      ended without leaving anything undone. */
  lemma Reached(mode: Mode, s: State, i: nat, from: nat)
    requires Inv(mode, s) && i < |s.read| && (i < |s.read| - 1 || !s.client.Acting?)
    requires LeftUndone(mode, s.read) == 0 && from == |Script(mode, s.read[..i])|
    ensures from + |Plan(mode, s.read[i])| <= |s.attempts| <= |Script(mode, s.read)|
    ensures forall k :: 0 <= k < |s.attempts| ==> Script(mode, s.read)[k] == (s.attempts[k].index, s.attempts[k].action)
  {
    hide Script, Plan, LeftUndone;
    var last := |s.read| - 1;
    var at := ScriptPart(mode, s.read, i);
    var atLast := ScriptPart(mode, s.read, last);
    if i < last {
      assert s.read[..last][..i] == s.read[..i] && s.read[..last][i] == s.read[i];
      var _ := ScriptPart(mode, s.read[..last], i);
    }
    ScriptSnoc(mode, s.read);
    if s.client.Acting? {
      RestWithin(mode, s);
    }
    forall k | 0 <= k < |s.attempts| ensures k < |Script(mode, s.read)| && Script(mode, s.read)[k] == (s.attempts[k].index, s.attempts[k].action) {
      DoneInScript(mode, s, k);
    }
  }

  lemma ScriptSnoc(mode: Mode, read: seq<Message>)
    requires read != []
    ensures var last := |read| - 1; |Script(mode, read)| == |Script(mode, read[..last])| + |Plan(mode, read[last])|
  {
    hide Plan;
  }

  /** While a plan is carried out, the scripts of the earlier messages are done. */
  lemma RestWithin(mode: Mode, s: State)
    requires Inv(mode, s) && s.client.Acting?
    ensures |s.attempts| >= |Script(mode, s.read[..|s.read| - 1])|
  {
    hide Plan;
    ScriptSnoc(mode, s.read);
    assert |Script(mode, s.read)| == |s.attempts| + |s.client.rest|;
  }

  /** No action elsewhere in the script belongs to the message. */
  lemma {:induction false} OnlyInPart(mode: Mode, read: seq<Message>, i: nat, k: nat)
    requires i < |read| && k < |Script(mode, read)| && Script(mode, read)[k].0 == i
    ensures var from := |Script(mode, read[..i])|; from <= k < from + |Plan(mode, read[i])|
    decreases |read|
  {
    hide Plan;
    var last := |read| - 1;
    var front := Script(mode, read[..last]);
    if k < |front| {
      var _ := ScriptAt(mode, read[..last], k);
      assert read[..last][..i] == read[..i];
      OnlyInPart(mode, read[..last], i, k);
    } else {
      assert read[..last] == read[..i];
    }
  }

  /** What block mode lets through: all but unreadable data and queries that did not pass. */
  predicate Allowed(m: Message) {
    (m.data && !m.empty ==> m.json) && !Blocked(m)
  }

  lemma PlanAllowed(m: Message)
    ensures Plan(Block, m) == if Allowed(m) then [Forward] else if Blocked(m) then [SendError(m.id), SendComplete(m.id)] else []
  {}

  /** In block mode, once the client loop has gone on from any other message or has ended, it has
      written it to the backend once, and the write worked, unless it is the last message read and
      the loop ended by that write. For unreadable data it has done nothing. */
  lemma AllowedIsForwarded(states: seq<State>, n: nat, i: nat) returns (at: nat)
    requires Run(Block, states) && n < |states| && i < |states[n].read| && !Blocked(states[n].read[i])
    requires i < |states[n].read| - 1 || !states[n].client.Acting?
    ensures var s := states[n];
            if Allowed(s.read[i]) then
              && at < |s.attempts| && s.attempts[at].index == i && s.attempts[at].action == Forward
              && (Delivered(s, at) || (s.client.Ended? && i == |s.read| - 1 && at == |s.attempts| - 1))
              && forall k :: 0 <= k < |s.attempts| && s.attempts[k].index == i ==> k == at
            else forall k :: 0 <= k < |s.attempts| ==> s.attempts[k].index != i
  {
    hide Script, Plan;
    RunInv(Block, states, n);
    var s := states[n];
    at := ScriptPart(Block, s.read, i);
    PlanAllowed(s.read[i]);
    var plan, script := Plan(Block, s.read[i]), Script(Block, s.read);
    Reached(Block, s, i, at);
    if plan != [] {
      assert script[at] == script[at..at + 1][0] == (i, Forward);
    }
    forall k | 0 <= k < |s.attempts| && s.attempts[k].index == i ensures Allowed(s.read[i]) && k == at {
      DoneInScript(Block, s, k);
      OnlyInPart(Block, s.read, i, k);
    }
  }

  // ---------------------------------------------------------------- the other modes

  /** Outside block mode every message is forwarded, whatever its check comes to. */
  lemma PlanForwards(mode: Mode, m: Message)
    requires mode != Block
    ensures Plan(mode, m) == if Doubles(mode, m) then [Forward, Forward] else [Forward]
  {}

  /** The attempts reach the plan of a message the loop has gone on from, or at which it has ended. */
  lemma ReachedFirst(mode: Mode, s: State, i: nat, from: nat)
    requires Inv(mode, s) && mode != Block && i < |s.read| && (i < |s.read| - 1 || !s.client.Acting?)
    requires from == |Script(mode, s.read[..i])|
    ensures from < |s.attempts| && (i < |s.read| - 1 ==> from + |Plan(mode, s.read[i])| <= |s.attempts|)
  {
    hide Script, Plan;
    var last := |s.read| - 1;
    PlanForwards(mode, s.read[i]);
    PlanForwards(mode, s.read[last]);
    var _ := ScriptPart(mode, s.read, i);
    if i < last {
      assert s.read[..last][..i] == s.read[..i] && s.read[..last][i] == s.read[i];
      var _ := ScriptPart(mode, s.read[..last], i);
    }
    ScriptSnoc(mode, s.read);
    if s.client.Acting? {
      RestWithin(mode, s);
    }
  }

  /** With validation switched off or logging only, once the client loop has gone on from a message or has
      ended, it has written that message to the backend: once, or twice where the validation itself
      broke, and nothing else for it. Only the last write can have failed, and it ended the loop. */
  lemma OtherModesForward(mode: Mode, states: seq<State>, n: nat, i: nat) returns (at: nat)
    requires mode != Block && Run(mode, states) && n < |states| && i < |states[n].read|
    requires i < |states[n].read| - 1 || !states[n].client.Acting?
    ensures var s := states[n];
            && at < |s.attempts| && s.attempts[at].index == i && s.attempts[at].action == Forward
            && (Delivered(s, at) || (s.client.Ended? && i == |s.read| - 1 && at == |s.attempts| - 1))
            && forall k :: 0 <= k < |s.attempts| && s.attempts[k].index == i ==>
                 s.attempts[k].action == Forward && (k == at || (Doubles(mode, s.read[i]) && k == at + 1))
  {
    hide Script, Plan, Doubles;
    RunInv(mode, states, n);
    var s := states[n];
    at := ScriptPart(mode, s.read, i);
    PlanForwards(mode, s.read[i]);
    ReachedFirst(mode, s, i, at);
    var plan, script := Plan(mode, s.read[i]), Script(mode, s.read);
    DoneInScript(mode, s, at);
    assert script[at] == script[at..at + |plan|][0] == (i, Forward);
    forall k | 0 <= k < |s.attempts| && s.attempts[k].index == i
      ensures s.attempts[k].action == Forward && (k == at || (Doubles(mode, s.read[i]) && k == at + 1))
    {
      DoneInScript(mode, s, k);
      OnlyInPart(mode, s.read, i, k);
      assert script[k] == script[at..at + |plan|][k - at];
    }
  }

  // ---------------------------------------------------------------- the signal channels

  /** Over every run each channel is closed at most once, and exactly once by the time its loop has
      ended; what the backend sends reaches the client in order, except perhaps the last message. */
  lemma ChannelsCloseOnce(mode: Mode, states: seq<State>, n: nat)
    requires Run(mode, states) && n < |states|
    ensures var s := states[n];
            && (s.clientCloses == if s.client.Ended? then 1 else 0)
            && (s.backendCloses == if s.backend.BackendEnded? then 1 else 0)
            && s.backendSent <= s.backendRead <= s.backendSent + 1
  {
    hide Script;
    RunInv(mode, states, n);
  }

  /** Messages a loop has taken in, with the one it may be waiting for. */
  function ClientIntake(s: State): nat { |s.read| + if s.client.Reading? then 1 else 0 }
  function BackendIntake(s: State): nat { s.backendRead + if s.backend.BackendReading? then 1 else 0 }

  /** Once one loop has ended, the other takes in at most the message it is already waiting for. */
  lemma {:induction false} EndingSpreads(mode: Mode, states: seq<State>, n: nat, m: nat)
    requires Run(mode, states) && n <= m < |states|
    ensures states[n].client.Ended? ==> BackendIntake(states[m]) <= BackendIntake(states[n]) && states[m].clientCloses > 0
    ensures states[n].backend.BackendEnded? ==> ClientIntake(states[m]) <= ClientIntake(states[n]) && states[m].backendCloses > 0
    decreases m
  {
    hide Plan, Script;
    if n == m {
      ChannelsCloseOnce(mode, states, n);
    } else {
      EndingSpreads(mode, states, n, m - 1);
      assert Next(mode, states[m - 1], states[m - 1 + 1]);
      var e :| Step(mode, states[m - 1], e, states[m]);
    }
  }
}
