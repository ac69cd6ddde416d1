/** The load balancer under any interleaving of callers and health updates: every atomic access is
    a step of its own (internal/platform/proxy/loadbalancer.go). */
module LoadBalancerRuns {
  import opened LoadBalancing

  /** A call of `Next`: it holds a ticket and has looked at some flags, or it has returned the
      backend at an index, having seen it healthy or not, or it has panicked. */
  datatype Call =
    | Scanning(ticket: nat, looked: nat)
    | Returned(ticket: nat, index: nat, seenHealthy: bool)
    | Panicked(ticket: nat)

  datatype State = State(current: nat, healthy: seq<bool>, calls: map<nat, Call>)

  datatype Event =
    | Begin(c: nat)
    | Look(c: nat)
    | SetFlag(index: nat, up: bool)

  ghost predicate Init(s: State) {
    s.current == 0 && s.calls == map[] && |s.healthy| >= 2 && forall i :: 0 <= i < |s.healthy| ==> s.healthy[i]
  }

  /** What a call does next: it reads one flag, or gives up after the last one. */
  function AfterLook(s: State, t: nat, i: nat): Call
    requires s.healthy != []
  {
    var n := |s.healthy|;
    match Slot(t, if i < n then i else 0, n)
    case None => Panicked(t)
    case Some(idx) =>
      if i >= n then Returned(t, idx, false)
      else if idx < n && s.healthy[idx] then Returned(t, idx, true)
      else Scanning(t, i + 1)
  }

  ghost predicate Step(s: State, e: Event, s': State) {
    match e
    case Begin(c) =>
      c !in s.calls && s.current < WORD && s' == s.(current := After(s.current), calls := s.calls[c := Scanning(After(s.current), 0)])
    case Look(c) =>
      && s.healthy != [] && c in s.calls && s.calls[c].Scanning?
      && s' == s.(calls := s.calls[c := AfterLook(s, s.calls[c].ticket, s.calls[c].looked)])
    case SetFlag(i, up) =>
      i < |s.healthy| && s' == s.(healthy := s.healthy[i := up])
  }

  ghost predicate Next(s: State, s': State) {
    exists e :: Step(s, e, s')
  }

  ghost predicate Run(states: seq<State>) {
    && states != [] && Init(states[0])
    && forall k :: 0 <= k < |states| - 1 ==> Next(states[k], states[k + 1])
  }

  // ---------------------------------------------------------------- tickets

  /** The tickets handed out are 1 to the number of calls, one for each. */
  ghost predicate TicketsExact(s: State) {
    && s.current == |s.calls|
    && InRange(s.calls, s.current) && OneEach(s.calls)
    && (forall t :: 1 <= t <= s.current ==> Held(s, t))
  }

  ghost predicate InRange(calls: map<nat, Call>, current: nat) {
    forall c :: c in calls ==> 1 <= calls[c].ticket <= current
  }

  ghost predicate OneEach(calls: map<nat, Call>) {
    forall c, d :: c in calls && d in calls && calls[c].ticket == calls[d].ticket ==> c == d
  }

  ghost predicate Held(s: State, t: nat) {
    exists c :: c in s.calls && s.calls[c].ticket == t
  }

  lemma CallAdded(calls: map<nat, Call>, c: nat, call: Call)
    ensures |calls[c := call]| == if c in calls then |calls| else |calls| + 1
  {
    assert calls[c := call].Keys == calls.Keys + {c};
  }

  lemma TicketsStep(s: State, e: Event, s': State)
    requires TicketsExact(s) && Step(s, e, s') && |s'.calls| < WORD
    ensures TicketsExact(s')
  {
    hide AfterLook, Held, InRange, OneEach;
    match e
    case Begin(c) =>
      CallAdded(s.calls, c, s'.calls[c]);
      BeginTickets(s, c, s');
    case Look(c) =>
      CallAdded(s.calls, c, s'.calls[c]);
      SameTicket(s, s.calls[c].ticket, s.calls[c].looked);
      SameTickets(s.calls, c, s'.calls[c], s.current);
      StillHeld(s, s');
    case SetFlag(_, _) =>
      StillHeld(s, s');
  }

  lemma BeginTickets(s: State, c: nat, s': State)
    requires TicketsExact(s) && c !in s.calls && s'.current == s.current + 1 && s'.calls == s.calls[c := Scanning(s'.current, 0)]
    ensures TicketsExact(s')
  {
    hide Held, InRange, OneEach;
    CallAdded(s.calls, c, s'.calls[c]);
    StillHeld(s, s');
    HeldNow(s', c);
    OneMore(s.calls, c, s'.current);
  }

  lemma OneMore(calls: map<nat, Call>, c: nat, t: nat)
    requires t > 0 && c !in calls && InRange(calls, t - 1) && OneEach(calls)
    ensures InRange(calls[c := Scanning(t, 0)], t) && OneEach(calls[c := Scanning(t, 0)])
  {}

  lemma SameTickets(calls: map<nat, Call>, c: nat, call: Call, current: nat)
    requires c in calls && call.ticket == calls[c].ticket && InRange(calls, current) && OneEach(calls)
    ensures InRange(calls[c := call], current) && OneEach(calls[c := call])
  {}

  lemma HeldNow(s: State, c: nat)
    requires c in s.calls
    ensures Held(s, s.calls[c].ticket)
  {}

  lemma SameTicket(s: State, t: nat, i: nat)
    requires s.healthy != []
    ensures AfterLook(s, t, i).ticket == t
  {
    hide Slot;
  }

  lemma StillHeld(s: State, s': State)
    requires forall c :: c in s.calls ==> c in s'.calls && s'.calls[c].ticket == s.calls[c].ticket
    ensures forall t: nat :: Held(s, t) ==> Held(s', t)
  {
    forall t: nat | Held(s, t) ensures Held(s', t) {
      var c :| c in s.calls && s.calls[c].ticket == t;
      HeldNow(s', c);
    }
  }

  lemma CallsGrow(s: State, e: Event, s': State)
    requires Step(s, e, s')
    ensures |s.calls| <= |s'.calls| && |s'.healthy| == |s.healthy|
  {
    hide AfterLook;
    match e
    case Begin(c) => CallAdded(s.calls, c, s'.calls[c]);
    case Look(c) => CallAdded(s.calls, c, s'.calls[c]);
    case SetFlag(_, _) =>
  }

  ghost function Last(states: seq<State>): State
    requires states != []
  {
    states[|states| - 1]
  }

  lemma RunFront(states: seq<State>) returns (e: Event)
    requires Run(states) && |states| > 1
    ensures Run(states[..|states| - 1]) && Step(Last(states[..|states| - 1]), e, Last(states))
  {
    var m := |states| - 1;
    var front := states[..m];
    assert forall k :: 0 <= k < m ==> front[k] == states[k];
    assert forall k :: 0 <= k < m - 1 ==> Next(states[k], states[k + 1]);
    assert Next(states[m - 1], states[m]);
    e :| Step(states[m - 1], e, states[m]);
  }

  lemma {:induction false} RingSize(states: seq<State>)
    requires Run(states)
    ensures |Last(states).healthy| == |states[0].healthy| >= 2
    decreases |states|
  {
    hide Step;
    if |states| > 1 {
      var e := RunFront(states);
      CallsGrow(Last(states[..|states| - 1]), e, Last(states));
      RingSize(states[..|states| - 1]);
    }
  }

  /** Over every run: tickets are distinct and contiguous. */
  lemma {:induction false} TicketsInRuns(states: seq<State>)
    requires Run(states) && |Last(states).calls| < WORD
    ensures TicketsExact(Last(states)) && |Last(states).healthy| == |states[0].healthy| >= 2
    decreases |states|
  {
    hide Step;
    RingSize(states);
    if |states| > 1 {
      var e := RunFront(states);
      var front := states[..|states| - 1];
      CallsGrow(Last(front), e, Last(states));
      TicketsInRuns(front);
      TicketsStep(Last(front), e, Last(states));
    }
  }

  // ---------------------------------------------------------------- what a call has seen

  /** The step after state `k` is the look of call `c` in round `r`, and flag `p` has this value then.
      Only its own looks change a call. */
  ghost predicate Saw(states: seq<State>, k: nat, c: nat, r: nat, p: nat, up: bool) {
    && k + 1 < |states| && c in states[k].calls && c in states[k + 1].calls
    && states[k].calls[c].Scanning? && states[k].calls[c].looked == r
    && states[k + 1].calls[c] != states[k].calls[c]
    && p < |states[k].healthy| && states[k].healthy[p] == up
  }

  ghost predicate Seen(states: seq<State>, c: nat, r: nat, p: nat, up: bool) {
    exists k: nat :: Saw(states, k, c, r, p, up)
  }

  /** The flag that a call with ticket `t` looks at in round `r` had this value when it looked. */
  ghost predicate SawInRound(states: seq<State>, c: nat, n: nat, t: nat, r: nat, up: bool)
    requires n > 0
  {
    Seen(states, c, r, (t + r) % n, up)
  }

  ghost predicate DownBefore(states: seq<State>, c: nat, n: nat, t: nat, i: nat)
    requires n > 0
  {
    forall r :: 0 <= r < i ==> SawInRound(states, c, n, t, r, false)
  }

  /** Round `r` is the first in which the call saw a flag up, the one at this index. */
  ghost predicate FirstUp(states: seq<State>, c: nat, n: nat, t: nat, r: nat, index: nat)
    requires n > 0
  {
    r < n && index == (t + r) % n && SawInRound(states, c, n, t, r, true) && DownBefore(states, c, n, t, r)
  }

  /** The flags the call has looked at so far were down when it looked, one in each round; it returns
      the first backend that it saw up, or the one at its own position after it saw every flag down;
      it never panics. */
  ghost predicate Justified(states: seq<State>, n: nat, c: nat, call: Call)
    requires n > 0
  {
    match call
    case Scanning(t, i) => i <= n && DownBefore(states, c, n, t, i)
    case Returned(t, idx, true) => exists r: nat :: FirstUp(states, c, n, t, r, idx)
    case Returned(t, idx, false) => idx == t % n && DownBefore(states, c, n, t, n)
    case Panicked(_) => false
  }

  lemma SawLonger(states: seq<State>, more: seq<State>, c: nat, n: nat, t: nat, r: nat, up: bool)
    requires n > 0 && SawInRound(states, c, n, t, r, up) && states <= more
    ensures SawInRound(more, c, n, t, r, up)
  {
    var k: nat :| Saw(states, k, c, r, (t + r) % n, up);
    assert Saw(more, k, c, r, (t + r) % n, up);
  }

  lemma DownLonger(states: seq<State>, more: seq<State>, c: nat, n: nat, t: nat, i: nat)
    requires n > 0 && DownBefore(states, c, n, t, i) && states <= more
    ensures DownBefore(more, c, n, t, i)
  {
    hide SawInRound;
    forall r | 0 <= r < i ensures SawInRound(more, c, n, t, r, false) {
      SawLonger(states, more, c, n, t, r, false);
    }
  }

  lemma JustifiedLonger(states: seq<State>, more: seq<State>, n: nat, c: nat, call: Call)
    requires n > 0 && Justified(states, n, c, call) && states <= more
    ensures Justified(more, n, c, call)
  {
    hide SawInRound, DownBefore;
    match call
    case Scanning(t, i) =>
      DownLonger(states, more, c, n, t, i);
    case Returned(t, idx, true) =>
      var r: nat :| FirstUp(states, c, n, t, r, idx);
      SawLonger(states, more, c, n, t, r, true);
      DownLonger(states, more, c, n, t, r);
      assert FirstUp(more, c, n, t, r, idx);
    case Returned(t, idx, false) =>
      DownLonger(states, more, c, n, t, n);
    case Panicked(_) =>
  }

  /** Looking keeps a call justified. */
  lemma LookJustified(states: seq<State>, s: State, c: nat)
    requires |states| > 1 && s == states[|states| - 2] && Step(s, Look(c), Last(states))
    requires SafeTicket(s.calls[c].ticket, |s.healthy|) && Justified(states, |s.healthy|, c, s.calls[c])
    ensures Justified(states, |s.healthy|, c, Last(states).calls[c])
  {
    hide Slot, SawInRound, DownBefore;
    var n, t, i := |s.healthy|, s.calls[c].ticket, s.calls[c].looked;
    SafeRound(t, if i < n then i else 0, n);
    if i < n {
      var p := (t + i) % n;
      SeesNow(states, c, t, i);
      if s.healthy[p] {
        assert FirstUp(states, c, n, t, i, p);
      } else {
        DownOnce(states, c, n, t, i);
      }
    }
  }

  lemma SeesNow(states: seq<State>, c: nat, t: nat, i: nat)
    requires |states| > 1 && Step(states[|states| - 2], Look(c), Last(states)) && states[|states| - 2].calls[c] == Scanning(t, i)
    requires i < |states[|states| - 2].healthy|
    ensures var s := states[|states| - 2];
            SawInRound(states, c, |s.healthy|, t, i, s.healthy[(t + i) % |s.healthy|])
  {
    hide Slot;
    var k := |states| - 2;
    var n := |states[k].healthy|;
    assert Saw(states, k, c, i, (t + i) % n, states[k].healthy[(t + i) % n]);
  }

  lemma DownOnce(states: seq<State>, c: nat, n: nat, t: nat, i: nat)
    requires n > 0 && DownBefore(states, c, n, t, i) && SawInRound(states, c, n, t, i, false)
    ensures DownBefore(states, c, n, t, i + 1)
  {
    hide SawInRound;
  }

  /** The `n` rounds of a scan come by every backend. */
  lemma RoundOf(t: nat, p: nat, n: nat) returns (r: nat)
    requires p < n
    ensures r < n && (t + r) % n == p
  {
    var s := t % n;
    r := if p >= s then p - s else p + n - s;
    ModAdd(t, r, n);
  }

  /** So a call that falls back saw every backend down, each when it looked at it. */
  lemma FallbackSawAll(states: seq<State>, n: nat, c: nat, call: Call, p: nat) returns (r: nat)
    requires n > 0 && p < n && call.Returned? && !call.seenHealthy && Justified(states, n, c, call)
    ensures r < n && (call.ticket + r) % n == p && SawInRound(states, c, n, call.ticket, r, false)
  {
    hide SawInRound;
    r := RoundOf(call.ticket, p, n);
  }

  /** Over every run of callers and health updates, every call whose ticket is within the range where
      indexes are exact is justified: it returns the first backend in ring order that it saw healthy
      when it looked or, only if it saw every one unhealthy, the one at its ticket's position. */
  lemma {:induction false} CallsJustified(states: seq<State>, c: nat)
    requires Run(states) && c in Last(states).calls && SafeTicket(Last(states).calls[c].ticket, |Last(states).healthy|)
    ensures |Last(states).healthy| > 0 && Justified(states, |Last(states).healthy|, c, Last(states).calls[c])
    decreases |states|
  {
    hide Justified, AfterLook;
    RingSize(states);
    if |states| > 1 {
      var e := RunFront(states);
      var front := states[..|states| - 1];
      var s, s' := Last(front), Last(states);
      CallsGrow(s, e, s');
      if c in s.calls {
        if e == Look(c) {
          SameTicket(s, s.calls[c].ticket, s.calls[c].looked);
        }
        CallsJustified(front, c);
        JustifiedLonger(front, states, |s.healthy|, c, s.calls[c]);
        if e == Look(c) {
          LookJustified(states, s, c);
        }
      } else {
        NewJustified(states, |s'.healthy|, c, s'.calls[c].ticket);
      }
    }
  }

  lemma NewJustified(states: seq<State>, n: nat, c: nat, t: nat)
    requires n > 0
    ensures Justified(states, n, c, Scanning(t, 0))
  {}
}
