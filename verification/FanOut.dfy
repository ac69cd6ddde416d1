/** One request checked against many specifications at once: one goroutine for each requested id,
    whose results are merged under a lock (pkg/APIMode/apifw.go, pkg/APIMode/validator). */
module FanOut {
  import opened Text
  import opened SpecStorage

  datatype Summary = Summary(id: SchemaId, status: int)

  datatype Problem = Problem(id: SchemaId, code: string)

  /** The result for one or for several ids, and whether an error was reported with it. */
  datatype Response = Response(summary: seq<Summary>, errors: seq<Problem>, failed: bool)

  // ---------------------------------------------------------------- one id

  /** What the router and the handler did with the request. */
  datatype Handling =
    | UnknownSchema
    | NoRoute
    | HandlerError
    | HandlerPanic
    | NoStatus
    | Handled(status: int, problems: seq<Problem>)

  const OK: int := 200
  const FORBIDDEN: int := 403
  const INTERNAL_ERROR: int := 500

  predicate Permutation(order: seq<nat>, n: nat) {
    && |order| == n && (forall i :: 0 <= i < n ==> order[i] < n)
    && forall i, j :: 0 <= i < j < n ==> order[i] != order[j]
  }

  function Picked<T>(raw: seq<T>, order: seq<nat>): (picked: seq<T>)
    requires forall i :: 0 <= i < |order| ==> order[i] < |raw|
    ensures |picked| == |order| && forall i :: 0 <= i < |order| ==> picked[i] == raw[order[i]]
  {
    seq(|order|, i requires 0 <= i < |order| => raw[order[i]])
  }

  /** Picking at different positions takes each element at most as often as it is there. */
  lemma {:induction false} PickedFrom<T>(raw: seq<T>, order: seq<nat>)
    requires forall i :: 0 <= i < |order| ==> order[i] < |raw|
    requires forall i, j :: 0 <= i < j < |order| ==> order[i] != order[j]
    ensures multiset(Picked(raw, order)) <= multiset(raw)
    decreases |raw|
  {
    if order == [] {
      assert Picked(raw, order) == [];
    } else {
      assert order[0] < |raw|;
      var n := |raw| - 1;
      var front := raw[..n];
      assert raw == front + [raw[n]];
      if p :| 0 <= p < |order| && order[p] == n {
        var rest := Without(order, p);
        PickedFrom(front, rest);
        PickedElsewhere(raw, n, rest);
        PickedWithout(raw, order, p);
      } else {
        PickedFrom(front, order);
        PickedElsewhere(raw, n, order);
      }
    }
  }

  function Without<T>(s: seq<T>, p: nat): (rest: seq<T>)
    requires p < |s|
    ensures |rest| == |s| - 1 && forall i :: 0 <= i < |rest| ==> rest[i] == s[if i < p then i else i + 1]
  {
    s[..p] + s[p + 1..]
  }

  lemma PickedElsewhere<T>(raw: seq<T>, n: nat, order: seq<nat>)
    requires n <= |raw| && forall i :: 0 <= i < |order| ==> order[i] < n
    ensures Picked(raw[..n], order) == Picked(raw, order)
  {}

  lemma PickedWithout<T>(raw: seq<T>, order: seq<nat>, p: nat)
    requires p < |order| && forall i :: 0 <= i < |order| ==> order[i] < |raw|
    ensures multiset(Picked(raw, order)) == multiset(Picked(raw, Without(order, p))) + multiset{raw[order[p]]}
  {
    var picked := Picked(raw, order);
    assert Picked(raw, Without(order, p)) == picked[..p] + picked[p + 1..];
    assert picked == picked[..p] + [picked[p]] + picked[p + 1..];
  }

  /** `SampleSlice`: at most `limit` elements, chosen by a random permutation; a limit of zero means
      no limit, and a negative one panics. */
  method SampleSlice<T>(raw: seq<T>, limit: int, order: seq<nat>) returns (r: Option<seq<T>>)
    requires Permutation(order, |raw|)
    ensures r.None? <==> limit < 0
    ensures limit == 0 || |raw| <= limit ==> r == Some(raw)
    ensures 0 < limit < |raw| ==> |r.value| == limit && multiset(r.value) <= multiset(raw)
  {
    if |raw| <= limit || limit == 0 {
      return Some(raw);
    }
    if limit < 0 {
      return None;
    }
    var indices := order[..limit];
    var sampled: seq<T> := [];
    for i := 0 to limit
      invariant |sampled| == i && forall k :: 0 <= k < i ==> sampled[k] == raw[indices[k]]
    {
      sampled := sampled + [raw[indices[i]]];
    }
    PickedFrom(raw, indices);
    assert sampled == Picked(raw, indices);
    return Some(sampled);
  }

  /** A response for one id: one summary entry, for that id. */
  predicate Answers(r: Response, id: SchemaId) {
    |r.summary| == 1 && r.summary[0].id == id
  }

  function Failure(id: SchemaId): Response {
    Response([Summary(id, INTERNAL_ERROR)], [], true)
  }

  /** `ProcessRequest`: whatever happens, a panic included, exactly one summary entry comes back. */
  method ProcessRequest(id: SchemaId, h: Handling, isOptions: bool, passOptions: bool, limit: int, order: seq<nat>)
      returns (r: Response)
    requires Permutation(order, if h.Handled? then |h.problems| else 0)
    ensures Answers(r, id)
    ensures h.UnknownSchema? || h.HandlerError? || h.HandlerPanic? || h.NoStatus? ==> r == Failure(id)
    ensures h.NoRoute? ==>
              r == if passOptions && isOptions then Response([Summary(id, OK)], [], false)
                   else Response([Summary(id, FORBIDDEN)], [Problem(id, "method_and_path_not_found")], false)
    ensures h.Handled? && limit >= 0 ==> !r.failed && r.summary == [Summary(id, h.status)] && multiset(r.errors) <= multiset(h.problems)
    ensures h.Handled? && (limit == 0 || |h.problems| <= limit) ==> r.errors == h.problems
    ensures h.Handled? && 0 < limit < |h.problems| ==> |r.errors| == limit
    ensures h.Handled? && limit < 0 ==> r == Failure(id)
  {
    match h {
      case UnknownSchema =>
        return Failure(id);
      case NoRoute =>
        if passOptions && isOptions {
          return Response([Summary(id, OK)], [], false);
        }
        return Response([Summary(id, FORBIDDEN)], [Problem(id, "method_and_path_not_found")], false);
      case HandlerError =>
        return Failure(id);
      case HandlerPanic =>
        return Failure(id);
      case NoStatus =>
        return Failure(id);
      case Handled(status, problems) =>
        var limited := SampleSlice(problems, limit, order);
        if limited.None? {
          return Failure(id);
        }
        return Response([Summary(id, status)], limited.value, false);
    }
  }

  // ---------------------------------------------------------------- all ids

  /** A goroutine: not started, at work, holding its result, or done merging it. */
  datatype Phase = Idle | Working | Ready(r: Response) | Merged(r: Response)

  datatype State = State(spawned: nat, phases: seq<Phase>, resp: Response, returned: bool)

  datatype Event = Spawn | Respond(i: nat, r: Response) | Merge(i: nat) | Return

  ghost predicate Init(s: State, ids: seq<SchemaId>) {
    && s.spawned == 0 && |s.phases| == |ids| && (forall i :: 0 <= i < |ids| ==> s.phases[i] == Idle)
    && s.resp == Response([], [], false) && !s.returned
  }

  /** The loop starts goroutines in order; each obtains some response for its own id, and merges it
      in one step under the lock; the caller returns when all are done. */
  ghost predicate Step(s: State, e: Event, s': State, ids: seq<SchemaId>) {
    match e
    case Spawn =>
      s.spawned < |s.phases| && s.phases[s.spawned].Idle? &&
      s' == s.(spawned := s.spawned + 1, phases := s.phases[s.spawned := Working])
    case Respond(i, r) =>
      i < |s.phases| && i < |ids| && s.phases[i].Working? && Answers(r, ids[i]) && s' == s.(phases := s.phases[i := Ready(r)])
    case Merge(i) =>
      i < |s.phases| && s.phases[i].Ready? &&
      s' == s.(phases := s.phases[i := Merged(s.phases[i].r)], resp := Merge2(s.resp, s.phases[i].r))
    case Return =>
      s.spawned == |s.phases| && (forall i :: 0 <= i < |s.phases| ==> s.phases[i].Merged?) && s' == s.(returned := true)
  }

  function Merge2(a: Response, b: Response): Response {
    Response(a.summary + b.summary, a.errors + b.errors, a.failed || b.failed)
  }

  ghost predicate Run(states: seq<State>, ids: seq<SchemaId>) {
    && states != [] && Init(states[0], ids)
    && forall k :: 0 <= k < |states| - 1 ==> Next(states[k], states[k + 1], ids)
  }

  ghost predicate Next(s: State, s': State, ids: seq<SchemaId>) {
    exists e :: Step(s, e, s', ids)
  }

  function IdsOf(summary: seq<Summary>): (ids: seq<SchemaId>)
    ensures |ids| == |summary|
  {
    if summary == [] then [] else IdsOf(summary[..|summary| - 1]) + [summary[|summary| - 1].id]
  }

  lemma {:induction false} IdsOfConcat(a: seq<Summary>, b: seq<Summary>)
    ensures IdsOf(a + b) == IdsOf(a) + IdsOf(b)
    decreases |b|
  {
    if b == [] {
      assert a + b == a;
    } else {
      var last := |b| - 1;
      IdsOfConcat(a, b[..last]);
      assert (a + b)[..|a| + last] == a + b[..last];
      assert (a + b)[|a| + last] == b[last];
    }
  }

  /** What the merged goroutines brought in, added up. */
  ghost function Collect<T(!new)>(phases: seq<Phase>, f: Response -> multiset<T>): multiset<T> {
    if phases == [] then multiset{}
    else Collect(phases[..|phases| - 1], f) + if phases[|phases| - 1].Merged? then f(phases[|phases| - 1].r) else multiset{}
  }

  lemma {:induction false} CollectUpdate<T(!new)>(phases: seq<Phase>, f: Response -> multiset<T>, i: nat, p: Phase)
    requires i < |phases| && !phases[i].Merged?
    ensures Collect(phases[i := p], f) == Collect(phases, f) + if p.Merged? then f(p.r) else multiset{}
    decreases |phases|
  {
    var last := |phases| - 1;
    if i == last {
      assert phases[i := p][..last] == phases[..last];
    } else {
      assert phases[i := p][..last] == phases[..last][i := p];
      CollectUpdate(phases[..last], f, i, p);
    }
  }

  function SummariesIn(r: Response): multiset<Summary> { multiset(r.summary) }
  function ErrorsIn(r: Response): multiset<Problem> { multiset(r.errors) }
  function IdsIn(r: Response): multiset<SchemaId> { multiset(IdsOf(r.summary)) }

  predicate HasResult(p: Phase) { p.Ready? || p.Merged? }

  ghost predicate Inv(s: State, ids: seq<SchemaId>) {
    && |s.phases| == |ids|
    && (forall i :: 0 <= i < |ids| && HasResult(s.phases[i]) ==> Answers(s.phases[i].r, ids[i]))
    && multiset(s.resp.summary) == Collect(s.phases, SummariesIn)
    && multiset(s.resp.errors) == Collect(s.phases, ErrorsIn)
    && multiset(IdsOf(s.resp.summary)) == Collect(s.phases, IdsIn)
    && (s.resp.failed <==> exists i :: 0 <= i < |ids| && s.phases[i].Merged? && s.phases[i].r.failed)
    && (s.returned ==> forall i :: 0 <= i < |ids| ==> s.phases[i].Merged?)
  }

  lemma {:induction false} CollectNone<T(!new)>(phases: seq<Phase>, f: Response -> multiset<T>)
    requires forall i :: 0 <= i < |phases| ==> !phases[i].Merged?
    ensures Collect(phases, f) == multiset{}
    decreases |phases|
  {
    if phases != [] {
      CollectNone(phases[..|phases| - 1], f);
    }
  }

  lemma InitInv(s: State, ids: seq<SchemaId>)
    requires Init(s, ids)
    ensures Inv(s, ids)
  {
    CollectNone(s.phases, SummariesIn);
    CollectNone(s.phases, ErrorsIn);
    CollectNone(s.phases, IdsIn);
  }

  lemma PhaseKept(s: State, i: nat, p: Phase, ids: seq<SchemaId>)
    requires Inv(s, ids) && i < |ids| && !s.phases[i].Merged? && !p.Merged? && !s.returned && (p.Ready? ==> Answers(p.r, ids[i]))
    ensures Inv(s.(phases := s.phases[i := p]), ids)
  {
    hide Collect;
    CollectUpdate(s.phases, SummariesIn, i, p);
    CollectUpdate(s.phases, ErrorsIn, i, p);
    CollectUpdate(s.phases, IdsIn, i, p);
    var phases := s.phases[i := p];
    if k :| 0 <= k < |ids| && s.phases[k].Merged? && s.phases[k].r.failed {
      assert phases[k] == s.phases[k];
    }
  }

  lemma MergeKept(s: State, i: nat, ids: seq<SchemaId>)
    requires Inv(s, ids) && i < |ids| && s.phases[i].Ready?
    ensures Inv(s.(phases := s.phases[i := Merged(s.phases[i].r)], resp := Merge2(s.resp, s.phases[i].r)), ids)
  {
    hide Collect, IdsOf;
    var r := s.phases[i].r;
    var p := Merged(r);
    CollectUpdate(s.phases, SummariesIn, i, p);
    CollectUpdate(s.phases, ErrorsIn, i, p);
    CollectUpdate(s.phases, IdsIn, i, p);
    IdsOfConcat(s.resp.summary, r.summary);
    var phases := s.phases[i := p];
    if k :| 0 <= k < |ids| && s.phases[k].Merged? && s.phases[k].r.failed {
      assert phases[k] == s.phases[k];
    }
    if r.failed {
      assert phases[i].r.failed;
    }
  }

  lemma StepInv(s: State, e: Event, s': State, ids: seq<SchemaId>)
    requires Inv(s, ids) && Step(s, e, s', ids)
    ensures Inv(s', ids)
  {
    hide Collect;
    match e
    case Spawn => PhaseKept(s, s.spawned, Working, ids);
    case Respond(i, r) => PhaseKept(s, i, Ready(r), ids);
    case Merge(i) => MergeKept(s, i, ids);
    case Return =>
  }

  lemma {:induction false} RunInv(states: seq<State>, ids: seq<SchemaId>, k: nat)
    requires Run(states, ids) && k < |states|
    ensures Inv(states[k], ids)
    decreases k
  {
    hide Inv, Step;
    if k == 0 {
      InitInv(states[0], ids);
    } else {
      RunInv(states, ids, k - 1);
      assert Next(states[k - 1], states[k - 1 + 1], ids);
      var e :| Step(states[k - 1], e, states[k], ids);
      StepInv(states[k - 1], e, states[k], ids);
    }
  }

  /** When every goroutine has merged, the ids collected are the requested ones. */
  lemma {:induction false} CollectIds(phases: seq<Phase>, ids: seq<SchemaId>)
    requires |phases| == |ids| && forall i :: 0 <= i < |ids| ==> phases[i].Merged? && Answers(phases[i].r, ids[i])
    ensures Collect(phases, IdsIn) == multiset(ids)
    decreases |ids|
  {
    hide IdsOf;
    if ids != [] {
      var last := |ids| - 1;
      CollectIds(phases[..last], ids[..last]);
      assert ids == ids[..last] + [ids[last]];
      OneId(phases[last].r, ids[last]);
    }
  }

  lemma OneId(r: Response, id: SchemaId)
    requires Answers(r, id)
    ensures IdsIn(r) == multiset{id}
  {
    assert r.summary[..0] == [];
    assert IdsOf(r.summary) == [id];
  }

  /** Everything the goroutines found, added up. */
  ghost function Union<T(!new)>(phases: seq<Phase>, f: Response -> multiset<T>): multiset<T>
    requires forall i :: 0 <= i < |phases| ==> phases[i].Merged?
  {
    if phases == [] then multiset{} else Union(phases[..|phases| - 1], f) + f(phases[|phases| - 1].r)
  }

  lemma {:induction false} CollectAll<T(!new)>(phases: seq<Phase>, f: Response -> multiset<T>)
    requires forall i :: 0 <= i < |phases| ==> phases[i].Merged?
    ensures Collect(phases, f) == Union(phases, f)
    decreases |phases|
  {
    if phases != [] {
      CollectAll(phases[..|phases| - 1], f);
    }
  }

  /** Conservation, for every list of ids and every interleaving: when the call returns, the merged
      summary has exactly one entry for each occurrence of a requested id, summaries and errors are
      the union of what the single checks found, and an error is reported exactly if one of them
      reported one. */
  lemma FanOutConserves(states: seq<State>, ids: seq<SchemaId>, k: nat)
    requires Run(states, ids) && k < |states| && states[k].returned
    ensures var s := states[k];
            && |s.phases| == |ids| && (forall i :: 0 <= i < |ids| ==> s.phases[i].Merged? && Answers(s.phases[i].r, ids[i]))
            && multiset(IdsOf(s.resp.summary)) == multiset(ids)
            && multiset(s.resp.summary) == Union(s.phases, SummariesIn)
            && multiset(s.resp.errors) == Union(s.phases, ErrorsIn)
            && (s.resp.failed <==> exists i :: 0 <= i < |ids| && s.phases[i].r.failed)
  {
    hide Collect, Union, IdsOf;
    RunInv(states, ids, k);
    var s := states[k];
    assert forall i :: 0 <= i < |ids| ==> HasResult(s.phases[i]);
    CollectIds(s.phases, ids);
    CollectAll(s.phases, SummariesIn);
    CollectAll(s.phases, ErrorsIn);
  }
}
