/** The round-robin choice of a backend, and the load balancer run by one caller at a time
    (internal/platform/proxy/loadbalancer.go). */
module LoadBalancing {
  import opened Text
  import opened Numbers

  const WORD: nat := 0x1_0000_0000_0000_0000
  const HALF: nat := 0x8000_0000_0000_0000

  // ---------------------------------------------------------------- machine arithmetic

  /** A 64-bit pattern read as a signed `int`, as Go's conversion and its addition do. */
  function Signed(x: int): int {
    var w := x % WORD;
    if w < HALF then w else w - WORD
  }

  /** The ticket after this one; the counter wraps around at the end of its range. */
  function After(ticket: nat): (next: nat)
    requires ticket < WORD
    ensures next < WORD
  {
    if ticket + 1 < WORD then ticket + 1 else 0
  }

  /** Go's remainder, which takes the sign of the dividend. */
  function Remainder(a: int, n: nat): int
    requires n > 0
  {
    if a >= 0 then a % n else -((-a) % n)
  }

  /** The index looked at in round `i` for a ticket; None where it is out of range, which panics. */
  function Slot(start: nat, i: nat, n: nat): (k: Option<nat>)
    requires n > 0
    ensures k.Some? ==> k.value < n
  {
    var r := Remainder(Signed(Signed(start) + i), n);
    if r >= 0 then Some(r) else None
  }

  lemma SlotInRange(start: nat, i: nat, n: nat)
    requires n > 0 && start + i < HALF
    ensures Slot(start, i, n) == Some((start + i) % n)
  {}

  /** A round in the upper half of the range panics, except where its distance to the end of the
      range is a multiple of the number of backends. */
  lemma UpperHalfPanics(start: nat, i: nat, n: nat)
    requires n > 0 && start < WORD && HALF <= start + i < WORD
    ensures Slot(start, i, n).None? <==> (WORD - start - i) % n != 0
  {
    var a := WORD - start - i;
    assert Signed(Signed(start) + i) == -a;
    assert Slot(start, i, n).None? <==> Remainder(-a, n) < 0;
  }

  /** All rounds of a scan for this ticket stay in the range of indexes. */
  predicate SafeTicket(start: nat, n: nat) {
    start + n <= HALF || (n > 0 && start + n == HALF + 1 && HALF % n == 0)
  }

  lemma NeighboursNotMultiples(a: nat, n: nat)
    requires n > 1 && a > 0
    ensures a % n != 0 || (a - 1) % n != 0
  {
    if a % n == 0 {
      var q := a / n;
      assert (q - 1) * n == q * n - n;
      DivIs(a - 1, n, q - 1, n - 1);
    }
  }

  lemma UnsafeRound(start: nat, n: nat) returns (i: nat)
    requires 1 < n <= HALF && start < WORD && !SafeTicket(start, n)
    ensures i < n && Slot(start, i, n).None?
  {
    hide Slot;
    i := if start < HALF then HALF - start else 0;
    var a := WORD - start - i;
    UpperHalfPanics(start, i, n);
    if a % n == 0 {
      NeighboursNotMultiples(a, n);
      assert a > 1;
      i := i + 1;
      UpperHalfPanics(start, i, n);
    }
  }

  /** The indexes of a safe ticket are exact. */
  lemma SafeRound(start: nat, i: nat, n: nat)
    requires n > 0 && SafeTicket(start, n) && i < n
    ensures Slot(start, i, n) == Some((start + i) % n)
  {
    hide Slot;
    if start + i < HALF {
      SlotInRange(start, i, n);
    } else {
      FirstBeyond(start, i, n);
    }
  }

  lemma FirstBeyond(start: nat, i: nat, n: nat)
    requires n > 0 && start + i == HALF && HALF % n == 0 && start < WORD
    ensures Slot(start, i, n) == Some(0)
  {
    assert Signed(Signed(start) + i) == 0 - HALF;
  }

  // ---------------------------------------------------------------- the choice

  /** A position of the ring, for less than two rounds. */
  function Around(x: nat, n: nat): (r: nat)
    requires n > 0 && x < 2 * n
    ensures r < n
  {
    if x < n then x else x - n
  }

  lemma AroundIsMod(x: nat, n: nat)
    requires n > 0 && x < 2 * n
    ensures Around(x, n) == x % n
  {
    DivIs(x, n, if x < n then 0 else 1, Around(x, n));
  }

  /** Is the backend `k` positions after `s` healthy? */
  predicate UpAfter(h: seq<bool>, s: nat, k: nat)
    requires s < |h| && k < |h|
  {
    h[Around(s + k, |h|)]
  }

  /** Is the backend `k + 1` positions before `j` healthy? */
  predicate UpBefore(h: seq<bool>, j: nat, k: nat)
    requires j < |h| && k < |h|
  {
    h[Around(j + |h| - 1 - k, |h|)]
  }

  /** How far from `s` the first healthy backend is, looking from round `i` on; none where all are
      unhealthy. */
  function FirstHealthy(h: seq<bool>, s: nat, i: nat): (r: Option<nat>)
    requires s < |h| && i <= |h|
    ensures r.Some? ==> i <= r.value < |h| && UpAfter(h, s, r.value) && forall k :: i <= k < r.value ==> !UpAfter(h, s, k)
    ensures r.None? ==> forall k :: i <= k < |h| ==> !UpAfter(h, s, k)
    decreases |h| - i
  {
    if i == |h| then None
    else if UpAfter(h, s, i) then Some(i)
    else FirstHealthy(h, s, i + 1)
  }

  /** The backend chosen for a ticket: the first healthy one from its position on, or the one at
      its position if there is none. */
  function Chosen(h: seq<bool>, ticket: nat): (r: nat)
    requires h != []
    ensures r < |h|
  {
    var s := ticket % |h|;
    match FirstHealthy(h, s, 0)
    case Some(i) => Around(s + i, |h|)
    case None => s
  }

  lemma ModAdd(x: nat, i: nat, n: nat)
    requires n > 0 && i < n
    ensures (x + i) % n == Around(x % n + i, n)
  {
    var q, s := x / n, x % n;
    assert x == q * n + s;
    if s + i < n {
      DivIs(x + i, n, q, s + i);
    } else {
      assert (q + 1) * n == q * n + n;
      DivIs(x + i, n, q + 1, s + i - n);
    }
  }

  // ---------------------------------------------------------------- distribution

  /** How many of the `m` tickets after `t` choose backend `j`. */
  function Count(h: seq<bool>, t: nat, m: nat, j: nat): nat
    requires h != []
  {
    if m == 0 then 0 else Count(h, t, m - 1, j) + if Chosen(h, t + m) == j then 1 else 0
  }

  /** How many backends immediately before `j`, from the `d`-th on, are unhealthy. */
  function UnhealthyFrom(h: seq<bool>, j: nat, d: nat): (u: nat)
    requires j < |h| && d < |h|
    ensures d + u < |h|
    ensures forall k :: d <= k < d + u ==> !UpBefore(h, j, k)
    ensures d + u < |h| - 1 ==> UpBefore(h, j, d + u)
    decreases |h| - d
  {
    if d == |h| - 1 || UpBefore(h, j, d) then 0 else 1 + UnhealthyFrom(h, j, d + 1)
  }

  /** How many backends immediately before `j`, in cyclic order, are unhealthy. */
  function UnhealthyBefore(h: seq<bool>, j: nat): nat
    requires j < |h|
  {
    UnhealthyFrom(h, j, 0)
  }

  lemma ChosenPeriodic(h: seq<bool>, ticket: nat)
    requires h != []
    ensures Chosen(h, ticket + |h|) == Chosen(h, ticket)
  {
    var n := |h|;
    assert (ticket / n + 1) * n == ticket / n * n + n;
    DivIs(ticket + n, n, ticket / n + 1, ticket % n);
  }

  lemma {:induction false} CountFront(h: seq<bool>, t: nat, m: nat, j: nat)
    requires h != [] && m > 0
    ensures Count(h, t, m, j) == (if Chosen(h, t + 1) == j then 1 else 0) + Count(h, t + 1, m - 1, j)
    decreases m
  {
    hide Chosen;
    if m > 1 {
      CountFront(h, t, m - 1, j);
      assert t + m == t + 1 + (m - 1);
    }
  }

  /** Moving the window by one ticket drops and gains the same choice. */
  lemma CountShift(h: seq<bool>, t: nat, j: nat)
    requires h != []
    ensures Count(h, t + 1, |h|, j) == Count(h, t, |h|, j)
  {
    hide Chosen;
    CountFront(h, t, |h|, j);
    ChosenPeriodic(h, t + 1);
    assert t + 1 + |h| == (t + 1) + |h|;
  }

  lemma {:induction false} CountAnywhere(h: seq<bool>, t: nat, j: nat)
    requires h != []
    ensures Count(h, t, |h|, j) == Count(h, 0, |h|, j)
    decreases t
  {
    if t > 0 {
      CountAnywhere(h, t - 1, j);
      CountShift(h, t - 1, j);
    }
  }

  /** Seen from the ticket `d` positions before `j`, the choice is `j` exactly when everything in
      between is unhealthy. */
  lemma ChosenNear(h: seq<bool>, j: nat, d: nat)
    requires j < |h| && d < |h| && h[j]
    ensures Chosen(h, j + |h| - d) == j <==> d <= UnhealthyBefore(h, j)
  {
    var n := |h|;
    var u := UnhealthyBefore(h, j);
    var s := Around(j + n - d, n);
    AroundIsMod(j + n - d, n);
    forall i | 0 <= i < d ensures UpAfter(h, s, i) == UpBefore(h, j, d - i - 1) {}
    if d <= u {
      assert forall i :: 0 <= i < d ==> !UpAfter(h, s, i);
      assert UpAfter(h, s, d);
      assert FirstHealthy(h, s, 0) == Some(d);
    } else {
      assert UpBefore(h, j, u);
      assert UpAfter(h, s, d - 1 - u);
      assert FirstHealthy(h, s, 0).Some? && FirstHealthy(h, s, 0).value < d;
    }
  }

  /** Among the last `m` tickets before position `j` comes round, those within reach choose it. */
  lemma {:induction false} CountNear(h: seq<bool>, j: nat, m: nat)
    requires j < |h| && h[j] && m <= |h|
    ensures Count(h, j, m, j) == if m + UnhealthyBefore(h, j) < |h| then 0 else m + UnhealthyBefore(h, j) + 1 - |h|
    decreases m
  {
    hide Chosen, UnhealthyBefore;
    UnhealthyBound(h, j);
    if m > 0 {
      CountNear(h, j, m - 1);
      ChosenNear(h, j, |h| - m);
      assert j + |h| - (|h| - m) == j + m;
    }
  }

  lemma UnhealthyBound(h: seq<bool>, j: nat)
    requires j < |h|
    ensures UnhealthyBefore(h, j) < |h|
  {}

  lemma HealthyTurns(h: seq<bool>, t: nat, j: nat)
    requires j < |h| && h[j]
    ensures Count(h, t, |h|, j) == 1 + UnhealthyBefore(h, j)
  {
    hide Count, UnhealthyBefore;
    CountAnywhere(h, t, j);
    CountAnywhere(h, j, j);
    CountNear(h, j, |h|);
  }

  lemma {:induction false} UnhealthyTurns(h: seq<bool>, t: nat, m: nat, j: nat, k: nat)
    requires j < |h| && !h[j] && k < |h| && h[k]
    ensures Count(h, t, m, j) == 0
    decreases m
  {
    if m > 0 {
      UnhealthyTurns(h, t, m - 1, j, k);
      SomeoneUp(h, (t + m) % |h|, k);
    }
  }

  lemma SomeoneUp(h: seq<bool>, s: nat, k: nat)
    requires s < |h| && k < |h| && h[k]
    ensures FirstHealthy(h, s, 0).Some?
  {
    assert UpAfter(h, s, if k >= s then k - s else k + |h| - s);
  }

  predicate AllDown(h: seq<bool>) {
    forall k :: 0 <= k < |h| ==> !h[k]
  }

  lemma FallbackTurns(h: seq<bool>, t: nat, j: nat)
    requires j < |h| && AllDown(h)
    ensures Count(h, t, |h|, j) == 1
  {
    hide Count;
    CountAnywhere(h, t, j);
    CountAnywhere(h, j, j);
    FallbackNear(h, j, |h|);
  }

  lemma {:induction false} FallbackNear(h: seq<bool>, j: nat, m: nat)
    requires j < |h| && m <= |h| && AllDown(h)
    ensures Count(h, j, m, j) == if m == |h| then 1 else 0
    decreases m
  {
    if m > 0 {
      FallbackNear(h, j, m - 1);
      AroundIsMod(j + m, |h|);
      NoneUp(h, Around(j + m, |h|));
    }
  }

  lemma NoneUp(h: seq<bool>, s: nat)
    requires s < |h| && AllDown(h)
    ensures FirstHealthy(h, s, 0).None?
  {}

  // ---------------------------------------------------------------- the load balancer

  /** The scan of `Next` from round `i` on: the first flag that is up, else the ticket's own position;
      None where an index is out of range, which panics. */
  function Selected(h: seq<bool>, start: nat, i: nat): (k: Option<nat>)
    requires h != [] && i <= |h|
    ensures k.Some? ==> k.value < |h|
    decreases |h| - i
  {
    if i == |h| then Slot(start, 0, |h|)
    else match Slot(start, i, |h|)
      case None => None
      case Some(k) => if h[k] then Some(k) else Selected(h, start, i + 1)
  }

  lemma {:induction false} UnsafeSelected(h: seq<bool>, start: nat, i: nat, r: nat)
    requires AllDown(h) && i <= r < |h| && Slot(start, r, |h|).None?
    ensures Selected(h, start, i).None?
    decreases |h| - i
  {
    hide Slot;
    if i < r {
      UnsafeSelected(h, start, i + 1, r);
    }
  }

  /** The index of round `r` is out of range: the signed sum is negative and not divisible by n. */
  predicate OutOfRange(start: nat, r: nat, n: nat)
    requires n > 0
  {
    HALF <= start + r < WORD && (WORD - start - r) % n != 0
  }

  lemma OutOfRangeIff(start: nat, r: nat, n: nat)
    requires start < WORD && r < n <= HALF
    ensures Slot(start, r, n).None? <==> OutOfRange(start, r, n)
  {
    if start + r < HALF {
      SlotInRange(start, r, n);
    } else if start + r < WORD {
      UpperHalfPanics(start, r, n);
    } else {
      assert Signed(Signed(start) + r) == start + r - WORD;
    }
  }

  /** The flag that round `r` looks at is there and down. */
  predicate SeesDown(h: seq<bool>, start: nat, r: nat)
    requires h != []
  {
    var k := Slot(start, r, |h|);
    k.Some? && !h[k.value]
  }

  lemma {:induction false} SelectedFromRound(h: seq<bool>, start: nat, i: nat)
    requires h != [] && i <= |h| && (i > 0 ==> Slot(start, 0, |h|).Some?)
    ensures Selected(h, start, i).None? <==>
            exists r :: i <= r < |h| && Slot(start, r, |h|).None? && forall q :: i <= q < r ==> SeesDown(h, start, q)
    decreases |h| - i
  {
    hide Slot;
    if i < |h| {
      if Slot(start, i, |h|).None? {
        assert Selected(h, start, i).None?;
      } else {
        SelectedFromRound(h, start, i + 1);
        assert SeesDown(h, start, i) || Selected(h, start, i).Some?;
      }
    }
  }

  /** Which index a round looks at, for every ticket: counted modulo n in the lower half of the range and
      again from zero behind its end; in the upper half only multiples of n are in range. */
  lemma SlotIs(start: nat, r: nat, n: nat)
    requires start < WORD && r < n <= HALF
    ensures Slot(start, r, n) ==
            if start + r < HALF then Some((start + r) % n)
            else if start + r >= WORD then Some((start + r - WORD) % n)
            else if (WORD - start - r) % n == 0 then Some(0) else None
  {
    hide Slot;
    if start + r < HALF {
      SlotInRange(start, r, n);
    } else if start + r < WORD {
      SlotInUpperHalf(start, r, n);
    } else {
      SlotWrapped(start, r, n);
    }
  }

  lemma SignedSum(start: nat, r: nat)
    requires start < WORD && HALF <= start + r < WORD + HALF
    ensures Signed(Signed(start) + r) == start + r - WORD
  {}

  lemma SlotFrom(start: nat, r: nat, n: nat, x: int)
    requires n > 0 && Signed(Signed(start) + r) == x
    ensures Slot(start, r, n) == if Remainder(x, n) >= 0 then Some(Remainder(x, n) as nat) else None
  {
    hide Signed, Remainder;
  }

  lemma SlotInUpperHalf(start: nat, r: nat, n: nat)
    requires start < WORD && n > 0 && HALF <= start + r < WORD
    ensures Slot(start, r, n) == if (WORD - start - r) % n == 0 then Some(0) else None
  {
    hide Slot, Signed;
    SignedSum(start, r);
    SlotFrom(start, r, n, start + r - WORD);
    assert -(start + r - WORD) == WORD - start - r;
  }

  lemma SlotWrapped(start: nat, r: nat, n: nat)
    requires start < WORD <= start + r && r < n <= HALF
    ensures Slot(start, r, n) == Some((start + r - WORD) % n)
  {
    hide Slot, Signed;
    SignedSum(start, r);
    SlotFrom(start, r, n, start + r - WORD);
  }

  /** A round from `i` on sees this flag up, and all rounds before it saw one down. */
  ghost predicate FirstUp(h: seq<bool>, start: nat, i: nat, k: nat)
    requires h != []
  {
    exists r :: i <= r < |h| && Slot(start, r, |h|) == Some(k) && h[k] && forall q :: i <= q < r ==> SeesDown(h, start, q)
  }

  ghost predicate SeesAllDown(h: seq<bool>, start: nat, i: nat)
    requires h != []
  {
    forall q :: i <= q < |h| ==> SeesDown(h, start, q)
  }

  lemma FirstUpStep(h: seq<bool>, start: nat, i: nat, k: nat)
    requires i < |h|
    ensures FirstUp(h, start, i, k) <==>
            (Slot(start, i, |h|) == Some(k) && h[k]) || (SeesDown(h, start, i) && FirstUp(h, start, i + 1, k))
    ensures SeesAllDown(h, start, i) <==> SeesDown(h, start, i) && SeesAllDown(h, start, i + 1)
  {
    hide Slot;
    if r :| i < r < |h| && Slot(start, r, |h|) == Some(k) && h[k] && forall q :: i <= q < r ==> SeesDown(h, start, q) {
      assert SeesDown(h, start, i);
    }
  }

  lemma {:induction false} SelectedIffFrom(h: seq<bool>, start: nat, i: nat, k: nat)
    requires h != [] && i <= |h|
    ensures Selected(h, start, i) == Some(k) <==>
            FirstUp(h, start, i, k) || (SeesAllDown(h, start, i) && Slot(start, 0, |h|) == Some(k))
    decreases |h| - i
  {
    hide Slot, FirstUp, SeesAllDown;
    if i < |h| {
      FirstUpStep(h, start, i, k);
      SelectedIffFrom(h, start, i + 1, k);
    } else {
      NoRounds(h, start, k);
    }
  }

  lemma NoRounds(h: seq<bool>, start: nat, k: nat)
    requires h != []
    ensures !FirstUp(h, start, |h|, k) && SeesAllDown(h, start, |h|)
  {}

  /** What the scan selects for every ticket and all flags, in range or not: the backend of the first round
      that sees a flag up, or that of the first round if all rounds saw one down. */
  lemma SelectedIff(h: seq<bool>, start: nat, k: nat)
    requires h != []
    ensures Selected(h, start, 0) == Some(k) <==>
            FirstUp(h, start, 0, k) || (SeesAllDown(h, start, 0) && Slot(start, 0, |h|) == Some(k))
  {
    SelectedIffFrom(h, start, 0, k);
  }

  /** For given flags the scan panics exactly when the index of some round is out of range and all
      rounds before it have seen a flag down. */
  lemma FlagsPanicIff(h: seq<bool>, start: nat)
    requires 0 < |h| <= HALF && start < WORD
    ensures Selected(h, start, 0).None? <==>
            exists r :: 0 <= r < |h| && OutOfRange(start, r, |h|) && forall q :: 0 <= q < r ==> SeesDown(h, start, q)
  {
    hide Selected, Slot, OutOfRange;
    SelectedFromRound(h, start, 0);
    forall r | 0 <= r < |h| ensures Slot(start, r, |h|).None? <==> OutOfRange(start, r, |h|) {
      OutOfRangeIff(start, r, |h|);
    }
  }

  /** With every flag down the scan panics exactly for an unsafe ticket. */
  lemma DownPanicsIff(h: seq<bool>, start: nat)
    requires 1 < |h| <= HALF && start < WORD && AllDown(h)
    ensures Selected(h, start, 0).None? <==> !SafeTicket(start, |h|)
  {
    hide Selected, SafeTicket, Slot;
    if SafeTicket(start, |h|) {
      SelectedIsChosen(h, start);
    } else {
      var r := UnsafeRound(start, |h|);
      UnsafeSelected(h, start, 0, r);
    }
  }

  /** When a ticket cannot panic: whatever the flags are, exactly as long as ticket plus n stays
      within 2^63, or goes one beyond it where n divides 2^63. */
  lemma NeverPanicsIff(start: nat, n: nat)
    requires 1 < n <= HALF && start < WORD
    ensures (forall h: seq<bool> :: |h| == n ==> Selected(h, start, 0).Some?) <==> SafeTicket(start, n)
  {
    hide Selected, SafeTicket;
    if SafeTicket(start, n) {
      forall h: seq<bool> | |h| == n ensures Selected(h, start, 0).Some? {
        SelectedIsChosen(h, start);
      }
    } else {
      var down := seq(n, _ => false);
      DownPanicsIff(down, start);
    }
  }

  function HealthyCount(h: seq<bool>): nat {
    if h == [] then 0 else HealthyCount(h[..|h| - 1]) + if h[|h| - 1] then 1 else 0
  }

  /** The backends that are up. */
  function UpSet(h: seq<bool>): set<nat> {
    set i | 0 <= i < |h| && h[i]
  }

  lemma {:induction false} HealthyCountIs(h: seq<bool>)
    ensures HealthyCount(h) == |UpSet(h)|
    decreases |h|
  {
    if h == [] {
      assert UpSet(h) == {};
    } else {
      var last := |h| - 1;
      HealthyCountIs(h[..last]);
      assert UpSet(h) == UpSet(h[..last]) + if h[last] then {last} else {};
    }
  }

  class LoadBalancer {
    const backends: seq<string>
    const healthy: array<bool>
    var current: nat
    var stopped: bool
    /** How often the stop channel has been closed; closing it twice would panic. */
    var closes: nat

    ghost predicate Valid()
      reads this
    {
      healthy.Length == |backends| && current < WORD && closes == if stopped then 1 else 0
    }

    constructor (backends: seq<string>)
      ensures Valid() && this.backends == backends && current == 0 && !stopped
      ensures forall i :: 0 <= i < healthy.Length ==> healthy[i]
    {
      this.backends := backends;
      var flags := new bool[|backends|](_ => true);
      healthy := flags;
      current, stopped, closes := 0, false, 0;
    }

    /** The next backend; None where the index computation leaves the range and panics. */
    method Next() returns (r: Option<string>)
      requires Valid()
      modifies this`current
      ensures Valid()
      ensures |backends| == 0 ==> r == Some("") && current == old(current)
      ensures |backends| == 1 ==> r == Some(backends[0]) && current == old(current)
      ensures |backends| >= 2 ==> current == After(old(current))
      ensures |backends| >= 2 ==> r == match Selected(healthy[..], current, 0) case None => None case Some(k) => Some(backends[k])
      ensures 2 <= |backends| <= HALF && SafeTicket(current, |backends|) ==> r.Some?
      ensures 2 <= |backends| <= HALF && AllDown(healthy[..]) ==> (r.Some? <==> SafeTicket(current, |backends|))
    {
      hide Slot, Selected, SafeTicket, AllDown;
      var n := |backends|;
      if n == 0 {
        return Some("");
      }
      if n == 1 {
        return Some(backends[0]);
      }
      current := After(current);
      var start := current;
      ghost var h := healthy[..];
      NextPanics(h, start);
      for i := 0 to n
        invariant Valid() && current == start && Selected(h, start, 0) == Selected(h, start, i)
      {
        var idx := Slot(start, i, n);
        SelectOnce(h, start, i);
        if idx.None? {
          return None;
        }
        if healthy[idx.value] {
          return Some(backends[idx.value]);
        }
      }
      var last := Slot(start, 0, n);
      SelectLast(h, start);
      if last.None? {
        return None;
      }
      return Some(backends[last.value]);
    }

    method GetHealthyCount() returns (count: nat)
      requires Valid()
      ensures count == HealthyCount(healthy[..]) == |UpSet(healthy[..])|
    {
      HealthyCountIs(healthy[..]);
      count := 0;
      for i := 0 to healthy.Length
        invariant count == HealthyCount(healthy[..i])
      {
        assert healthy[..i + 1][..i] == healthy[..i];
        if healthy[i] {
          count := count + 1;
        }
      }
      assert healthy[..healthy.Length] == healthy[..];
    }

    /** Sets one flag; an index out of range is ignored. */
    method SetHealthy(idx: int, up: bool)
      requires Valid()
      modifies healthy
      ensures healthy[..] == if 0 <= idx < healthy.Length then old(healthy[..])[idx := up] else old(healthy[..])
    {
      if idx >= 0 && idx < healthy.Length {
        healthy[idx] := up;
      }
    }

    /** Probes every backend and records the outcome. */
    method CheckAll(probe: string -> bool)
      requires Valid()
      modifies healthy
      ensures forall i :: 0 <= i < healthy.Length ==> healthy[i] == probe(backends[i])
    {
      for i := 0 to |backends|
        invariant forall k :: 0 <= k < i ==> healthy[k] == probe(backends[k])
      {
        healthy[i] := probe(backends[i]);
      }
    }

    /** However often it is called, the channel is closed once. */
    method Stop()
      requires Valid()
      modifies this`stopped, this`closes
      ensures Valid() && stopped && closes == 1
    {
      var was := stopped;
      stopped := true;
      if was {
        return;
      }
      closes := closes + 1;
    }
  }

  lemma NextPanics(h: seq<bool>, start: nat)
    requires start < WORD
    ensures 2 <= |h| <= HALF && SafeTicket(start, |h|) ==> Selected(h, start, 0).Some?
    ensures 2 <= |h| <= HALF && AllDown(h) ==> (Selected(h, start, 0).Some? <==> SafeTicket(start, |h|))
  {
    hide Selected, SafeTicket, AllDown;
    if 2 <= |h| <= HALF {
      if SafeTicket(start, |h|) {
        SelectedIsChosen(h, start);
      }
      if AllDown(h) {
        DownPanicsIff(h, start);
      }
    }
  }

  lemma SlotAround(start: nat, i: nat, n: nat)
    requires n > 0 && i < n && SafeTicket(start, n)
    ensures Slot(start, i, n) == Some(Around(start % n + i, n))
  {
    SafeRound(start, i, n);
    ModAdd(start, i, n);
  }

  lemma SelectOnce(h: seq<bool>, start: nat, i: nat)
    requires i < |h|
    ensures Slot(start, i, |h|).Some? ==> Slot(start, i, |h|).value < |h|
    ensures Selected(h, start, i) ==
            match Slot(start, i, |h|)
            case None => None
            case Some(k) => if k < |h| && h[k] then Some(k) else Selected(h, start, i + 1)
  {
    hide Slot;
  }

  lemma SelectLast(h: seq<bool>, start: nat)
    requires h != []
    ensures Selected(h, start, |h|) == Slot(start, 0, |h|) && (Slot(start, 0, |h|).Some? ==> Slot(start, 0, |h|).value < |h|)
  {
    hide Slot;
  }

  /** For a safe ticket, such as any with ticket plus n within 2^63, the scan chooses the first healthy backend from the
      ticket's position on, or the one at that position. */
  lemma SelectedIsChosen(h: seq<bool>, ticket: nat)
    requires h != [] && SafeTicket(ticket, |h|)
    ensures Selected(h, ticket, 0) == Some(Chosen(h, ticket))
  {
    hide Slot, Selected;
    SelectedFrom(h, ticket, 0);
  }

  lemma {:induction false} SelectedFrom(h: seq<bool>, ticket: nat, i: nat)
    requires h != [] && SafeTicket(ticket, |h|) && i <= |h|
    ensures Selected(h, ticket, i) == match FirstHealthy(h, ticket % |h|, i)
                                      case Some(k) => Some(Around(ticket % |h| + k, |h|))
                                      case None => Some(ticket % |h|)
    decreases |h| - i
  {
    hide Slot, Selected;
    if i == |h| {
      SelectLast(h, ticket);
      SlotAround(ticket, 0, |h|);
    } else {
      SelectOnce(h, ticket, i);
      SlotAround(ticket, i, |h|);
      SelectedFrom(h, ticket, i + 1);
    }
  }

  // ---------------------------------------------------------------- shares

  /** How many of the `m` tickets after `t` the scan gives to backend `j`. */
  function Served(h: seq<bool>, t: nat, m: nat, j: nat): nat
    requires h != []
  {
    if m == 0 then 0 else Served(h, t, m - 1, j) + if Selected(h, t + m, 0) == Some(j) then 1 else 0
  }

  lemma SafeBefore(t: nat, u: nat, n: nat)
    requires t <= u && SafeTicket(u, n)
    ensures SafeTicket(t, n)
  {}

  lemma {:induction false} ServedIsCount(h: seq<bool>, t: nat, m: nat, j: nat)
    requires h != [] && SafeTicket(t + m, |h|)
    ensures Served(h, t, m, j) == Count(h, t, m, j)
    decreases m
  {
    hide SafeTicket, Selected, Chosen;
    if m > 0 {
      SafeBefore(t + m - 1, t + m, |h|);
      ServedIsCount(h, t, m - 1, j);
      SelectedIsChosen(h, t + m);
    }
  }

  /** Distribution: with the health flags fixed, over any `n` consecutive safe tickets a healthy
      backend is selected once, and once more for every unhealthy backend immediately before it. */
  lemma HealthyShare(h: seq<bool>, t: nat, j: nat)
    requires j < |h| && h[j] && SafeTicket(t + |h|, |h|)
    ensures Served(h, t, |h|, j) == 1 + UnhealthyBefore(h, j)
  {
    hide SafeTicket, Served, Count, UnhealthyBefore;
    ServedIsCount(h, t, |h|, j);
    HealthyTurns(h, t, j);
  }

  /** So an unhealthy backend is never selected as long as any is healthy. */
  lemma UnhealthyShare(h: seq<bool>, t: nat, m: nat, j: nat, k: nat)
    requires j < |h| && !h[j] && k < |h| && h[k] && SafeTicket(t + m, |h|)
    ensures Served(h, t, m, j) == 0
  {
    hide SafeTicket, Served, Count;
    ServedIsCount(h, t, m, j);
    UnhealthyTurns(h, t, m, j, k);
  }

  /** When all are unhealthy every backend still gets its turn. */
  lemma FallbackShare(h: seq<bool>, t: nat, j: nat)
    requires j < |h| && AllDown(h) && SafeTicket(t + |h|, |h|)
    ensures Served(h, t, |h|, j) == 1
  {
    hide SafeTicket, Served, Count, AllDown;
    ServedIsCount(h, t, |h|, j);
    FallbackTurns(h, t, j);
  }

  /** With every backend healthy the shares are equal. */
  lemma EqualShares(h: seq<bool>, t: nat, j: nat)
    requires j < |h| && (forall k :: 0 <= k < |h| ==> h[k]) && SafeTicket(t + |h|, |h|)
    ensures Served(h, t, |h|, j) == 1
  {
    hide SafeTicket, Served;
    HealthyShare(h, t, j);
  }
}
