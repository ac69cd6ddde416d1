/** Subnets of the allow list written out as single addresses
    (internal/platform/allowiplist/allowiplist.go; section 3.1 of RFC 4632). */
module IpRanges {
  import opened Text
  import opened Numbers

  /** A prefix: an address of `width` bits (32 or 128), of which the first `bits` count. */
  datatype Prefix = Prefix(width: nat, value: nat, bits: nat)

  predicate ValidPrefix(p: Prefix) {
    p.bits <= p.width && p.value < Pow2(p.width)
  }

  /** How many addresses share the prefix. */
  function Size(p: Prefix): (n: nat)
    requires p.bits <= p.width
    ensures n > 0
  {
    Pow2(p.width - p.bits)
  }

  function Floor(x: nat, n: nat): (r: nat)
    requires n > 0
    ensures r <= x
  {
    x - x % n
  }

  /** `Masked`: the bits behind the prefix are cleared. */
  function Masked(p: Prefix): Prefix
    requires ValidPrefix(p)
  {
    p.(value := Floor(p.value, Size(p)))
  }

  /** `Contains`: the address agrees with the prefix in the bits that count. */
  predicate Contains(p: Prefix, addr: nat)
    requires ValidPrefix(p)
  {
    addr < Pow2(p.width) && addr / Size(p) == p.value / Size(p)
  }

  /** `Next`: None behind the last address. */
  function Next(width: nat, addr: nat): Option<nat> {
    if addr + 1 < Pow2(width) then Some(addr + 1) else None
  }

  // ---------------------------------------------------------------- arithmetic of blocks

  /** The block of a prefix: its addresses are the `Size` many from the masked one on, and they lie
      within the address space. */
  lemma BlockIs(p: Prefix, addr: nat)
    requires ValidPrefix(p)
    ensures ValidPrefix(Masked(p)) && Masked(p).width == p.width && Masked(p).value <= p.value && Masked(p).value + Size(p) <= Pow2(p.width)
    ensures Contains(Masked(p), addr) <==> Masked(p).value <= addr < Masked(p).value + Size(p)
    ensures Contains(Masked(p), addr) <==> Contains(p, addr)
  {
    hide Pow2, Size, Floor;
    var n := Size(p);
    SameSize(p);
    SpaceDivides(p);
    FloorIs(p.value, n);
    FloorFits(p.value, n, Pow2(p.bits));
    SameQuotient(p.value, n, addr);
  }

  lemma FloorIs(x: nat, n: nat)
    requires n > 0
    ensures Floor(x, n) == (x / n) * n && Floor(x, n) / n == x / n
  {
    DivIs(Floor(x, n), n, x / n, 0);
  }

  lemma FloorFits(x: nat, n: nat, m: nat)
    requires n > 0 && x < m * n
    ensures Floor(x, n) + n <= m * n
  {
    var q := x / n;
    Below(q, n, m, x % n);
    Scale(q + 1, m, n);
    assert (q + 1) * n == q * n + n;
  }

  /** The numbers with the same quotient are those of one block. */
  lemma SameQuotient(x: nat, n: nat, y: nat)
    requires n > 0
    ensures y / n == x / n <==> Floor(x, n) <= y < Floor(x, n) + n
  {
    hide Floor;
    FloorIs(x, n);
    var q := x / n;
    if Floor(x, n) <= y < Floor(x, n) + n {
      DivIs(y, n, q, y - Floor(x, n));
    }
    assert y == (y / n) * n + y % n;
  }

  lemma SameSize(p: Prefix)
    requires ValidPrefix(p)
    ensures Size(Masked(p)) == Size(p)
  {}

  lemma SpaceDivides(p: Prefix)
    requires ValidPrefix(p)
    ensures Pow2(p.width) == Pow2(p.bits) * Size(p)
  {
    Pow2Sum(p.bits, p.width - p.bits);
  }

  lemma Below(q: nat, n: nat, m: nat, r: nat)
    requires n > 0 && q * n + r < m * n
    ensures q < m
  {
    if q >= m {
      Scale(m, q, n);
    }
  }

  lemma Scale(a: nat, b: nat, n: nat)
    requires a <= b
    ensures a * n <= b * n
  {}

  // ---------------------------------------------------------------- expansion

  /** Successive addresses, as text. */
  function Listed(show: nat -> string, from: nat, count: nat): (l: seq<string>)
    ensures |l| == count && forall i :: 0 <= i < count ==> l[i] == show(from + i)
  {
    seq(count, i requires 0 <= i < count => show(from + i))
  }

  /** The addresses that are listed for a prefix: all of the block, without the first and the last
      where there are more than two. */
  function FirstListed(p: Prefix): nat
    requires ValidPrefix(p)
  {
    if Size(p) <= 2 then Masked(p).value else Masked(p).value + 1
  }

  function CountListed(p: Prefix): nat
    requires ValidPrefix(p)
  {
    if Size(p) <= 2 then Size(p) else Size(p) - 2
  }

  /** Distinct addresses are written differently. */
  ghost predicate WritesApart(show: nat -> string) {
    forall a, b :: show(a) == show(b) ==> a == b
  }

  /** So no text is listed twice. */
  lemma NoRepeats(p: Prefix, show: nat -> string, i: nat, j: nat)
    requires ValidPrefix(p) && WritesApart(show)
    requires i < CountListed(p) && j < CountListed(p) && i != j
    ensures Listed(show, FirstListed(p), CountListed(p))[i] != Listed(show, FirstListed(p), CountListed(p))[j]
  {
    var from := FirstListed(p);
    assert from + i != from + j;
  }

  lemma AllDifferent(p: Prefix, show: nat -> string)
    requires ValidPrefix(p)
    ensures var l := Listed(show, FirstListed(p), CountListed(p));
            WritesApart(show) ==> forall i, j :: 0 <= i < j < |l| ==> l[i] != l[j]
  {
    hide FirstListed, CountListed, WritesApart;
    var l := Listed(show, FirstListed(p), CountListed(p));
    if WritesApart(show) {
      forall i, j | 0 <= i < j < |l| ensures l[i] != l[j] {
        NoRepeats(p, show, i, j);
      }
    }
  }

  /** `getIPsFromCIDR`, on a prefix that was parsed or could not be. */
  method GetIPsFromCIDR(prefix: Option<Prefix>, show: nat -> string) returns (r: Option<seq<string>>)
    requires prefix.Some? ==> ValidPrefix(prefix.value)
    ensures r.None? <==> prefix.None?
    ensures r.Some? ==> r.value == Listed(show, FirstListed(prefix.value), CountListed(prefix.value))
    ensures r.Some? && WritesApart(show) ==> forall i, j :: 0 <= i < j < |r.value| ==> r.value[i] != r.value[j]
  {
    if prefix.None? {
      return None;
    }
    AllDifferent(prefix.value, show);
    hide Pow2, Contains, Size, Masked, Floor, WritesApart;
    var p := Masked(prefix.value);
    ghost var base, size := p.value, Size(prefix.value);
    BlockIs(prefix.value, base);
    var ips: seq<string> := [];
    var addr := Some(p.value);
    while addr.Some? && Contains(p, addr.value)
      invariant |ips| <= size && (addr.Some? ==> addr.value == base + |ips|)
      invariant ips == Listed(show, base, |ips|)
      invariant addr.None? ==> |ips| == size
      decreases size - |ips|
    {
      BlockIs(prefix.value, addr.value);
      ips := ips + [show(addr.value)];
      addr := Next(p.width, addr.value);
    }
    if addr.Some? {
      BlockIs(prefix.value, addr.value);
    }
    assert |ips| == size;
    if |ips| <= 2 {
      return Some(ips);
    }
    assert ips[1..|ips| - 1] == Listed(show, base + 1, size - 2);
    return Some(ips[1..|ips| - 1]);
  }

  /** Exactly the addresses of the prefix are listed, minus first and last where there are more than
      two, in ascending order and so without repeats. */
  lemma ListedExactly(p: Prefix, addr: nat)
    requires ValidPrefix(p)
    ensures FirstListed(p) <= addr < FirstListed(p) + CountListed(p) <==>
            Contains(p, addr) && (Size(p) > 2 ==> addr != Masked(p).value && addr != Masked(p).value + Size(p) - 1)
    ensures FirstListed(p) + CountListed(p) <= Pow2(p.width)
  {
    hide Pow2, Contains;
    BlockIs(p, addr);
  }
}
