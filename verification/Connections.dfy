/** The cap on open connections: a global one and one per address. */
module Connections {
  import opened Nostr

  type Address = string

  datatype Limits = Limits(maxTotal: Option<nat>, maxPerIp: nat)

  datatype Counts = Counts(total: nat, perIp: map<Address, nat>)

  datatype Reason = GlobalLimit | PerIpLimit

  const NONE := Counts(0, map[])

  // ----- Acquiring and dropping ------------------------------------------------------

  /** A permit, or why not; the global limit is looked at first. */
  function Refusal(c: Counts, ip: Address, limits: Limits): Option<Reason> {
    if limits.maxTotal.Some? && c.total >= limits.maxTotal.value then Some(GlobalLimit)
    else if (if ip in c.perIp then c.perIp[ip] else 0) >= limits.maxPerIp then Some(PerIpLimit)
    else None
  }

  function Acquire(c: Counts, ip: Address): Counts {
    Counts(c.total + 1, c.perIp[ip := if ip in c.perIp then c.perIp[ip] + 1 else 1])
  }

  function Minus1(n: nat): nat {
    if n >= 1 then n - 1 else 0
  }

  /** `total` saturates; an address whose count reaches zero goes. */
  function Drop(c: Counts, ip: Address): Counts {
    Counts(Minus1(c.total),
           if ip !in c.perIp then c.perIp
           else if c.perIp[ip] <= 1 then c.perIp - {ip}
           else c.perIp[ip := c.perIp[ip] - 1])
  }

  /** The counts are those of the live permits, given by their addresses. */
  ghost predicate Accounts(c: Counts, permits: multiset<Address>, limits: Limits) {
    && c.total == |permits|
    && (limits.maxTotal.Some? ==> c.total <= limits.maxTotal.value)
    && (forall ip :: ip in c.perIp <==> ip in permits)
    && (forall ip :: ip in c.perIp ==> 1 <= c.perIp[ip] <= limits.maxPerIp && c.perIp[ip] == permits[ip])
  }

  class ConnectionLimiter {
    const limits: Limits
    var total: nat
    var perIp: map<Address, nat>
    ghost var permits: multiset<Address>

    ghost predicate Valid()
      reads this
    {
      Accounts(Counts(total, perIp), permits, limits)
    }

    constructor (limits: Limits)
      ensures Valid() && permits == multiset{} && this.limits == limits
    {
      this.limits := limits;
      total, perIp, permits := 0, map[], multiset{};
    }

    method TryAcquire(ip: Address) returns (refused: Option<Reason>)
      requires Valid()
      modifies this
      ensures Valid() && refused == Refusal(old(Counts(total, perIp)), ip, limits)
      ensures refused == Some(GlobalLimit) <==> limits.maxTotal.Some? && |old(permits)| >= limits.maxTotal.value
      ensures refused == Some(PerIpLimit) <==>
        old(permits)[ip] >= limits.maxPerIp && (limits.maxTotal.Some? ==> |old(permits)| < limits.maxTotal.value)
      ensures refused.Some? ==> permits == old(permits) && Counts(total, perIp) == old(Counts(total, perIp))
      ensures refused.None? ==> permits == old(permits) + multiset{ip}
      ensures refused.None? ==> Counts(total, perIp) == Acquire(old(Counts(total, perIp)), ip)
    {
      hide Accounts;
      AcquireKeepsAccounts(Counts(total, perIp), permits, limits, ip);
      RefusedIff(Counts(total, perIp), permits, limits, ip);
      if limits.maxTotal.Some? && total >= limits.maxTotal.value { return Some(GlobalLimit); }
      if ip !in perIp { perIp := perIp[ip := 0]; }
      if perIp[ip] >= limits.maxPerIp {
        if perIp[ip] == 0 { perIp := perIp - {ip}; }
        assert perIp == old(perIp);
        return Some(PerIpLimit);
      }
      perIp := perIp[ip := perIp[ip] + 1];
      total := total + 1;
      permits := permits + multiset{ip};
      assert Counts(total, perIp) == Acquire(old(Counts(total, perIp)), ip);
      refused := None;
    }

    /** Called once for each permit, when its socket is gone. */
    method Release(ip: Address)
      requires Valid() && ip in permits
      modifies this
      ensures Valid() && permits == old(permits) - multiset{ip}
      ensures Counts(total, perIp) == Drop(old(Counts(total, perIp)), ip)
    {
      hide Accounts;
      DropKeepsAccounts(Counts(total, perIp), permits, limits, ip);
      total := Minus1(total);
      if ip in perIp {
        perIp := perIp[ip := perIp[ip] - 1];
        if perIp[ip] == 0 { perIp := perIp - {ip}; }
      }
      permits := permits - multiset{ip};
      assert Counts(total, perIp) == Drop(old(Counts(total, perIp)), ip);
    }
  }

  /** A connection is refused exactly when one of the caps is reached by the live permits. */
  lemma RefusedIff(c: Counts, permits: multiset<Address>, limits: Limits, ip: Address)
    requires Accounts(c, permits, limits)
    ensures Refusal(c, ip, limits) == Some(GlobalLimit) <==> limits.maxTotal.Some? && |permits| >= limits.maxTotal.value
    ensures Refusal(c, ip, limits) == Some(PerIpLimit) <==>
      permits[ip] >= limits.maxPerIp && (limits.maxTotal.Some? ==> |permits| < limits.maxTotal.value)
  {
  }

  // ----- Sums -------------------------------------------------------------------------

  ghost function Sum(m: map<Address, nat>): nat
    decreases |m|
  {
    if m == map[] then 0
    else
      var k :| k in m;
      assert |(m - {k}).Keys| < |m.Keys| by { assert (m - {k}).Keys == m.Keys - {k}; }
      m[k] + Sum(m - {k})
  }

  lemma {:induction false} SumWithout(m: map<Address, nat>, k: Address)
    requires k in m
    ensures Sum(m) == m[k] + Sum(m - {k})
    decreases |m|
  {
    var j :| j in m && Sum(m) == m[j] + Sum(m - {j});
    if j != k {
      assert (m - {j}).Keys == m.Keys - {j} && (m - {k}).Keys == m.Keys - {k};
      assert |(m - {j}).Keys| < |m.Keys|;
      SumWithout(m - {j}, k);
      SumWithout(m - {k}, j);
      assert m - {j} - {k} == m - {k} - {j};
    }
  }

  lemma {:induction false} SumIsSize(m: map<Address, nat>, permits: multiset<Address>)
    requires forall ip :: ip in m <==> ip in permits
    requires forall ip :: ip in m ==> m[ip] == permits[ip]
    ensures Sum(m) == |permits|
    decreases |m|
  {
    if m == map[] {
      assert permits == multiset{};
    } else {
      var k :| k in m;
      SumWithout(m, k);
      var rest := permits[k := 0];
      assert (m - {k}).Keys == m.Keys - {k};
      SumIsSize(m - {k}, rest);
      assert |permits| == |rest| + permits[k];
    }
  }

  // ----- Every interleaving --------------------------------------------------------------

  datatype Op = Open(ip: Address) | Close(ip: Address)

  datatype Live = Live(counts: Counts, permits: multiset<Address>)

  /** Only a permit that is held can be dropped. */
  predicate MayHappen(x: Live, op: Op) {
    op.Close? ==> op.ip in x.permits
  }

  function Step(x: Live, op: Op, limits: Limits): Live {
    match op
    case Open(ip) =>
      if Refusal(x.counts, ip, limits).Some? then x else Live(Acquire(x.counts, ip), x.permits + multiset{ip})
    case Close(ip) => Live(Drop(x.counts, ip), x.permits - multiset{ip})
  }

  ghost predicate IsRun(xs: seq<Live>, ops: seq<Op>, limits: Limits) {
    && |xs| == |ops| + 1
    && forall n :: 0 <= n < |ops| ==>
         MayHappen(xs[n], ops[n]) && xs[n + 1] == Step(xs[n], ops[n], limits)
  }

  lemma AcquireKeepsAccounts(c: Counts, permits: multiset<Address>, limits: Limits, ip: Address)
    requires Accounts(c, permits, limits)
    ensures Refusal(c, ip, limits).None? ==> Accounts(Acquire(c, ip), permits + multiset{ip}, limits)
    ensures ip in c.perIp ==> c.perIp[ip] >= 1
  {
  }

  lemma DropKeepsAccounts(c: Counts, permits: multiset<Address>, limits: Limits, ip: Address)
    requires Accounts(c, permits, limits) && ip in permits
    ensures Accounts(Drop(c, ip), permits - multiset{ip}, limits)
    ensures c.total >= 1 && ip in c.perIp && c.perIp[ip] >= 1
  {
  }

  lemma StepKeepsAccounts(x: Live, op: Op, limits: Limits)
    requires Accounts(x.counts, x.permits, limits) && MayHappen(x, op)
    ensures Accounts(Step(x, op, limits).counts, Step(x, op, limits).permits, limits)
    ensures op.Close? ==> x.counts.total >= 1 && op.ip in x.counts.perIp && x.counts.perIp[op.ip] >= 1
  {
    hide Accounts, Acquire, Drop;
    match op
    case Open(ip) => AcquireKeepsAccounts(x.counts, x.permits, limits, ip);
    case Close(ip) => DropKeepsAccounts(x.counts, x.permits, limits, ip);
  }

  /** Over every interleaving of opening and closing: the total is the number of live
      permits and the sum over all addresses, within the cap; each address has the
      count of its live permits, within its cap, and no other is in the map. */
  lemma {:induction false} RunKeepsAccounts(xs: seq<Live>, ops: seq<Op>, limits: Limits, n: nat)
    requires IsRun(xs, ops, limits) && xs[0] == Live(NONE, multiset{}) && n < |xs|
    ensures Accounts(xs[n].counts, xs[n].permits, limits)
    ensures xs[n].counts.total == |xs[n].permits| == Sum(xs[n].counts.perIp)
  {
    hide Sum, Step, MayHappen;
    if n > 0 {
      RunKeepsAccounts(xs, ops, limits, n - 1);
      StepKeepsAccounts(xs[n - 1], ops[n - 1], limits);
    }
    SumIsSize(xs[n].counts.perIp, xs[n].permits);
  }

  /** Nothing ever saturates or underflows when a permit is dropped. */
  lemma DropsAreExact(xs: seq<Live>, ops: seq<Op>, limits: Limits, n: nat)
    requires IsRun(xs, ops, limits) && xs[0] == Live(NONE, multiset{}) && n < |ops| && ops[n].Close?
    ensures var ip := ops[n].ip;
      && xs[n + 1].counts.total == xs[n].counts.total - 1
      && ip in xs[n].counts.perIp && xs[n].counts.perIp[ip] >= 1
      && (if ip in xs[n + 1].counts.perIp then xs[n + 1].counts.perIp[ip] else 0) == xs[n].counts.perIp[ip] - 1
  {
    RunKeepsAccounts(xs, ops, limits, n);
    StepKeepsAccounts(xs[n], ops[n], limits);
  }
}
