/** How often the background rounds of internal/certificate/automatic.go order a certificate. */
module OrderRate {
  import opened Certificates
  import opened Coordinator
  import opened Endpoint
  import opened TlsState
  import opened Wrappers

  /** A round, with whether the pair was due before it, whether it placed an order, and whether it succeeded. */
  datatype Call = Call(lead: int, e: Env, due: bool, ordered: bool, ok: bool)

  predicate Acme(m: Option<Metadata>) {
    m.Some? && EffectiveSource(m.value).LetsEncrypt?
  }

  /**
   What a round, successful or not, tells about the record before and after it: an order is placed
   only when the stored pair cannot be read or is due; the ordered pair takes its place when the round
   succeeds, and stays out of it otherwise.
   */
  ghost predicate Link(m: Option<Metadata>, m': Option<Metadata>, c: Call) {
    && (c.due <==> m.Some? && !OutsideLead(m.value, c.lead, c.e.now))
    && (c.ordered ==> Acme(m) && (c.e.readStored || c.due))
    && (Acme(m) ==>
          && Acme(m') && SameSettings(m.value, m'.value)
          && if c.ordered && c.ok then Serves(m'.value, c.e.obtained, m.value.hostname, m.value.mode, c.e.later)
             else Held(m.value, m'.value))
  }

  /** Issued certificates live at least `life` and are backdated by at most `back`. */
  predicate Graded(e: Env, life: int, back: int) {
    e.obtained.Some? ==>
      && e.obtained.value.notAfter - e.obtained.value.notBefore >= life
      && e.obtained.value.notBefore >= e.now - back
  }

  /** Rounds one after the other on a monotone clock. */
  predicate Spaced(envs: seq<Env>) {
    && (forall i | 0 <= i < |envs| :: envs[i].now <= envs[i].later)
    && (forall i | 0 <= i < |envs| - 1 :: envs[i].later <= envs[i + 1].now)
  }

  /** Successive rounds, with whatever lead is configured at each. */
  ghost predicate Rounds(records: seq<Option<Metadata>>, calls: seq<Call>, life: int, back: int) {
    && |records| == |calls| + 1
    && (forall i | 0 <= i < |calls| :: Link(records[i], records[i + 1], calls[i]) && Graded(calls[i].e, life, back))
    && (forall i | 0 <= i < |calls| :: calls[i].e.now <= calls[i].e.later)
    && (forall i | 0 <= i < |calls| - 1 :: calls[i].e.later <= calls[i + 1].e.now)
  }

  /** An order that does not count: its round failed afterwards, or could not read a pair that was not due. */
  predicate Wasted(c: Call) {
    c.ordered && (!c.ok || !c.due)
  }

  function Orders(calls: seq<Call>): nat {
    if calls == [] then 0 else (if calls[0].ordered then 1 else 0) + Orders(calls[1..])
  }

  function WastedOrders(calls: seq<Call>): nat {
    if calls == [] then 0 else (if Wasted(calls[0]) then 1 else 0) + WastedOrders(calls[1..])
  }

  function EndOf(calls: seq<Call>, start: int): int {
    if calls == [] then start else calls[|calls| - 1].e.now
  }

  /** The record carries a pair ordered at `at` that was valid at `seen`. */
  ghost predicate OrderedAt(m: Option<Metadata>, at: int, seen: int, life: int, back: int) {
    && Acme(m) && !m.value.state.Unconfigured? && m.value.active.Some?
    && m.value.active.value.notAfter - m.value.active.value.notBefore >= life
    && m.value.active.value.notBefore >= at - back
    && at <= seen && Validated(m.value.active.value, m.value.hostname, m.value.mode, seen)
  }

  /** The cap at a third of the lifetime keeps a pair for two thirds of it, less the backdating. */
  lemma NotDueBefore(m: Option<Metadata>, at: int, seen: int, life: int, back: int, lead: int, now: int)
    requires OrderedAt(m, at, seen, life, back) && seen <= now
    requires !OutsideLead(m.value, lead, now)
    requires life > 0
    ensures 3 * (now - at) >= 2 * life - 3 * back
  {
    var b := m.value.active.value;
    assert 3 * AcmeLead(lead, b) <= b.notAfter - b.notBefore;
    if Validated(b, m.value.hostname, m.value.mode, now) {
      assert now >= b.notAfter - AcmeLead(lead, b);
    } else {
      assert now >= b.notAfter;
    }
  }

  /** A round that orders nothing, or fails, leaves the pair and its age as they were. */
  lemma LinkCarries(m: Option<Metadata>, m': Option<Metadata>, c: Call, at: int, seen: int, life: int, back: int)
    requires Link(m, m', c) && Graded(c.e, life, back) && c.e.now <= c.e.later
    requires OrderedAt(m, at, seen, life, back)
    ensures if c.ordered && c.ok then OrderedAt(m', c.e.now, c.e.later, life, back)
            else OrderedAt(m', at, seen, life, back)
  {
  }

  /** After an order, the orders that were not wasted are bounded by the time since. */
  lemma {:induction false} OrdersAfter(records: seq<Option<Metadata>>, calls: seq<Call>, at: int, seen: int,
                                       life: int, back: int)
    requires Rounds(records, calls, life, back) && 0 < life && 0 < 2 * life - 3 * back
    requires OrderedAt(records[0], at, seen, life, back)
    requires calls != [] ==> seen <= calls[0].e.now
    ensures (Orders(calls) - WastedOrders(calls)) * (2 * life - 3 * back) <= 3 * (EndOf(calls, at) - at)
    decreases |calls|
  {
    if calls != [] {
      var c := calls[0];
      assert Link(records[0], records[1], c) && Graded(c.e, life, back);
      TailRounds(records, calls, life, back);
      LinkCarries(records[0], records[1], c, at, seen, life, back);
      if c.ordered && c.ok {
        OrdersAfter(records[1..], calls[1..], c.e.now, c.e.later, life, back);
        if c.due {
          NotDueBefore(records[0], at, seen, life, back, c.lead, c.e.now);
          OneMore(Orders(calls[1..]) - WastedOrders(calls[1..]), 2 * life - 3 * back);
        }
      } else {
        OrdersAfter(records[1..], calls[1..], at, seen, life, back);
      }
      EndOfTail(calls, at);
    }
  }

  lemma OneMore(n: int, d: int)
    ensures (1 + n) * d == d + n * d
  {
  }

  lemma EndOfTail(calls: seq<Call>, at: int)
    requires calls != []
    ensures EndOf(calls[1..], calls[0].e.now) == EndOf(calls, at)
    ensures |calls| > 1 ==> EndOf(calls[1..], at) == EndOf(calls, at)
  {
  }

  lemma TailRounds(records: seq<Option<Metadata>>, calls: seq<Call>, life: int, back: int)
    requires Rounds(records, calls, life, back) && calls != []
    ensures Rounds(records[1..], calls[1..], life, back)
    ensures records[1..][0] == records[1]
    ensures |calls| > 1 ==> calls[0].e.later <= calls[1..][0].e.now && calls[1..][0] == calls[1]
  {
    var rs, cs := records[1..], calls[1..];
    forall i | 0 <= i < |cs|
      ensures Link(rs[i], rs[i + 1], cs[i]) && Graded(cs[i].e, life, back)
    {
      assert Link(records[i + 1], records[i + 2], calls[i + 1]);
    }
  }

  lemma {:induction false} StartsLater(records: seq<Option<Metadata>>, calls: seq<Call>, life: int, back: int)
    requires Rounds(records, calls, life, back) && calls != []
    ensures calls[0].e.now <= calls[|calls| - 1].e.now
    decreases |calls|
  {
    if |calls| > 1 {
      TailRounds(records, calls, life, back);
      StartsLater(records[1..], calls[1..], life, back);
    }
  }

  /**
   Rounds spanning the time T, whatever fails in them, place at most 1 + T / (2 life / 3 - back)
   orders besides the wasted ones, whatever leads are configured, when certificates live at least
   `life` and are backdated by at most `back`.
   */
  lemma {:induction false} OrdersBounded(records: seq<Option<Metadata>>, calls: seq<Call>, life: int, back: int)
    requires Rounds(records, calls, life, back) && calls != []
    requires 0 < life && 0 < 2 * life - 3 * back
    ensures (Orders(calls) - WastedOrders(calls) - 1) * (2 * life - 3 * back) <=
            3 * (calls[|calls| - 1].e.now - calls[0].e.now)
    decreases |calls|
  {
    var c := calls[0];
    assert Link(records[0], records[1], c) && Graded(c.e, life, back);
    TailRounds(records, calls, life, back);
    StartsLater(records, calls, life, back);
    if c.ordered && c.ok {
      assert OrderedAt(records[1], c.e.now, c.e.later, life, back);
      OrdersAfter(records[1..], calls[1..], c.e.now, c.e.later, life, back);
      EndOfTail(calls, c.e.now);
      if !c.due {
        OneMore(Orders(calls) - WastedOrders(calls) - 1, 2 * life - 3 * back);
      }
    } else if |calls| > 1 {
      OrdersBounded(records[1..], calls[1..], life, back);
      StartsLater(records[1..], calls[1..], life, back);
    } else {
      assert Orders(calls[1..]) == 0 && WastedOrders(calls[1..]) == 0;
    }
  }

  /** One call of `Ensure` is a link. */
  method Once(m: CertManager, lead: int, e: Env) returns (c: Call)
    requires m.Valid() && m.OnDisk()
    modifies m.repo, m.publisher, m.publisher.tls, m.publisher.configs, m.publisher.admin, m.publisher.process
    ensures m.Valid() && m.OnDisk()
    ensures c.lead == lead && c.e == e && Link(old(m.repo.db).meta, m.repo.db.meta, c)
  {
    var due := m.repo.db.meta.Some? && !OutsideLead(m.repo.db.meta.value, lead, e.now);
    if m.repo.db.meta.Some? {
      LeadExact(m.repo.db.meta.value, lead, e.now);
    }
    var r, ordered := m.Ensure(lead, e);
    c := Call(lead, e, due, ordered, r.Ok?);
  }

  /**
   The rounds of the background worker without a settings change in between: the bound holds of the
   orders that these calls of `Ensure` place.
   */
  method RunRounds(m: CertManager, leads: seq<int>, envs: seq<Env>, ghost life: int, ghost back: int)
    returns (calls: seq<Call>)
    requires m.Valid() && m.OnDisk() && |leads| == |envs| && Spaced(envs)
    requires 0 < life && 0 < 2 * life - 3 * back && forall e | e in envs :: Graded(e, life, back)
    modifies m.repo, m.publisher, m.publisher.tls, m.publisher.configs, m.publisher.admin, m.publisher.process
    ensures m.Valid() && |calls| == |envs| && forall i | 0 <= i < |calls| :: calls[i].e == envs[i]
    ensures envs != [] ==>
              (Orders(calls) - WastedOrders(calls) - 1) * (2 * life - 3 * back) <=
              3 * (envs[|envs| - 1].now - envs[0].now)
  {
    calls := [];
    ghost var records := [m.repo.db.meta];
    for i := 0 to |envs|
      invariant m.Valid() && m.OnDisk() && |calls| == i && |records| == i + 1 && records[i] == m.repo.db.meta
      invariant forall j | 0 <= j < i :: calls[j].e == envs[j] && Link(records[j], records[j + 1], calls[j])
    {
      var c := Once(m, leads[i], envs[i]);
      calls := calls + [c];
      records := records + [m.repo.db.meta];
    }
    if envs != [] {
      OrdersBounded(records, calls, life, back);
    }
  }

  // ----- Wasted orders

  const NoPair := NoRecord.(state := Degraded, hostname := "vpn.example.net", email := "admin@example.net")

  /** The certificate server takes the order and delivers nothing. */
  const Undelivered := Env(0, 0, true, false, false, false, false, false, false, false, false, None, false, None,
                           false, 0, NoFaults, NoRestoreFaults, NoProcessFaults)

  /**
   Nothing in a round limits how often failing rounds order: any number of them, at one and the same
   time, may each place an order.
   */
  lemma {:induction false} WastedOrdersUnlimited(n: nat, life: int, back: int)
    returns (records: seq<Option<Metadata>>, calls: seq<Call>)
    ensures Rounds(records, calls, life, back) && |calls| == n
    ensures Orders(calls) == n && WastedOrders(calls) == n
    ensures forall i | 0 <= i < n :: calls[i] == Call(0, Undelivered, true, true, false)
    ensures forall i | 0 <= i <= n :: records[i] == Some(NoPair)
  {
    if n == 0 {
      return [Some(NoPair)], [];
    }
    var rs, cs := WastedOrdersUnlimited(n - 1, life, back);
    records, calls := [Some(NoPair)] + rs, [Call(0, Undelivered, true, true, false)] + cs;
    assert calls[1..] == cs;
  }
}
