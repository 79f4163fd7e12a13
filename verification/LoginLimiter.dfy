/**
 The login limiter of internal/auth/limiter.go. Times are nanoseconds; a user name arrives already
 trimmed and lower-cased, which two library calls do.
 */
module LoginLimiter {

  datatype Attempt = Attempt(failures: nat, windowStart: int, next: int, seen: int)

  type Table = map<string, Attempt>

  const Millisecond: int := 1_000_000

  function LoginKey(ip: string, account: string): string {
    account + "\0" + ip
  }

  function AccountKey(account: string): string {
    "\U{1}" + account
  }

  function Shifted(shift: nat): nat {
    if shift == 0 then 1 else 2 * Shifted(shift - 1)
  }

  /** The pause after the n-th failure of a window: 250 ms doubling up to 8 s. */
  function Delay(n: nat): int
    requires n > 0
  {
    250 * Millisecond * Shifted(if n - 1 > 5 then 5 else n - 1)
  }

  function Wait(entries: Table, window: int, now: int, key: string): (w: int)
    ensures w >= 0
  {
    if key in entries && now - entries[key].windowStart < window && now < entries[key].next
    then entries[key].next - now
    else 0
  }

  predicate Allowed(entries: Table, window: int, now: int, ip: string, account: string) {
    Wait(entries, window, now, LoginKey(ip, account)) == 0 && Wait(entries, window, now, AccountKey(account)) == 0
  }

  function Bump(entries: Table, window: int, now: int, key: string): Table {
    var a := if key in entries && now - entries[key].windowStart < window
             then entries[key] else Attempt(0, now, 0, 0);
    entries[key := Attempt(a.failures + 1, a.windowStart, now + Delay(a.failures + 1), now)]
  }

  function Recorded(entries: Table, window: int, now: int, ip: string, account: string): Table {
    Bump(Bump(entries, window, now, LoginKey(ip, account)), window, now, AccountKey(account))
  }

  class Limiter {
    var entries: Table
    const window: int
    const maxEntries: nat

    ghost predicate Valid()
      reads this
    {
      "" !in entries && |entries| <= maxEntries && window > 0 && maxEntries > 0
    }

    constructor (window: int, maxEntries: int)
      ensures Valid() && entries == map[]
      ensures this.window == if window <= 0 then 15 * 60 * 1000 * Millisecond else window
      ensures this.maxEntries == if maxEntries <= 0 then 4096 else maxEntries
    {
      this.window := if window <= 0 then 15 * 60 * 1000 * Millisecond else window;
      this.maxEntries := if maxEntries <= 0 then 4096 else maxEntries;
      entries := map[];
    }

    method Allow(ip: string, account: string, now: int) returns (ok: bool, wait: int)
      requires Valid()
      ensures ok <==> Allowed(entries, window, now, ip, account)
      ensures wait == Longest(Wait(entries, window, now, LoginKey(ip, account)),
                              Wait(entries, window, now, AccountKey(account)))
    {
      wait := 0;
      var keys := [LoginKey(ip, account), AccountKey(account)];
      var i := 0;
      while i < |keys|
        invariant 0 <= i <= 2
        invariant wait == Longest(if i > 0 then Wait(entries, window, now, keys[0]) else 0,
                                  if i > 1 then Wait(entries, window, now, keys[1]) else 0)
      {
        var key := keys[i];
        if key in entries && now - entries[key].windowStart < window && now < entries[key].next {
          var remaining := entries[key].next - now;
          if remaining > wait {
            wait := remaining;
          }
        }
        i := i + 1;
      }
      ok := wait == 0;
    }

    /**
     Both keys are bumped; if the table overflows, entries go until it fits, and no entry that
     stays was seen before one that went.
     */
    method Failure(ip: string, account: string, now: int)
      requires Valid()
      modifies this
      ensures Valid()
      ensures var full := Recorded(old(entries), window, now, ip, account);
              && (forall k | k in entries :: k in full && entries[k] == full[k])
              && (|full| <= maxEntries ==> entries == full)
              && (|full| > maxEntries ==> |entries| == maxEntries)
              && (forall gone, kept | gone in full && gone !in entries && kept in entries ::
                    full[gone].seen <= full[kept].seen)
    {
      var keys := [LoginKey(ip, account), AccountKey(account)];
      var i := 0;
      ghost var first := Bump(entries, window, now, keys[0]);
      while i < |keys|
        invariant 0 <= i <= 2
        invariant i == 0 ==> entries == old(entries)
        invariant i == 1 ==> entries == first
        invariant i == 2 ==> entries == Bump(first, window, now, keys[1])
      {
        var key := keys[i];
        var a := if key in entries && now - entries[key].windowStart < window
                 then entries[key] else Attempt(0, now, 0, 0);
        var failures := a.failures + 1;
        var shift := failures - 1;
        if shift > 5 {
          shift := 5;
        }
        entries := entries[key := Attempt(failures, a.windowStart, now + 250 * Millisecond * Shifted(shift), now)];
        i := i + 1;
      }
      EvictToFit();
    }

    method EvictToFit()
      requires "" !in entries && maxEntries > 0
      modifies this`entries
      ensures "" !in entries && |entries| <= maxEntries
      ensures forall k | k in entries :: k in old(entries) && entries[k] == old(entries)[k]
      ensures |old(entries)| <= maxEntries ==> entries == old(entries)
      ensures |old(entries)| > maxEntries ==> |entries| == maxEntries
      ensures forall gone, kept | gone in old(entries) && gone !in entries && kept in entries ::
                old(entries)[gone].seen <= old(entries)[kept].seen
    {
      ghost var full := entries;
      while |entries| > maxEntries
        invariant "" !in entries
        invariant forall k | k in entries :: k in full && entries[k] == full[k]
        invariant |full| <= maxEntries ==> entries == full
        invariant |full| > maxEntries ==> |entries| >= maxEntries
        invariant forall gone, kept | gone in full && gone !in entries && kept in entries ::
                    full[gone].seen <= full[kept].seen
        decreases |entries|
      {
        EvictOldest();
      }
    }

    method Success(ip: string, account: string)
      requires Valid()
      modifies this
      ensures Valid()
      ensures entries == old(entries) - {LoginKey(ip, account), AccountKey(account)}
    {
      RemoveTwo(entries, LoginKey(ip, account), AccountKey(account));
      entries := entries - {LoginKey(ip, account)};
      entries := entries - {AccountKey(account)};
    }

    /** Goes through the entries in whatever order and drops one with the earliest `seen`. */
    method EvictOldest()
      requires "" !in entries && entries != map[]
      modifies this`entries
      ensures |entries| == |old(entries)| - 1
      ensures exists gone | gone in old(entries) ::
                && entries == old(entries) - {gone}
                && forall k | k in old(entries) :: old(entries)[gone].seen <= old(entries)[k].seen
    {
      var oldestKey, oldest := "", 0;
      var left := entries.Keys;
      while left != {}
        invariant left <= entries.Keys
        invariant oldestKey == "" <==> left == entries.Keys
        invariant oldestKey != "" ==> oldestKey in entries && oldest == entries[oldestKey].seen
        invariant oldestKey != "" ==> forall k | k in entries.Keys - left :: oldest <= entries[k].seen
        decreases left
      {
        var k :| k in left;
        var a := entries[k];
        if oldestKey == "" || a.seen < oldest {
          oldestKey, oldest := k, a.seen;
        }
        left := left - {k};
      }
      assert entries.Keys != {};
      entries := entries - {oldestKey};
      assert entries.Keys == old(entries).Keys - {oldestKey};
    }
  }

  function Longest(a: int, b: int): int {
    if a > b then a else b
  }

  lemma RemoveTwo(t: Table, a: string, b: string)
    ensures t - {a} - {b} == t - {a, b}
    ensures |t - {a, b}| <= |t|
  {
    assert (t - {a, b}).Keys == t.Keys - {a, b};
  }

  // ----- How many failures one key can record

  datatype Event =
    | Failed(ip: string, account: string, asked: int, recorded: int)
    | Succeeded(ip: string, account: string)

  /** How long the n-th failure of a window keeps its key waiting. */
  function Pause(n: nat): int {
    if n <= 1 then 250_000_000
    else if n == 2 then 500_000_000
    else if n == 3 then 1_000_000_000
    else if n == 4 then 2_000_000_000
    else if n == 5 then 4_000_000_000
    else 8_000_000_000
  }

  lemma DelayIsPause(n: nat)
    requires n > 0
    ensures Delay(n) == Pause(n)
  {
    assert Shifted(2) == 4 && Shifted(4) == 16 && Shifted(5) == 32;
  }

  /**
   After a failure each of its keys waits until its pause is over, or its window, and the same login is
   allowed again exactly when neither key waits any more.
   */
  lemma AllowedAgain(table: Table, window: int, at: int, ip: string, account: string, now: int)
    requires window > 0 && at <= now
    ensures var after := Recorded(table, window, at, ip, account);
            var login, acc := LoginKey(ip, account), AccountKey(account);
            && login in after && acc in after
            && (forall key | key in {login, acc} ::
                  && after[key].failures ==
                     (if key in table && at < table[key].windowStart + window then table[key].failures + 1 else 1)
                  && Wait(after, window, now, key) ==
                     (if now < after[key].windowStart + window && now < at + Pause(after[key].failures)
                      then at + Pause(after[key].failures) - now else 0))
            && (Allowed(after, window, now, ip, account) <==>
                  forall key | key in {login, acc} ::
                    now >= at + Pause(after[key].failures) || now >= after[key].windowStart + window)
  {
    var login, acc := LoginKey(ip, account), AccountKey(account);
    RecordedAt(table, window, at, ip, account, login);
    RecordedAt(table, window, at, ip, account, acc);
    var after := Recorded(table, window, at, ip, account);
    DelayIsPause(after[login].failures);
    DelayIsPause(after[acc].failures);
  }

  /** The table after a history in which nothing was evicted. */
  function Replay(history: seq<Event>, window: int): Table {
    if history == [] then map[]
    else
      var before := Replay(history[..|history| - 1], window);
      match history[|history| - 1]
      case Failed(ip, account, _, recorded) => Recorded(before, window, recorded, ip, account)
      case Succeeded(ip, account) => before - {LoginKey(ip, account), AccountKey(account)}
  }

  predicate Touches(e: Event, key: string) {
    key == LoginKey(e.ip, e.account) || key == AccountKey(e.account)
  }

  /** When a key recorded failures, since the last success that cleared it. */
  function Times(history: seq<Event>, key: string): seq<int> {
    if history == [] then []
    else
      var before := Times(history[..|history| - 1], key);
      var e := history[|history| - 1];
      if !Touches(e, key) then before
      else if e.Succeeded? then []
      else before + [e.recorded]
  }

  /** A sequential run on a monotone clock: a failure is recorded only after `Allow` agreed. */
  ghost predicate Sequential(history: seq<Event>, window: int) {
    history == [] ||
    var before, e := history[..|history| - 1], history[|history| - 1];
    && Sequential(before, window)
    && (e.Failed? ==>
          && e.asked <= e.recorded
          && Allowed(Replay(before, window), window, e.asked, e.ip, e.account)
          && forall f | f in before && f.Failed? :: f.recorded <= e.asked)
  }

  /** The least time between the first and the n-th failure of one window. */
  function Offset(n: nat): int
    requires n > 0
  {
    if n == 1 then 0 else Offset(n - 1) + Delay(n - 1)
  }

  lemma {:induction false} OffsetClosedForm(n: nat)
    requires n >= 6
    ensures Offset(n) == 7750 * Millisecond + 8000 * Millisecond * (n - 6)
  {
    if n == 6 {
      assert Shifted(2) == 4 && Shifted(4) == 16;
      assert Offset(3) == 750 * Millisecond;
      assert Offset(5) == 3750 * Millisecond;
    } else {
      OffsetClosedForm(n - 1);
      assert Shifted(3) == 8 && Shifted(5) == 32;
    }
  }

  /** What an entry says about the times its key recorded. */
  ghost predicate Faithful(a: Attempt, times: seq<int>, window: int) {
    && 1 <= a.failures <= |times|
    && var first := |times| - a.failures;
       && times[first] == a.windowStart
       && times[|times| - 1] == a.seen
       && a.next == a.seen + Delay(a.failures)
       && a.windowStart + Offset(a.failures) <= a.seen < a.windowStart + window
       && (forall i | first <= i < |times| :: a.windowStart <= times[i] <= a.seen)
       && (forall i | 0 <= i < first :: times[i] < a.windowStart)
  }

  lemma {:induction false} KeysDiffer(ip: string, account: string)
    ensures LoginKey(ip, account) != AccountKey(account)
  {
    if LoginKey(ip, account) == AccountKey(account) {
      var both := LoginKey(ip, account);
      assert |ip| == 0;
      var i := 0;
      while i < |account|
        invariant 0 <= i <= |account|
        invariant both[i] == '\U{1}'
      {
        assert both[i] == account[i];
        assert both[i + 1] == account[i];
        i := i + 1;
      }
    }
  }

  lemma BumpFaithful(entries: Table, times: seq<int>, window: int, asked: int, now: int, key: string)
    requires window > 0 && asked <= now
    requires key in entries ==> Faithful(entries[key], times, window)
    requires key !in entries ==> times == []
    requires forall i | 0 <= i < |times| :: times[i] <= asked
    requires Wait(entries, window, asked, key) == 0
    ensures Faithful(Bump(entries, window, now, key)[key], times + [now], window)
  {
    var after := Bump(entries, window, now, key)[key];
    if key in entries && now - entries[key].windowStart < window {
      var a := entries[key];
      assert asked >= a.next;
      assert Offset(after.failures) == Offset(a.failures) + Delay(a.failures);
    } else {
      if key in entries {
        assert entries[key].seen < entries[key].windowStart + window <= now;
      }
      assert after == Attempt(1, now, now + Delay(1), now);
    }
  }

  /** A failure bumps exactly its two keys. */
  lemma RecordedAt(table: Table, window: int, now: int, ip: string, account: string, key: string)
    ensures var after := Recorded(table, window, now, ip, account);
            if key == LoginKey(ip, account) || key == AccountKey(account)
            then key in after && after[key] == Bump(table, window, now, key)[key]
            else (key in after <==> key in table) && (key in table ==> after[key] == table[key])
  {
    KeysDiffer(ip, account);
    var login := LoginKey(ip, account);
    var first := Bump(table, window, now, login);
    assert first == table[login := first[login]];
  }

  /** The times a key recorded are those of failures in the history. */
  lemma {:induction false} TimesRecorded(history: seq<Event>, key: string, i: nat)
    requires i < |Times(history, key)|
    ensures exists f | f in history :: f.Failed? && f.recorded == Times(history, key)[i]
  {
    var before, e := history[..|history| - 1], history[|history| - 1];
    assert e in history && forall f | f in before :: f in history;
    if !Touches(e, key) || i < |Times(before, key)| {
      TimesRecorded(before, key, i);
    }
  }

  lemma AskedLast(history: seq<Event>, window: int, key: string)
    requires history != [] && Sequential(history, window) && history[|history| - 1].Failed?
    ensures var times := Times(history[..|history| - 1], key);
            forall i | 0 <= i < |times| :: times[i] <= history[|history| - 1].asked
  {
    var before := history[..|history| - 1];
    forall i | 0 <= i < |Times(before, key)|
      ensures Times(before, key)[i] <= history[|history| - 1].asked
    {
      TimesRecorded(before, key, i);
    }
  }

  lemma {:induction false} ReplayFaithful(history: seq<Event>, window: int, key: string)
    requires window > 0 && Sequential(history, window)
    ensures key in Replay(history, window) ==>
              Faithful(Replay(history, window)[key], Times(history, key), window)
    ensures key !in Replay(history, window) ==> Times(history, key) == []
  {
    if history != [] {
      var before, e := history[..|history| - 1], history[|history| - 1];
      ReplayFaithful(before, window, key);
      if e.Failed? {
        RecordedAt(Replay(before, window), window, e.recorded, e.ip, e.account, key);
        if Touches(e, key) {
          AskedLast(history, window, key);
          BumpFaithful(Replay(before, window), Times(before, key), window, e.asked, e.recorded, key);
        }
      }
    }
  }

  /** From the sixth failure of a window on, each comes at least another 8 s later. */
  lemma LastFailureAfter(history: seq<Event>, window: int, key: string)
    requires window > 0 && Sequential(history, window)
    requires key in Replay(history, window) && Replay(history, window)[key].failures >= 6
    ensures var a := Replay(history, window)[key];
            a.seen - a.windowStart >= 7750 * Millisecond + 8000 * Millisecond * (a.failures - 6)
  {
    ReplayFaithful(history, window, key);
    OffsetClosedForm(Replay(history, window)[key].failures);
  }

  /** How many of the times fall into [from, to). */
  function CountIn(times: seq<int>, from: int, to: int): nat {
    if times == [] then 0
    else CountIn(times[..|times| - 1], from, to) + if from <= times[|times| - 1] < to then 1 else 0
  }

  lemma {:induction false} CountSuffix(times: seq<int>, from: int, to: int, first: nat)
    requires first <= |times|
    requires forall i | 0 <= i < first :: times[i] < from
    requires forall i | first <= i < |times| :: from <= times[i] < to
    ensures CountIn(times, from, to) == |times| - first
  {
    if times != [] {
      CountSuffix(times[..|times| - 1], from, to, if first == |times| then first - 1 else first);
    }
  }

  /**
   Every key, and with it every account, records at most 6 + (W - 7.75 s) / 8 s failures in a
   window of length W >= 7.75 s.
   */
  lemma FailuresPerWindow(history: seq<Event>, window: int, key: string)
    requires window >= 7750 * Millisecond && Sequential(history, window)
    requires key in Replay(history, window)
    ensures var a := Replay(history, window)[key];
            && CountIn(Times(history, key), a.windowStart, a.windowStart + window) == a.failures
            && 8000 * Millisecond * (a.failures - 6) <= window - 7750 * Millisecond
  {
    ReplayFaithful(history, window, key);
    FaithfulBound(Replay(history, window)[key], Times(history, key), window);
  }

  lemma FaithfulBound(a: Attempt, times: seq<int>, window: int)
    requires window >= 7750 * Millisecond && Faithful(a, times, window)
    ensures CountIn(times, a.windowStart, a.windowStart + window) == a.failures
    ensures 8000 * Millisecond * (a.failures - 6) <= window - 7750 * Millisecond
  {
    CountSuffix(times, a.windowStart, a.windowStart + window, |times| - a.failures);
    if a.failures >= 6 {
      OffsetClosedForm(a.failures);
    }
  }
}
