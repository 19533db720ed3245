/** The leased lock of the retention scheduler (src/workers/retention_scheduler.py) over any number of
    replicas. */
module Lease {
  import opened Basics
  import opened Outcomes
  import opened Redis
  import Text

  const DEFAULT_SCHEDULE_SECONDS := 3600
  const MINIMUM_SCHEDULE_SECONDS := 300
  const LOCK_KEY := "leadhunter:maintenance:retention-scheduler"

  datatype ScheduleError = NotANumber | TooShort

  /** `parsed` is what `int(raw)` gives, if anything. */
  function ScheduleInterval(raw: string, parsed: Option<int>): Result<int, ScheduleError> {
    if Text.Strip(raw) == "" then Ok(DEFAULT_SCHEDULE_SECONDS)
    else if parsed.None? then Err(NotANumber)
    else if parsed.value < MINIMUM_SCHEDULE_SECONDS then Err(TooShort)
    else Ok(parsed.value)
  }

  lemma IntervalsAreLongEnough(raw: string, parsed: Option<int>)
    ensures ScheduleInterval(raw, parsed).Ok? ==> ScheduleInterval(raw, parsed).value >= MINIMUM_SCHEDULE_SECONDS
  {
  }

  /** The only intervals a scheduler runs with. */
  type Interval = i: int | i >= MINIMUM_SCHEDULE_SECONDS witness DEFAULT_SCHEDULE_SECONDS

  datatype Workspace = Workspace(id: nat, active: bool)

  function ActiveIds(workspaces: seq<Workspace>): seq<nat> {
    if workspaces == [] then []
    else
      ActiveIds(workspaces[..|workspaces| - 1])
      + if workspaces[|workspaces| - 1].active then [workspaces[|workspaces| - 1].id] else []
  }

  /** The ids of the active workspaces, in the order of the table. */
  lemma {:induction false} ActiveIdsInOrder(workspaces: seq<Workspace>) returns (ps: seq<nat>)
    ensures Increasing(ps) && forall n: nat :: n in ps <==> n < |workspaces| && workspaces[n].active
    ensures |ActiveIds(workspaces)| == |ps|
    ensures forall i | 0 <= i < |ps| :: ps[i] < |workspaces| && ActiveIds(workspaces)[i] == workspaces[ps[i]].id
  {
    ps := [];
    if workspaces != [] {
      var last := |workspaces| - 1;
      var before := ActiveIdsInOrder(workspaces[..last]);
      ps := before + if workspaces[last].active then [last] else [];
      forall n: nat ensures n in ps <==> n < |workspaces| && workspaces[n].active {
        assert n in ps <==> n in before || (n == last && workspaces[last].active);
      }
      forall i | 0 <= i < |before| ensures before[i] < last {
        assert before[i] in before;
      }
    }
  }

  class Scheduler {
    const client: Client
    const interval: Interval
    var published: seq<nat>

    constructor (client: Client, interval: Interval)
      ensures this.client == client && this.interval == interval && published == []
    {
      this.client, this.interval, published := client, interval, [];
    }

    /** One turn of the loop; the lock holder enqueues every active workspace. `workspaces` is the
        table in id order. */
    method Turn(token: string, workspaces: seq<Workspace>, now: int) returns (acquired: bool)
      modifies this`published, client`leases
      ensures acquired <==> Acquires(Lookup(old(client.leases), LOCK_KEY), now)
      ensures Lookup(client.leases, LOCK_KEY) == NextLease(Lookup(old(client.leases), LOCK_KEY), token, interval, now)
      ensures published == old(published) + if acquired then ActiveIds(workspaces) else []
    {
      acquired := client.SetNxEx(LOCK_KEY, token, 1000 * interval, now);
      ghost var leases := client.leases;
      if acquired {
        var i := 0;
        while i < |workspaces|
          invariant 0 <= i <= |workspaces|
          invariant published == old(published) + ActiveIds(workspaces[..i]) && client.leases == leases
        {
          assert workspaces[..i + 1][..i] == workspaces[..i];
          if workspaces[i].active {
            published := published + [workspaces[i].id];
          }
          i := i + 1;
        }
        assert workspaces[..i] == workspaces;
      }
    }
  }

  /** The start of `run_scheduler`: an interval that is not a number or too short raises. */
  method StartScheduler(client: Client, raw: string, parsed: Option<int>)
    returns (r: Result<Scheduler, ScheduleError>)
    ensures r.Ok? <==> Text.Strip(raw) == "" || (parsed.Some? && parsed.value >= 300)
    ensures r.Ok? ==> r.value.client == client
    ensures r.Ok? ==> r.value.interval == if Text.Strip(raw) == "" then 3600 else parsed.value
    ensures r.Err? ==> r.error == if parsed.None? then NotANumber else TooShort
  {
    var interval :- ScheduleInterval(raw, parsed);
    IntervalsAreLongEnough(raw, parsed);
    var scheduler := new Scheduler(client, interval);
    r := Ok(scheduler);
  }

  // ----- Runs of any number of replicas -----

  predicate Acquires(lease: Option<Redis.Lease>, now: int) {
    lease.None? || now >= lease.value.expiresAt
  }

  function NextLease(lease: Option<Redis.Lease>, token: string, interval: int, now: int): Option<Redis.Lease> {
    if Acquires(lease, now) then Some(Redis.Lease(token, now + 1000 * interval)) else lease
  }

  /** A replica with its interval in seconds tries the lock. */
  datatype Attempt = Attempt(token: string, interval: Interval, time: int)

  ghost predicate Timely(attempts: seq<Attempt>) {
    forall i, j | 0 <= i < j < |attempts| :: attempts[i].time <= attempts[j].time
  }

  function LeaseAfter(attempts: seq<Attempt>): Option<Redis.Lease> {
    if attempts == [] then None
    else
      var a := attempts[|attempts| - 1];
      NextLease(LeaseAfter(attempts[..|attempts| - 1]), a.token, a.interval, a.time)
  }

  /** Attempt `i` starts a round. */
  predicate IsRound(attempts: seq<Attempt>, i: int) {
    0 <= i < |attempts| && Acquires(LeaseAfter(attempts[..i]), attempts[i].time)
  }

  function Rounds(attempts: seq<Attempt>, low: int, high: int): nat {
    if attempts == [] then 0
    else
      var last := |attempts| - 1;
      Rounds(attempts[..last], low, high)
      + if IsRound(attempts, last) && low <= attempts[last].time <= high then 1 else 0
  }

  /** The lease left by a run is the one its last round took. */
  lemma {:induction false} LeaseIsOfTheLastRound(attempts: seq<Attempt>, i: int)
    requires IsRound(attempts, i) && Timely(attempts)
    ensures LeaseAfter(attempts).Some?
    ensures LeaseAfter(attempts).value.expiresAt >= attempts[i].time + 1000 * attempts[i].interval
  {
    var last := |attempts| - 1;
    if i < last {
      assert attempts[..last][..i] == attempts[..i];
      LeaseIsOfTheLastRound(attempts[..last], i);
    }
  }

  /** Two rounds are at least the interval of the earlier holder apart. */
  lemma RoundsAreApart(attempts: seq<Attempt>, i: int, j: int)
    requires Timely(attempts) && i < j && IsRound(attempts, i) && IsRound(attempts, j)
    ensures attempts[j].time >= attempts[i].time + 1000 * attempts[i].interval
    ensures attempts[j].time >= attempts[i].time + 1000 * MINIMUM_SCHEDULE_SECONDS
  {
    assert attempts[..j][..i] == attempts[..i];
    LeaseIsOfTheLastRound(attempts[..j], i);
  }

  /** A round enqueues some time after it took the lock: when none is later than `slack`, the messages of
      two rounds are at least the interval of the earlier holder less that slack apart. */
  lemma EnqueuesAreApart(attempts: seq<Attempt>, enqueued: seq<int>, slack: nat, i: int, j: int)
    requires Timely(attempts) && i < j && IsRound(attempts, i) && IsRound(attempts, j)
    requires |enqueued| == |attempts|
    requires forall k | 0 <= k < |attempts| :: attempts[k].time <= enqueued[k] <= attempts[k].time + slack
    ensures enqueued[j] - enqueued[i] >= 1000 * attempts[i].interval - slack
  {
    RoundsAreApart(attempts, i, j);
  }

  lemma RoundsOfPrefix(attempts: seq<Attempt>, m: nat, k: int)
    requires m <= |attempts| && IsRound(attempts[..m], k)
    ensures IsRound(attempts, k) && k < m
  {
    assert attempts[..m][..k] == attempts[..k];
  }

  lemma TimelyPrefix(attempts: seq<Attempt>, m: nat)
    requires Timely(attempts) && m <= |attempts|
    ensures Timely(attempts[..m])
  {
  }

  /** After k rounds in the span, the last of them is at least k - 1 minimal intervals after its start. */
  lemma {:induction false} RoundsTakeTime(attempts: seq<Attempt>, low: int, high: int) returns (i: int)
    requires Timely(attempts) && Rounds(attempts, low, high) > 0
    ensures IsRound(attempts, i) && low <= attempts[i].time <= high
    ensures attempts[i].time >= low + 300_000 * (Rounds(attempts, low, high) - 1)
  {
    var last := |attempts| - 1;
    var before := attempts[..last];
    TimelyPrefix(attempts, last);
    i := last;
    if Rounds(before, low, high) > 0 {
      var k := RoundsTakeTime(before, low, high);
      RoundsOfPrefix(attempts, last, k);
      if IsRound(attempts, last) && low <= attempts[last].time <= high {
        RoundsAreApart(attempts, k, last);
      } else {
        i := k;
      }
    }
  }

  /** A span of T milliseconds holds at most floor(T / 300 s) + 1 rounds. */
  lemma RoundsAreBounded(attempts: seq<Attempt>, low: int, high: int)
    requires Timely(attempts) && low <= high
    ensures Rounds(attempts, low, high) <= (high - low) / (1000 * MINIMUM_SCHEDULE_SECONDS) + 1
  {
    if Rounds(attempts, low, high) > 0 {
      var i := RoundsTakeTime(attempts, low, high);
    }
  }

  /** A lone replica waits its interval between turns, and so acquires on every turn. */
  lemma {:induction false} LoneReplicaAlwaysAcquires(attempts: seq<Attempt>, interval: int, i: int)
    requires Timely(attempts) && 0 <= i < |attempts|
    requires forall a | a in attempts :: a.interval == interval
    requires forall k | 0 < k < |attempts| :: attempts[k].time >= attempts[k - 1].time + 1000 * interval
    ensures IsRound(attempts, i)
  {
    if i > 0 {
      LoneReplicaAlwaysAcquires(attempts, interval, i - 1);
      assert attempts[..i][..i - 1] == attempts[..i - 1];
      assert attempts[i - 1] in attempts;
    }
  }
}
