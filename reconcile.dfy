/**
 * The meaning of `applySchedules` (src/scheduler.ts): the per-account timer
 * map reconciled against the groups of one poll. The runtime's timers are
 * modelled by the handles currently armed, each with the account it checks
 * and its delay, and a counter that names the next handle.
 */
module Reconciliation {
  import opened Types
  import opened Time

  /** What the map keeps per account: the timer's handle and the group it was armed for. */
  datatype TimerEntry = TimerEntry(handle: nat, checkTime: Instant, earliestExecutionTime: Instant, jobs: seq<WaitingJob>)

  /** A pending timer: the account it will check and the delay the runtime waits before firing. */
  datatype ArmedTimer = ArmedTimer(accountId: string, delay: int)

  /** The longest delay Node's timers honour: 2^31 - 1 milliseconds, about 24.8 days. */
  const TimeoutMax := 0x7FFF_FFFF

  /**
   * The delay Node's `setTimeout` actually waits for a requested delay: a
   * request below 1 or above `TimeoutMax` is replaced by 1 millisecond.
   */
  function TimerDelay(requested: int): (d: int)
    ensures 1 <= d <= TimeoutMax
    ensures 1 <= requested <= TimeoutMax ==> d == requested
    ensures requested > TimeoutMax ==> d == 1
  {
    if 1 <= requested <= TimeoutMax then requested else 1
  }

  /**
   * A check time at most `TimeoutMax` ahead fires exactly then; one already
   * due fires after the minimum delay of 1 millisecond.
   */
  lemma ArmedForCheckTime(checkTime: Instant, now: Instant)
    ensures now < checkTime <= now + TimeoutMax ==> now + TimerDelay(MillisUntil(checkTime, now)) == checkTime
    ensures checkTime <= now ==> TimerDelay(MillisUntil(checkTime, now)) == 1
  {
  }

  /**
   * A check time more than `TimeoutMax` ahead is armed with the clamped
   * delay: its timer fires 1 millisecond after it is armed, long before the
   * check time.
   */
  lemma DistantCheckFiresAtOnce(checkTime: Instant, now: Instant)
    requires checkTime > now + TimeoutMax
    ensures MillisUntil(checkTime, now) > TimeoutMax
    ensures TimerDelay(MillisUntil(checkTime, now)) == 1 && now + 1 < checkTime
  {
  }

  /** The scheduler's map together with the runtime's pending timers. */
  datatype TimerState = TimerState(timers: map<string, TimerEntry>, armed: map<nat, ArmedTimer>, nextHandle: nat)

  /**
   * Every entry's handle is pending and checks that entry's account; every
   * pending handle was issued already and belongs to the entry of its account.
   */
  predicate Consistent(st: TimerState) {
    && (forall a :: a in st.timers ==>
          st.timers[a].handle in st.armed && st.armed[st.timers[a].handle].accountId == a)
    && (forall h :: h in st.armed ==>
          && h < st.nextHandle
          && st.armed[h].accountId in st.timers
          && st.timers[st.armed[h].accountId].handle == h)
  }

  /** The account ids of the groups. */
  function IdSet(gs: seq<AccountJobGroup>): set<string> {
    set g | g in gs :: g.adAccountId
  }

  /** No two groups are for the same account. */
  predicate DistinctIds(gs: seq<AccountJobGroup>) {
    forall i, j :: 0 <= i < j < |gs| ==> gs[i].adAccountId != gs[j].adAccountId
  }

  /** The keep rule: an existing entry due no later than the group is left alone. */
  predicate Keeps(st: TimerState, g: AccountJobGroup) {
    g.adAccountId in st.timers && st.timers[g.adAccountId].checkTime <= g.checkTime
  }

  /** The check time the account's entry has after the group: the earlier of the two. */
  function MinCheckTime(st: TimerState, g: AccountJobGroup): Instant {
    if Keeps(st, g) then st.timers[g.adAccountId].checkTime else g.checkTime
  }

  /**
   * One group: kept when the existing entry is due no later; otherwise the
   * old handle (if any) is cleared, a new one is armed with the delay until
   * the check time (as the runtime clamps it), and the entry is replaced by
   * the group's data.
   */
  function ApplyGroup(st: TimerState, g: AccountJobGroup, now: Instant): (r: TimerState)
    ensures Keeps(st, g) ==> r == st
    ensures !Keeps(st, g) ==>
      && r.nextHandle == st.nextHandle + 1
      && g.adAccountId in r.timers && st.nextHandle in r.armed
      && r.timers[g.adAccountId] == TimerEntry(st.nextHandle, g.checkTime, g.earliestExecutionTime, g.jobs)
      && r.armed[st.nextHandle] == ArmedTimer(g.adAccountId, TimerDelay(MillisUntil(g.checkTime, now)))
    ensures Consistent(st) && !Keeps(st, g) && g.adAccountId in st.timers ==>
      st.timers[g.adAccountId].handle !in r.armed
    ensures g.adAccountId in r.timers && r.timers[g.adAccountId].checkTime == MinCheckTime(st, g)
    ensures forall a :: a in st.timers ==> a in r.timers && r.timers[a].checkTime <= st.timers[a].checkTime
    ensures forall a :: a != g.adAccountId ==> (a in r.timers <==> a in st.timers)
    ensures forall a :: a != g.adAccountId && a in st.timers ==> r.timers[a] == st.timers[a]
    ensures st.nextHandle <= r.nextHandle
    ensures forall h :: h in r.armed ==> h in st.armed || st.nextHandle <= h
    ensures Consistent(st) ==> forall h :: h in r.armed && h in st.armed ==> r.armed[h] == st.armed[h]
    ensures Consistent(st) ==> Consistent(r)
  {
    var id := g.adAccountId;
    if Keeps(st, g) then st
    else
      var cleared := if id in st.timers then st.armed - {st.timers[id].handle} else st.armed;
      var h := st.nextHandle;
      TimerState(st.timers[id := TimerEntry(h, g.checkTime, g.earliestExecutionTime, g.jobs)],
                 cleared[h := ArmedTimer(id, TimerDelay(MillisUntil(g.checkTime, now)))], h + 1)
  }

  /** The groups applied one after the other, in order. */
  function ApplyGroups(st: TimerState, gs: seq<AccountJobGroup>, now: Instant): (r: TimerState)
    ensures forall a :: a in r.timers <==> a in st.timers || a in IdSet(gs)
    ensures forall a :: a in st.timers && a !in IdSet(gs) ==> r.timers[a] == st.timers[a]
    ensures st.nextHandle <= r.nextHandle
    ensures forall h :: h in r.armed ==> h in st.armed || st.nextHandle <= h
    ensures Consistent(st) ==> forall h :: h in r.armed && h in st.armed ==> r.armed[h] == st.armed[h]
    ensures Consistent(st) ==> Consistent(r)
  {
    if |gs| == 0 then st
    else
      var init := gs[..|gs| - 1];
      assert gs == init + [gs[|gs| - 1]];
      assert forall a :: a in IdSet(gs) <==> a in IdSet(init) || a == gs[|gs| - 1].adAccountId;
      ApplyGroup(ApplyGroups(st, init, now), gs[|gs| - 1], now)
  }

  /** The handles of the entries of the accounts `gone`. */
  function HandlesOf(timers: map<string, TimerEntry>, gone: set<string>): set<nat> {
    set a | a in timers && a in gone :: timers[a].handle
  }

  /** The removal phase: entries of accounts outside `ids` are dropped and their handles cleared. */
  function RemoveAbsent(st: TimerState, ids: set<string>): (r: TimerState)
    ensures r.timers.Keys == st.timers.Keys * ids
    ensures forall a :: a in r.timers ==> r.timers[a] == st.timers[a]
    ensures forall a :: a in st.timers && a !in ids ==> st.timers[a].handle !in r.armed
    ensures forall h :: h in r.armed ==> h in st.armed && r.armed[h] == st.armed[h]
    ensures r.nextHandle == st.nextHandle
  {
    var gone := HandlesOf(st.timers, st.timers.Keys - ids);
    TimerState(map a | a in st.timers && a in ids :: st.timers[a],
               map h | h in st.armed && h !in gone :: st.armed[h],
               st.nextHandle)
  }

  /** The removal phase, stated by the accounts it drops rather than the ones it keeps. */
  lemma RemoveAbsentByGone(st: TimerState, ids: set<string>, gone: set<string>)
    requires gone == st.timers.Keys - ids
    ensures RemoveAbsent(st, ids)
         == TimerState(map a | a in st.timers && a !in gone :: st.timers[a],
                       map h | h in st.armed && h !in HandlesOf(st.timers, gone) :: st.armed[h],
                       st.nextHandle)
  {
    assert HandlesOf(st.timers, gone) == HandlesOf(st.timers, st.timers.Keys - ids);
  }

  /** One more group names one more account. */
  lemma IdSetStep(gs: seq<AccountJobGroup>, i: nat)
    requires i < |gs|
    ensures IdSet(gs[..i + 1]) == IdSet(gs[..i]) + {gs[i].adAccountId}
  {
    assert gs[..i + 1] == gs[..i] + [gs[i]];
  }

  /** One more group, applied after the others. */
  lemma ApplyGroupsStep(st: TimerState, gs: seq<AccountJobGroup>, now: Instant, i: nat)
    requires i < |gs|
    ensures ApplyGroups(st, gs[..i + 1], now) == ApplyGroup(ApplyGroups(st, gs[..i], now), gs[i], now)
  {
    assert gs[..i + 1][..i] == gs[..i];
  }

  /** `applySchedules`: every group in order, then the removal of accounts no group names. */
  function Reconcile(st: TimerState, gs: seq<AccountJobGroup>, now: Instant): (r: TimerState)
    ensures r.timers.Keys == IdSet(gs)
    ensures Consistent(st) ==> Consistent(r)
  {
    var mid := ApplyGroups(st, gs, now);
    assert IdSet(gs) <= mid.timers.Keys;
    if Consistent(st) then
      RemoveAbsentConsistent(mid, IdSet(gs));
      RemoveAbsent(mid, IdSet(gs))
    else RemoveAbsent(mid, IdSet(gs))
  }

  /** Removing absent accounts from a consistent state keeps it consistent. */
  lemma RemoveAbsentConsistent(st: TimerState, ids: set<string>)
    requires Consistent(st)
    ensures Consistent(RemoveAbsent(st, ids))
  {
    var r := RemoveAbsent(st, ids);
    var gone := HandlesOf(st.timers, st.timers.Keys - ids);
    forall a | a in r.timers ensures r.timers[a].handle in r.armed {
      assert st.timers[a].handle !in gone;
    }
  }

  /**
   * Reconciliation as the scheduler carries it out: apply the groups, then
   * drop the accounts `gone` (those no group names) together with their
   * pending timers. The outcome has exactly the named accounts and stays
   * consistent.
   */
  lemma ReconcileByGone(st: TimerState, gs: seq<AccountJobGroup>, now: Instant, gone: set<string>, r: TimerState)
    requires Consistent(st)
    requires gone == ApplyGroups(st, gs, now).timers.Keys - IdSet(gs)
    requires var mid := ApplyGroups(st, gs, now);
      r == TimerState(map a | a in mid.timers && a !in gone :: mid.timers[a],
                      map h | h in mid.armed && h !in HandlesOf(mid.timers, gone) :: mid.armed[h],
                      mid.nextHandle)
    ensures r == Reconcile(st, gs, now)
    ensures Consistent(r) && r.timers.Keys == IdSet(gs)
  {
    RemoveAbsentByGone(ApplyGroups(st, gs, now), IdSet(gs), gone);
  }

  /**
   * Every account the groups no longer name is dropped and the timer it had
   * is no longer pending.
   */
  lemma ReconcileClearsRemoved(st: TimerState, gs: seq<AccountJobGroup>, now: Instant, a: string)
    requires Consistent(st) && a in st.timers && a !in IdSet(gs)
    ensures a !in Reconcile(st, gs, now).timers
    ensures st.timers[a].handle !in Reconcile(st, gs, now).armed
  {
    var mid := ApplyGroups(st, gs, now);
    assert mid.timers[a] == st.timers[a];
  }

  /** Applying the groups in two runs is applying them all. */
  lemma {:induction false} ApplyGroupsAppend(st: TimerState, p: seq<AccountJobGroup>, q: seq<AccountJobGroup>, now: Instant)
    ensures ApplyGroups(st, p + q, now) == ApplyGroups(ApplyGroups(st, p, now), q, now)
    decreases |q|
  {
    if |q| == 0 {
      assert p + q == p;
    } else {
      var qi := q[..|q| - 1];
      assert (p + q)[..|p + q| - 1] == p + qi;
      ApplyGroupsAppend(st, p, qi, now);
    }
  }

  /** An account no group names keeps its entry, and its timer stays pending with the same delay. */
  lemma ApplyGroupsUntouched(st: TimerState, gs: seq<AccountJobGroup>, now: Instant, a: string)
    requires Consistent(st) && a in st.timers && a !in IdSet(gs)
    ensures var r := ApplyGroups(st, gs, now);
      && r.timers[a] == st.timers[a]
      && st.timers[a].handle in r.armed
      && r.armed[st.timers[a].handle] == st.armed[st.timers[a].handle]
  {
  }

  /** An entry kept by the removal phase keeps its pending timer. */
  lemma RemoveAbsentKeeps(st: TimerState, ids: set<string>, a: string)
    requires Consistent(st) && a in st.timers && a in ids
    ensures var r := RemoveAbsent(st, ids);
      && r.timers[a] == st.timers[a]
      && st.timers[a].handle in r.armed
      && r.armed[st.timers[a].handle] == st.armed[st.timers[a].handle]
  {
    assert st.timers[a].handle !in HandlesOf(st.timers, st.timers.Keys - ids);
  }

  /** With distinct accounts, the groups before and after group `i` do not name its account. */
  lemma OthersDoNotName(gs: seq<AccountJobGroup>, i: nat)
    requires DistinctIds(gs) && i < |gs|
    ensures gs[i].adAccountId !in IdSet(gs[..i]) && gs[i].adAccountId !in IdSet(gs[i + 1..])
  {
    var a := gs[i].adAccountId;
    forall x | x in gs[..i] ensures x.adAccountId != a {
      var k :| 0 <= k < i && gs[..i][k] == x;
      assert gs[k] == x;
    }
    forall x | x in gs[i + 1..] ensures x.adAccountId != a {
      var k :| 0 <= k < |gs| - i - 1 && gs[i + 1..][k] == x;
      assert gs[i + 1 + k] == x;
    }
  }

  /**
   * An account that the remaining groups do not name, and that the removal
   * keeps, ends with the entry and the pending timer it has now; a handle
   * issued by now and not pending now never becomes pending again.
   */
  lemma RestKeeps(s: TimerState, q: seq<AccountJobGroup>, ids: set<string>, now: Instant, a: string)
    requires Consistent(s) && a in s.timers && a !in IdSet(q) && a in ids
    ensures var r := RemoveAbsent(ApplyGroups(s, q, now), ids);
      && a in r.timers && r.timers[a] == s.timers[a]
      && s.timers[a].handle in r.armed && r.armed[s.timers[a].handle] == s.armed[s.timers[a].handle]
      && forall h :: h < s.nextHandle && h !in s.armed ==> h !in r.armed
  {
    ApplyGroupsUntouched(s, q, now, a);
    RemoveAbsentKeeps(ApplyGroups(s, q, now), ids, a);
  }

  /**
   * With distinct accounts, what reconciliation leaves for group `i`'s
   * account is what applying that group right after the groups before it
   * left: the same entry, the same pending timer, and no handle issued by
   * then and not pending then is pending again.
   */
  lemma ReconcileAsStep(st: TimerState, gs: seq<AccountJobGroup>, now: Instant, i: nat)
    requires Consistent(st) && DistinctIds(gs) && i < |gs|
    ensures var a, s2, r := gs[i].adAccountId, ApplyGroups(st, gs[..i + 1], now), Reconcile(st, gs, now);
      && a in s2.timers && a in r.timers
      && r.timers[a] == s2.timers[a]
      && s2.timers[a].handle in r.armed && r.armed[s2.timers[a].handle] == s2.armed[s2.timers[a].handle]
      && forall h :: h < s2.nextHandle && h !in s2.armed ==> h !in r.armed
  {
    var a := gs[i].adAccountId;
    OthersDoNotName(gs, i);
    var p, q := gs[..i + 1], gs[i + 1..];
    assert gs == p + q;
    ApplyGroupsAppend(st, p, q, now);
    assert a in IdSet(p) by {
      assert p[i] == gs[i];
    }
    assert a in IdSet(gs) by {
      assert gs[i] in gs;
    }
    RestKeeps(ApplyGroups(st, p, now), q, IdSet(gs), now, a);
  }

  /**
   * The rule for one group, when no two groups share an account: an entry
   * due no later is kept with its pending timer; otherwise the entry carries
   * the group's data under a freshly issued handle, pending with the delay
   * until the check time, and the old handle is no longer pending. Either
   * way the entry's check time is the earlier of the old and the new.
   */
  lemma ReconcileGroup(st: TimerState, gs: seq<AccountJobGroup>, now: Instant, i: nat)
    requires Consistent(st) && DistinctIds(gs) && i < |gs|
    ensures var g, r := gs[i], Reconcile(st, gs, now);
      && g.adAccountId in r.timers
      && r.timers[g.adAccountId].checkTime == MinCheckTime(st, g)
      && (Keeps(st, g) ==>
            && r.timers[g.adAccountId] == st.timers[g.adAccountId]
            && st.timers[g.adAccountId].handle in r.armed
            && r.armed[st.timers[g.adAccountId].handle] == st.armed[st.timers[g.adAccountId].handle])
      && (!Keeps(st, g) ==>
            && r.timers[g.adAccountId].checkTime == g.checkTime
            && r.timers[g.adAccountId].earliestExecutionTime == g.earliestExecutionTime
            && r.timers[g.adAccountId].jobs == g.jobs
            && r.timers[g.adAccountId].handle !in st.armed
            && r.timers[g.adAccountId].handle in r.armed
            && r.armed[r.timers[g.adAccountId].handle] == ArmedTimer(g.adAccountId, TimerDelay(MillisUntil(g.checkTime, now)))
            && (g.adAccountId in st.timers ==> st.timers[g.adAccountId].handle !in r.armed))
  {
    var g := gs[i];
    var a := g.adAccountId;
    OthersDoNotName(gs, i);
    ReconcileAsStep(st, gs, now, i);
    var s1 := ApplyGroups(st, gs[..i], now);
    var s2 := ApplyGroup(s1, g, now);
    assert gs[..i + 1][..i] == gs[..i];
    assert s2 == ApplyGroups(st, gs[..i + 1], now);
    if a in st.timers {
      ApplyGroupsUntouched(st, gs[..i], now, a);
      assert s1.timers[a] == st.timers[a];
    } else {
      assert a !in s1.timers;
    }
    assert Keeps(s1, g) == Keeps(st, g);
  }

  /** Every account named by a group ends due no later than that group. */
  lemma {:induction false} AppliedNoLater(st: TimerState, gs: seq<AccountJobGroup>, now: Instant)
    ensures var r := ApplyGroups(st, gs, now);
      forall g :: g in gs ==> g.adAccountId in r.timers && r.timers[g.adAccountId].checkTime <= g.checkTime
  {
    if |gs| > 0 {
      var init := gs[..|gs| - 1];
      assert gs == init + [gs[|gs| - 1]];
      AppliedNoLater(st, init, now);
    }
  }

  /** Groups that all keep their entries change nothing. */
  lemma {:induction false} AllKeptUnchanged(st: TimerState, gs: seq<AccountJobGroup>, now: Instant)
    requires forall g :: g in gs ==> Keeps(st, g)
    ensures ApplyGroups(st, gs, now) == st
  {
    if |gs| > 0 {
      var init := gs[..|gs| - 1];
      assert forall g :: g in init ==> g in gs;
      AllKeptUnchanged(st, init, now);
    }
  }

  /**
   * Reconciling with the same groups again, at any later time, clears no
   * timer, arms none and changes no entry.
   */
  lemma ReconcileIdempotent(st: TimerState, gs: seq<AccountJobGroup>, now: Instant, later: Instant)
    ensures Reconcile(Reconcile(st, gs, now), gs, later) == Reconcile(st, gs, now)
  {
    var mid := ApplyGroups(st, gs, now);
    var st1 := Reconcile(st, gs, now);
    AppliedNoLater(st, gs, now);
    assert forall g :: g in gs ==> Keeps(st1, g);
    AllKeptUnchanged(st1, gs, later);
    var r := RemoveAbsent(st1, IdSet(gs));
    assert HandlesOf(st1.timers, st1.timers.Keys - IdSet(gs)) == {};
    assert r.timers == st1.timers;
    assert r.armed == st1.armed;
  }
}
