/** Timed snapshots of src/policy.rs and src/schedule.rs: when one is due, how often they can happen, and what a
    tick does to the vault. */
module Schedule {
  import opened Bytes
  import opened Disks
  import opened Versions
  import opened Adding
  import opened Snapshots
  import opened Gc
  import opened Registry
  import opened Vaults

  /** The part of a policy that the scheduler reads. */
  datatype Policy = Policy(interval: u64, retain: u64)

  datatype PolicyState = PolicyState(lastAt: u64, lastHead: Option<Cid>, count: u64, updatedAt: u64)

  function Elapsed(last: u64, now: u64): u64 { if now < last then 0 else now - last }

  /** `snapshot_due` */
  predicate SnapshotDue(interval: u64, last: u64, now: u64) {
    interval != 0 && (last == 0 || Elapsed(last, now) >= interval)
  }

  /** `secs_until_snapshot` */
  function SecsUntil(interval: u64, last: u64, now: u64): Option<u64> {
    if interval == 0 then None
    else if last == 0 then Some(0)
    else if Elapsed(last, now) >= interval then Some(0)
    else Some(interval - Elapsed(last, now))
  }

  /** The countdown says when: due is due in 0 seconds, and if the clock has not fallen behind the last snapshot, a
      positive countdown names the first second at which a snapshot will be due. */
  lemma CountdownExact(interval: u64, last: u64, now: u64)
    ensures SnapshotDue(interval, last, now) <==> SecsUntil(interval, last, now) == Some(0)
    ensures SecsUntil(interval, last, now).None? <==> forall t: u64 :: !SnapshotDue(interval, 0, t)
    ensures SecsUntil(interval, last, now).Some? && last <= now ==>
              forall t: u64 :: now <= t ==>
                  (SnapshotDue(interval, last, t) <==> t - now >= SecsUntil(interval, last, now).value)
  {
    assert interval != 0 ==> SnapshotDue(interval, 0, 0);
  }

  /** When a snapshot is due: never with an interval of 0; otherwise at once if there was none, and from an interval
      after the last one on. */
  lemma DueExact(interval: u64, last: u64, now: u64)
    ensures SnapshotDue(interval, last, now) <==> interval > 0 && (last == 0 || now >= last + interval)
  {
  }

  // ---------------------------------------------------------------------------------------------
  // How often
  // ---------------------------------------------------------------------------------------------

  /** Consecutive times are at least an interval apart. */
  ghost predicate Spaced(times: seq<u64>, interval: u64) {
    forall i, j :: 0 <= i && j == i + 1 && j < |times| ==> times[j] - times[i] >= interval
  }

  lemma {:induction false} SpacedSpan(times: seq<u64>, interval: u64, i: nat, j: nat)
    requires Spaced(times, interval) && i <= j < |times|
    ensures times[j] - times[i] >= (j - i) * interval
    decreases j
  {
    if i < j {
      SpacedSpan(times, interval, i, j - 1);
      assert times[j] - times[j - 1] >= interval;
      assert (j - i) * interval == (j - 1 - i) * interval + interval;
    }
  }

  /** A window of length `span` holds at most 1 + span / interval of them. */
  lemma WindowBound(times: seq<u64>, interval: u64, i: nat, j: nat, span: nat)
    requires Spaced(times, interval) && interval > 0 && i <= j < |times| && times[j] - times[i] <= span
    ensures j - i + 1 <= 1 + span / interval
  {
    SpacedSpan(times, interval, i, j);
    Quotients(j - i, interval, span);
  }

  lemma Quotients(n: nat, k: nat, span: nat)
    requires k > 0 && n * k <= span
    ensures n <= span / k
  {
    var q, r := span / k, span % k;
    assert span == q * k + r && r < k;
    if n > q { Product(n, q + 1, k); }
  }

  lemma Product(a: nat, b: nat, k: nat)
    requires a >= b
    ensures a * k >= b * k
  {
  }

  /** A clock at 0 is the exception: the state that it leaves, and no other, has a snapshot due at every time. */
  lemma AlwaysDue(interval: u64, last: u64)
    ensures (forall t: u64 :: SnapshotDue(interval, last, t)) <==> interval != 0 && last == 0
  {
    assert last != 0 || interval == 0 ==> !SnapshotDue(interval, last, last);
  }

  // ---------------------------------------------------------------------------------------------
  // What a tick and a forced snapshot do
  // ---------------------------------------------------------------------------------------------

  datatype Tick = Tick(snapshot: Option<Cid>, pruned: nat, removed: nat)

  /** The scheduler and its vault: disk and policy state, the tips registered so far, and the times of the scheduled
      snapshots. */
  datatype Machine = Machine(disk: Disk, state: PolicyState, tips: seq<Cid>, autos: seq<u64>)

  datatype Event = Scheduled(message: bytes, now: u64) | Forced(message: bytes, now: u64)

  function Saturated(n: u64): u64 { if n == 0xFFFF_FFFF_FFFF_FFFF then n else n + 1 }

  /** Whether an event takes a snapshot. */
  predicate Takes(env: Env, policy: Policy, m: Machine, e: Event) {
    && m.disk.head.Some? && SnapSucceeds(env, m.disk)
    && (e.Scheduled? ==> SnapshotDue(policy.interval, m.state.lastAt, e.now))
  }

  /** A snapshot: its tip is registered, the registry pruned, and its time and tip recorded. */
  function Snapped(env: Env, policy: Policy, m: Machine, e: Event): Machine
    requires TextFits(e.message) && Takes(env, policy, m, e)
  {
    var d := SnappedDisk(env, m.disk, policy.retain, e.message, e.now);
    Machine(d, PolicyState(e.now, d.head, Saturated(m.state.count), e.now), m.tips + [d.head.value],
      if e.Scheduled? then m.autos + [e.now] else m.autos)
  }

  /** What an event does: a scheduled snapshot is followed by a collection. */
  ghost function Next(env: Env, policy: Policy, m: Machine, e: Event): Machine
    requires TextFits(e.message)
  {
    if !Takes(env, policy, m, e) then m
    else
      var m' := Snapped(env, policy, m, e);
      if e.Scheduled? then m'.(disk := Collected(env, m'.disk)) else m'
  }

  /** The event writes no object in place of a different one. */
  predicate Cleanly(env: Env, policy: Policy, m: Machine, e: Event)
    requires TextFits(e.message)
  {
    Takes(env, policy, m, e) ==> SnapsCleanly(env, m.disk, e.message, e.now)
  }

  predicate TextsFit(events: seq<Event>) { forall i :: 0 <= i < |events| ==> TextFits(events[i].message) }

  /** After the first `n` events. */
  ghost function After(env: Env, policy: Policy, m: Machine, events: seq<Event>, n: nat): Machine
    requires TextsFit(events) && n <= |events|
  {
    if n == 0 then m else Next(env, policy, After(env, policy, m, events, n - 1), events[n - 1])
  }

  ghost predicate Clean(env: Env, policy: Policy, m: Machine, events: seq<Event>, n: nat)
    requires TextsFit(events) && n <= |events|
  {
    forall i :: 0 <= i < n ==> Cleanly(env, policy, After(env, policy, m, events, i), events[i])
  }

  /** The clock is positive and never goes back. */
  predicate Steady(clock: u64, events: seq<Event>) {
    && (forall i :: 0 <= i < |events| ==> 0 < events[i].now && clock <= events[i].now)
    && (forall i, j :: 0 <= i < j < |events| ==> events[i].now <= events[j].now)
  }

  /** The registry is the tips registered, pruned. */
  predicate Listed(policy: Policy, m: Machine) { m.disk.registry == Pruned(m.tips, policy.retain) }

  /** The scheduled snapshots are spaced, the last no later than the last of all, nor that than the clock. */
  ghost predicate Paced(policy: Policy, m: Machine, clock: u64) {
    && Spaced(m.autos, policy.interval)
    && (m.autos != [] ==> 0 < m.autos[|m.autos| - 1] <= m.state.lastAt <= clock)
  }

  lemma NextListed(env: Env, policy: Policy, m: Machine, e: Event)
    requires TextFits(e.message) && Listed(policy, m)
    ensures Listed(policy, Next(env, policy, m, e))
  {
    hide Prune, Register, Pruned, Collected, SnapSucceeds, CommitSaved, Labelled, SnapCommit;
    if Takes(env, policy, m, e) {
      var d := SnappedDisk(env, m.disk, policy.retain, e.message, e.now);
      SnappedRegistry(env, m.disk, policy.retain, e.message, e.now);
      OneMoreTip(m.tips, d.head.value, policy.retain);
      CollectedKeepsRoots(env, d);
    }
  }

  lemma NextPaced(env: Env, policy: Policy, m: Machine, e: Event, clock: u64)
    requires TextFits(e.message) && Paced(policy, m, clock) && clock <= e.now && 0 < e.now
    ensures Paced(policy, Next(env, policy, m, e), e.now)
  {
    hide Collected, SnapSucceeds, SnappedDisk, Spaced;
    if Takes(env, policy, m, e) && e.Scheduled? { OneMoreAuto(m.autos, e.now, policy.interval, m.state.lastAt); }
  }

  lemma OneMoreAuto(autos: seq<u64>, now: u64, interval: u64, last: u64)
    requires Spaced(autos, interval) && SnapshotDue(interval, last, now)
              && (autos != [] ==> 0 < autos[|autos| - 1] <= last <= now)
    ensures Spaced(autos + [now], interval)
  {
    var all := autos + [now];
    assert forall i :: 0 <= i < |autos| ==> all[i] == autos[i];
  }

  lemma {:induction false} StaysListed(env: Env, policy: Policy, m: Machine, events: seq<Event>, n: nat)
    requires TextsFit(events) && n <= |events| && Listed(policy, m)
    ensures Listed(policy, After(env, policy, m, events, n))
    decreases n
  {
    hide Listed, Next, TextFits;
    if n > 0 {
      StaysListed(env, policy, m, events, n - 1);
      NextListed(env, policy, After(env, policy, m, events, n - 1), events[n - 1]);
    }
  }

  lemma {:induction false} StaysPaced(env: Env, policy: Policy, m: Machine, events: seq<Event>, clock: u64, n: nat)
    requires TextsFit(events) && n <= |events| && Paced(policy, m, clock) && Steady(clock, events)
    ensures Paced(policy, After(env, policy, m, events, n), if n == 0 then clock else events[n - 1].now)
    decreases n
  {
    hide Paced, Next, TextFits;
    if n > 0 {
      StaysPaced(env, policy, m, events, clock, n - 1);
      NextPaced(env, policy, After(env, policy, m, events, n - 1), events[n - 1],
          if n == 1 then clock else events[n - 2].now);
    }
  }

  /** On a steady clock, at any point of any run of ticks and forced snapshots: in any window the scheduled snapshots
      number at most 1 + span / interval. */
  lemma ScheduleBound(env: Env, policy: Policy, m: Machine, events: seq<Event>, clock: u64, n: nat, i: nat, j: nat,
                      span: nat)
    requires TextsFit(events) && n <= |events| && Paced(policy, m, clock) && Steady(clock, events)
              && policy.interval > 0
    requires var autos := After(env, policy, m, events, n).autos; i <= j < |autos| && autos[j] - autos[i] <= span
    ensures j - i + 1 <= 1 + span / policy.interval
  {
    hide Next, Steady, TextFits, After;
    StaysPaced(env, policy, m, events, clock, n);
    WindowBound(After(env, policy, m, events, n).autos, policy.interval, i, j, span);
  }

  /** At any point of any run the registry is the `retain` most recently registered distinct tips, newest last. */
  lemma ScheduleRegistry(env: Env, policy: Policy, m: Machine, events: seq<Event>, n: nat)
    requires TextsFit(events) && n <= |events| && Listed(policy, m) && policy.retain > 0
    ensures var m' := After(env, policy, m, events, n);
            && m'.disk.registry == Newest(History(m'.tips), policy.retain)
            && (m'.tips != [] ==>
                  m'.disk.registry != [] && m'.disk.registry[|m'.disk.registry| - 1] == m'.tips[|m'.tips| - 1])
  {
    hide Next, TextFits, After, Pruned, History;
    StaysListed(env, policy, m, events, n);
    RegistryIsNewest(After(env, policy, m, events, n).tips, policy.retain);
  }

  // ---------------------------------------------------------------------------------------------
  // The scheduler
  // ---------------------------------------------------------------------------------------------

  /** A snapshot, its tip registered by the snapshot and once more by the caller, which changes nothing. */
  method SnapshotAndRegister(vault: Vault, message: bytes, now: u64) returns (r: Result<Cid, Error>)
    requires vault.Valid() && TextFits(message)
    modifies vault`disk, vault`clash, vault`versions
    ensures vault.Valid() && (r.Ok? <==> SnapSucceeds(vault.env, old(vault.disk))) && (old(vault.clash).None? ==> r.Ok?)
    ensures vault.disk == SnappedDisk(vault.env, old(vault.disk), vault.retain, message, now)
    ensures vault.clash.None? <==> old(vault.clash).None? && SnapsCleanly(vault.env, old(vault.disk), message, now)
    ensures r.Ok? ==>
              vault.disk.head == Some(r.value)
              && vault.versions == old(vault.versions) + [NewVersion(vault.env, vault.disk, r.value)]
    ensures r.Ok? && vault.clash.None? && LastFiles(old(vault.versions)).Some? ==>
              NewVersion(vault.env, vault.disk, r.value) == Version(r.value, true, LastFiles(old(vault.versions)))
    ensures r.Err? ==> vault.disk == old(vault.disk) && vault.versions == old(vault.versions)
  {
    hide StoreOk, Represents, Trusted, IsClash, NewVersion, Prune, Register, LastFiles, LoadCommit, CommittedAs,
      SnappedDisk, SnapsCleanly, SnapSucceeds;
    ghost var log := vault.disk.registry;
    r := vault.Snapshot(message, now);
    if r.Err? { return; }
    ghost var before := vault.disk;
    RegisterTwice(log, r.value, vault.retain);
    vault.RegisterTip(r.value);
    var _ := vault.PruneRegistry(vault.retain);
    NewRoots(vault.env, before, vault.disk, vault.versions, r.value);
  }

  class Scheduler {
    const vault: Vault
    const policy: Policy
    var state: PolicyState
    /** The tips registered so far, and the times of the scheduled snapshots. */
    ghost var tips: seq<Cid>
    ghost var autos: seq<u64>

    constructor (vault: Vault, policy: Policy, state: PolicyState, ghost tips: seq<Cid>, ghost autos: seq<u64>)
      requires vault.Valid() && vault.retain == policy.retain && vault.disk.registry == Pruned(tips, policy.retain)
      ensures this.vault == vault && this.policy == policy && Valid()
      ensures Now() == Machine(vault.disk, state, tips, autos)
    {
      hide StoreOk, Represents, Trusted, IsClash, Pruned;
      this.vault, this.policy, this.state := vault, policy, state;
      this.tips, this.autos := tips, autos;
    }

    ghost predicate Valid()
      reads this, vault
    {
      vault.Valid() && vault.retain == policy.retain && vault.disk.registry == Pruned(tips, policy.retain)
    }

    ghost function Now(): Machine
      reads this, vault
    {
      Machine(vault.disk, state, tips, autos)
    }

    /** `maybe_auto_snapshot`: the tip is registered by the snapshot and once more, which changes nothing. */
    method MaybeAutoSnapshot(message: bytes, now: u64) returns (r: Result<Option<Cid>, Error>)
      requires Valid() && TextFits(message)
      modifies this, vault`disk, vault`clash, vault`versions
      ensures Valid() && (old(vault.clash).None? ==> r.Ok?)
      ensures r.Ok? ==>
                (r.value.Some? <==>
                   && policy.interval > 0 && old(vault.disk).head.Some?
                   && (old(state).lastAt == 0 || now >= old(state).lastAt + policy.interval))
      ensures r.Ok? && r.value.Some? ==>
                && state.lastAt == now && state.lastHead == r.value && state.updatedAt == now
                && state.count
                   == (if old(state).count == 0xFFFF_FFFF_FFFF_FFFF then old(state).count else old(state).count + 1)
                && tips == old(tips) + [r.value.value] && autos == old(autos) + [now]
      ensures r.Ok? && r.value.Some? <==> Takes(vault.env, policy, old(Now()), Scheduled(message, now))
      ensures r.Ok? && r.value.Some? ==>
                vault.disk.head == r.value && Now() == Snapped(vault.env, policy, old(Now()), Scheduled(message, now))
      ensures r.Err? || r.value.None? ==> Now() == old(Now()) && vault.versions == old(vault.versions)
      ensures vault.clash.None? <==>
                old(vault.clash).None? && Cleanly(vault.env, policy, old(Now()), Scheduled(message, now))
      ensures r.Ok? && r.value.Some? ==>
                vault.versions == old(vault.versions) + [NewVersion(vault.env, vault.disk, r.value.value)]
      ensures r.Ok? && r.value.Some? && vault.clash.None? && LastFiles(old(vault.versions)).Some? ==>
                NewVersion(vault.env, vault.disk, r.value.value)
                    == Version(r.value.value, true, LastFiles(old(vault.versions)))
    {
      hide StoreOk, Represents, Trusted, IsClash, NewVersion, Prune, Register, Pruned, SnappedDisk, SnapsCleanly,
        SnapSucceeds, LastFiles;
      ghost var m := Now();
      if !SnapshotDue(policy.interval, state.lastAt, now) || vault.disk.head.None? { return Ok(None); }
      var snap := SnapshotAndRegister(vault, message, now);
      if snap.Err? { return Err(snap.error); }
      var h := snap.value;
      SnappedRegistry(vault.env, m.disk, policy.retain, message, now);
      OneMoreTip(tips, h, policy.retain);
      autos, tips := autos + [now], tips + [h];
      state := PolicyState(now, Some(h), Saturated(state.count), now);
      r := Ok(Some(h));
    }

    /** `run_tick`: a snapshot if one is due, the registry pruned, and a collection if either did something. */
    method RunTick(message: bytes, now: u64) returns (r: Result<Tick, Error>)
      requires Valid() && TextFits(message)
      modifies this, vault`disk, vault`clash, vault`versions
      ensures Valid() && (old(vault.clash).None? ==> r.Ok?)
      ensures Now() == Next(vault.env, policy, old(Now()), Scheduled(message, now))
      ensures r.Ok? && r.value.snapshot.Some? <==> Takes(vault.env, policy, old(Now()), Scheduled(message, now))
      ensures r.Ok? ==>
                (r.value.snapshot.Some? <==>
                   && policy.interval > 0 && old(vault.disk).head.Some?
                   && (old(state).lastAt == 0 || now >= old(state).lastAt + policy.interval))
      ensures r.Ok? && r.value.snapshot.Some? ==>
                && state.lastAt == now && tips == old(tips) + [r.value.snapshot.value] && autos == old(autos) + [now]
      ensures r.Ok? && r.value.snapshot.None? ==> state == old(state) && tips == old(tips) && autos == old(autos)
      ensures r.Ok? ==> r.value.pruned == 0 && (r.value.snapshot.Some? ==> vault.disk.head == r.value.snapshot)
      ensures r.Ok? && r.value.snapshot.None? ==> r.value.removed == 0
      ensures vault.clash.None? <==>
                old(vault.clash).None? && Cleanly(vault.env, policy, old(Now()), Scheduled(message, now))
      ensures r.Err? || r.value.snapshot.None? ==> vault.versions == old(vault.versions)
      ensures r.Ok? && r.value.snapshot.Some? ==>
                vault.versions == old(vault.versions) +
                  [NewVersion(vault.env, Snapped(vault.env, policy, old(Now()), Scheduled(message, now)).disk,
                      r.value.snapshot.value)]
      ensures r.Ok? && r.value.snapshot.Some? && vault.clash.None? && LastFiles(old(vault.versions)).Some? ==>
                vault.versions == old(vault.versions)
                    + [Version(r.value.snapshot.value, true, LastFiles(old(vault.versions)))]
    {
      hide StoreOk, Represents, Trusted, IsClash, NewVersion, Prune, Register, Collected, Pruned, SnappedDisk,
        SnapsCleanly, SnapSucceeds, LastFiles;
      var snap := MaybeAutoSnapshot(message, now);
      if snap.Err? { return Err(snap.error); }
      PrunedIsPruned(tips, policy.retain);
      var pruned := vault.PruneRegistry(policy.retain);
      var removed := 0;
      if pruned > 0 || snap.value.Some? {
        ghost var before := vault.disk;
        var gc := vault.GcAll();
        CollectedKeepsRoots(vault.env, before);
        removed := gc.value;
      }
      r := Ok(Tick(snap.value, pruned, removed));
    }

    /** `force_auto_snapshot`: whatever the interval says. */
    method ForceAutoSnapshot(message: bytes, now: u64) returns (r: Result<Cid, Error>)
      requires Valid() && TextFits(message)
      modifies this, vault`disk, vault`clash, vault`versions
      ensures Valid() && (old(vault.clash).None? && old(vault.disk).head.Some? ==> r.Ok?)
      ensures Now() == Next(vault.env, policy, old(Now()), Forced(message, now))
      ensures r.Ok? <==> Takes(vault.env, policy, old(Now()), Forced(message, now))
      ensures r.Ok? ==>
                vault.disk.head == Some(r.value)
                && vault.versions == old(vault.versions) + [NewVersion(vault.env, vault.disk, r.value)]
      ensures vault.clash.None? <==>
                old(vault.clash).None? && Cleanly(vault.env, policy, old(Now()), Forced(message, now))
      ensures r.Ok? && vault.clash.None? && LastFiles(old(vault.versions)).Some? ==>
                vault.versions == old(vault.versions) + [Version(r.value, true, LastFiles(old(vault.versions)))]
      ensures r.Ok? ==> state.lastAt == now && tips == old(tips) + [r.value] && autos == old(autos)
      ensures r.Err? ==> vault.versions == old(vault.versions) && state == old(state) && tips == old(tips)
    {
      hide StoreOk, Represents, Trusted, IsClash, NewVersion, Prune, Register, LastFiles, CommittedAs, Pruned,
        LoadCommit, Extends, Keeps, SnappedDisk, SnapsCleanly, SnapSucceeds;
      ghost var m := Now();
      if vault.disk.head.None? { return Err(NoHead); }
      var snap := vault.Snapshot(message, now);
      if snap.Err? { return Err(snap.error); }
      ghost var d := vault.disk;
      SnappedRegistry(vault.env, m.disk, policy.retain, message, now);
      OneMoreTip(tips, snap.value, policy.retain);
      tips := tips + [snap.value];
      PrunedIsPruned(tips, policy.retain);
      var _ := vault.PruneRegistry(policy.retain);
      NewRoots(vault.env, d, vault.disk, vault.versions, snap.value);
      state := PolicyState(now, Some(snap.value), Saturated(state.count), now);
      r := Ok(snap.value);
    }
  }

  lemma PruneTwice(log: seq<Cid>, retain: nat)
    ensures Prune(Prune(log, retain), retain) == Prune(log, retain)
  {
  }

  lemma PrunedIsPruned(tips: seq<Cid>, retain: nat)
    ensures Prune(Pruned(tips, retain), retain) == Pruned(tips, retain)
  {
    hide Register;
    if tips != [] { PruneTwice(Register(Pruned(tips[..|tips| - 1], retain), tips[|tips| - 1]), retain); }
  }

  lemma OneMoreTip(tips: seq<Cid>, h: Cid, retain: nat)
    ensures Pruned(tips + [h], retain) == Prune(Register(Pruned(tips, retain), h), retain)
  {
    hide Prune, Register;
    assert (tips + [h])[..|tips|] == tips;
  }

  lemma CollectedKeepsRoots(env: Env, d: Disk)
    ensures var d' := Collected(env, d); d'.head == d.head && d'.heads == d.heads && d'.registry == d.registry
  {
  }

  /** Any run of ticks and forced snapshots does what `After` says. Each snapshot adds a version, and no version is
      lost;
      the new ones repeat the files of the last one, unless two objects met under one hash. */
  method RunSchedule(s: Scheduler, events: seq<Event>)
    requires s.Valid() && TextsFit(events)
    modifies s, s.vault`disk, s.vault`clash, s.vault`versions
    ensures s.Valid() && s.Now() == After(s.vault.env, s.policy, old(s.Now()), events, |events|)
    ensures s.vault.clash.None? <==>
              old(s.vault.clash).None? && Clean(s.vault.env, s.policy, old(s.Now()), events, |events|)
    ensures old(s.vault.versions) <= s.vault.versions
    ensures |s.vault.versions| - |old(s.vault.versions)| == |s.tips| - |old(s.tips)|
    ensures s.vault.clash.None? && LastFiles(old(s.vault.versions)).Some? ==>
              Repeat(s.vault.versions, old(s.vault.versions))
  {
    hide StoreOk, Represents, Trusted, IsClash, NewVersion, Next, Cleanly, TextFits, Pruned, LastFiles, SnapSucceeds,
      SnapshotDue, Repeat, Snapped;
    ghost var env, policy, m := s.vault.env, s.policy, s.Now();
    RepeatOnce(s.vault.versions, s.vault.versions);
    for i := 0 to |events|
      invariant s.Valid() && s.Now() == After(env, policy, m, events, i)
      invariant s.vault.clash.None? <==> old(s.vault.clash).None? && Clean(env, policy, m, events, i)
      invariant old(s.vault.versions) <= s.vault.versions
      invariant |s.vault.versions| - |old(s.vault.versions)| == |s.tips| - |old(s.tips)|
      invariant s.vault.clash.None? && LastFiles(old(s.vault.versions)).Some? ==>
                Repeat(s.vault.versions, old(s.vault.versions))
    {
      TipsGrow(env, policy, s.Now(), events[i]);
      RepeatOnce(s.vault.versions, old(s.vault.versions));
      match events[i] {
        case Scheduled(message, now) => var _ := s.RunTick(message, now);
        case Forced(message, now) => var _ := s.ForceAutoSnapshot(message, now);
      }
      CleanStep(env, policy, m, events, i);
    }
  }

  lemma CleanStep(env: Env, policy: Policy, m: Machine, events: seq<Event>, n: nat)
    requires TextsFit(events) && n < |events|
    ensures Clean(env, policy, m, events, n + 1) <==>
              Clean(env, policy, m, events, n) && Cleanly(env, policy, After(env, policy, m, events, n), events[n])
  {
    hide Cleanly, After, TextFits;
  }

  /** The list goes on from `before` with versions that are whole and have the files of its last one. */
  ghost predicate Repeat(vs: seq<Version>, before: seq<Version>) {
    && before <= vs && LastFiles(vs) == LastFiles(before)
    && forall i :: |before| <= i < |vs| ==> vs[i].whole && vs[i].files == LastFiles(before)
  }

  lemma RepeatOnce(vs: seq<Version>, before: seq<Version>)
    ensures Repeat(before, before)
    ensures Repeat(vs, before) && LastFiles(before).Some? ==>
              LastFiles(vs).Some? && forall c :: Repeat(vs + [Version(c, true, LastFiles(vs))], before)
  {
  }

  lemma TipsGrow(env: Env, policy: Policy, m: Machine, e: Event)
    requires TextFits(e.message)
    ensures |Next(env, policy, m, e).tips| == |m.tips| + (if Takes(env, policy, m, e) then 1 else 0)
  {
    hide Takes, Collected, SnappedDisk;
  }
}
