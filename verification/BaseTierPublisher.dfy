/**
  The base-tier publisher: any number of processes share an epoch file, a counter file, a lock file and the
  cached projection, and may crash between any two file operations. The clock is whatever it reads.
 */
module BaseTierPublisher {
  import opened Prelude

  type Pid = nat

  const MAX_SAFE_INTEGER := 9007199254740991

  /** The epoch file; an exclusive create leaves it empty until its text is written. */
  datatype EpochFile = NoEpoch | EpochText(text: string)

  /** The lock file; an exclusive create leaves it without a token until the token is written. */
  datatype LockFile = NoLock | Lock(token: Option<Pid>)

  /** What JSON.parse makes of the counter file; None where a field is not usable. */
  datatype CounterFile = NoCounter | Garbage | Counter(epoch: Option<string>, counter: Option<int>)

  datatype Stamp = Stamp(epoch: string, counter: int)

  /** Where a process is between two file operations. */
  datatype Pc =
    | Start
    | EpochCreated(mine: string)          // created the epoch file, text not yet written
    | Locking(epoch: string)              // in the lock's retry loop
    | LockCreated(epoch: string)          // created the lock file, token not yet written
    | Reading(epoch: string)              // holds the lock
    | Writing(next: Stamp)                // computed its counter
    | Publishing(next: Stamp)             // counter persisted
    | Releasing                           // about to read the lock file
    | Removing                            // found its own token
    | Finished
    | Failed
    | Crashed

  /** The shared files, every process, and what was published so far, in order. */
  datatype World = World(
    epochFile: EpochFile,
    lockFile: LockFile,
    counterFile: CounterFile,
    pcs: Pid -> Pc,
    published: seq<Stamp>)

  function Move(w: World, p: Pid, pc: Pc): World {
    w.(pcs := (q: Pid) => if q == p then pc else w.pcs(q))
  }

  /** The file is no JSON, or records no usable counter for this epoch. */
  predicate Invalid(file: CounterFile, epoch: string) {
    || file.Garbage?
    || (file.Counter? && file.epoch == Some(epoch) && (file.counter.None? || file.counter.value < 0))
  }

  /** The number is not behind the clock and past the counter recorded for this epoch. */
  predicate Acceptable(file: CounterFile, epoch: string, wallSecond: int, n: int) {
    n >= wallSecond && (file.Counter? && file.epoch == Some(epoch) && file.counter.Some? ==> n > file.counter.value)
  }

  /**
    The next counter is the least acceptable number; None where the code throws: the file is invalid for this
    epoch, or the least acceptable number is not a safe integer.
   */
  function NextCounter(file: CounterFile, epoch: string, wallSecond: int): (r: Option<int>)
    ensures r.Some? ==> !Invalid(file, epoch) && Acceptable(file, epoch, wallSecond, r.value) && Safe(r.value).Some?
    ensures r.Some? ==> forall n :: Acceptable(file, epoch, wallSecond, n) ==> r.value <= n
    ensures r.None? ==> Invalid(file, epoch) || wallSecond < -MAX_SAFE_INTEGER ||
                        forall n :: Acceptable(file, epoch, wallSecond, n) ==> n > MAX_SAFE_INTEGER
  {
    match file
    case NoCounter => Safe(wallSecond)
    case Garbage => None
    case Counter(e, c) =>
      if e != Some(epoch) then Safe(wallSecond)
      else if c.None? || c.value < 0 then None
      else Safe(if wallSecond > c.value + 1 then wallSecond else c.value + 1)
  }

  function Safe(n: int): Option<int> {
    if -MAX_SAFE_INTEGER <= n <= MAX_SAFE_INTEGER then Some(n) else None
  }

  datatype Action =
    | MintEpoch(p: Pid, mint: string)     // exclusive create of the epoch file with a fresh UUID, or read what is there
    | WriteEpoch(p: Pid)
    | TryLock(p: Pid)
    | GiveUp(p: Pid)                      // the five-second deadline passed
    | WriteToken(p: Pid)
    | Compute(p: Pid, wallSecond: int)
    | Persist(p: Pid)
    | Publish(p: Pid)
    | PublishFails(p: Pid)                // the cache could not be written; the finally block still releases
    | CheckToken(p: Pid)
    | RemoveLock(p: Pid)
    | Crash(p: Pid)

  /** One file operation of one process; an action that does not apply changes nothing. */
  function Next(w: World, a: Action): World {
    match a
    case MintEpoch(p, mint) =>
      if !w.pcs(p).Start? || mint == "" then w
      else (match w.epochFile
            case NoEpoch => Move(w, p, EpochCreated(mint)).(epochFile := EpochText(""))
            case EpochText(text) => Move(w, p, if text == "" then Failed else Locking(text)))
    case WriteEpoch(p) =>
      if w.pcs(p).EpochCreated?
      then Move(w, p, Locking(w.pcs(p).mine)).(epochFile := EpochText(w.pcs(p).mine)) else w
    case TryLock(p) =>
      if w.pcs(p).Locking? && w.lockFile.NoLock?
      then Move(w, p, LockCreated(w.pcs(p).epoch)).(lockFile := Lock(None)) else w
    case GiveUp(p) =>
      if w.pcs(p).Locking? && w.lockFile.Lock? then Move(w, p, Failed) else w
    case WriteToken(p) =>
      if w.pcs(p).LockCreated? then Move(w, p, Reading(w.pcs(p).epoch)).(lockFile := Lock(Some(p))) else w
    case Compute(p, wallSecond) =>
      if !w.pcs(p).Reading? then w
      else
        var epoch := w.pcs(p).epoch;
        (match NextCounter(w.counterFile, epoch, wallSecond)
         case None => Move(w, p, Releasing)
         case Some(c) => Move(w, p, Writing(Stamp(epoch, c))))
    case Persist(p) =>
      if w.pcs(p).Writing?
      then Move(w, p, Publishing(w.pcs(p).next)).(
             counterFile := Counter(Some(w.pcs(p).next.epoch), Some(w.pcs(p).next.counter))) else w
    case Publish(p) =>
      if w.pcs(p).Publishing?
      then Move(w, p, Releasing).(published := w.published + [w.pcs(p).next]) else w
    case PublishFails(p) =>
      if w.pcs(p).Publishing? || w.pcs(p).Writing? then Move(w, p, Releasing) else w
    case CheckToken(p) =>
      if w.pcs(p).Releasing?
      then Move(w, p, if w.lockFile == Lock(Some(p)) then Removing else Finished) else w
    case RemoveLock(p) =>
      if w.pcs(p).Removing? then Move(w, p, Finished).(lockFile := NoLock) else w
    case Crash(p) => Move(w, p, Crashed)
  }

  /** Any schedule, from any world. */
  function RunFrom(w: World, actions: seq<Action>): World
    decreases |actions|
  {
    if actions == [] then w else Next(RunFrom(w, Init(actions)), Last(actions))
  }

  /** Any files that earlier boots left behind, with nobody running. */
  function Boot(epochFile: EpochFile, lockFile: LockFile, counterFile: CounterFile): World {
    World(epochFile, lockFile, counterFile, (p: Pid) => Start, [])
  }

  // ---- invariant ----------------------------------------------------------------------------------

  /** Between creating the lock file and removing it. */
  predicate Holds(pc: Pc) {
    pc.LockCreated? || pc.Reading? || pc.Writing? || pc.Publishing? || pc.Releasing? || pc.Removing?
  }

  /** The epoch a process has settled on, if it has. */
  function EpochOf(pc: Pc): Option<string> {
    match pc
    case Locking(e) => Some(e)
    case LockCreated(e) => Some(e)
    case Reading(e) => Some(e)
    case Writing(s) => Some(s.epoch)
    case Publishing(s) => Some(s.epoch)
    case _ => None
  }

  /** At most one process holds the lock, and the lock file says so. */
  ghost predicate Exclusive(w: World) {
    && (forall p, q :: Holds(w.pcs(p)) && Holds(w.pcs(q)) ==> p == q)
    && (forall p :: Holds(w.pcs(p)) ==> w.lockFile == Lock(if w.pcs(p).LockCreated? then None else Some(p)))
  }

  /** Everyone who has an epoch has the one in the file, and the file is only empty while its creator writes it. */
  ghost predicate OneEpoch(w: World) {
    && (forall p :: EpochOf(w.pcs(p)).Some? ==> w.epochFile == EpochText(EpochOf(w.pcs(p)).value))
    && (forall p :: w.pcs(p).EpochCreated? ==> w.epochFile == EpochText("") && w.pcs(p).mine != "")
    && (forall p, q :: w.pcs(p).EpochCreated? && w.pcs(q).EpochCreated? ==> p == q)
    && (forall p :: EpochOf(w.pcs(p)) != Some(""))
    && (forall i :: 0 <= i < |w.published| ==> w.epochFile == EpochText(w.published[i].epoch) && w.published[i].epoch != "")
  }

  /** The counter file is never behind what was published, and a computed counter is ahead of it. */
  ghost predicate Ahead(w: World) {
    && (w.published != [] ==>
          && w.counterFile.Counter?
          && w.counterFile.epoch == Some(Last(w.published).epoch)
          && w.counterFile.counter.Some? && w.counterFile.counter.value >= Last(w.published).counter)
    && (forall p :: w.pcs(p).Writing? && w.published != [] ==> w.pcs(p).next.counter > Last(w.published).counter)
    && (forall p :: w.pcs(p).Publishing? ==>
          w.counterFile == Counter(Some(w.pcs(p).next.epoch), Some(w.pcs(p).next.counter))
          && (w.published != [] ==> w.pcs(p).next.counter > Last(w.published).counter))
  }

  ghost predicate StrictlyIncreasing(s: seq<Stamp>) {
    forall i, j :: 0 <= i < j < |s| ==> s[i].counter < s[j].counter
  }

  ghost predicate Inv(w: World) {
    Exclusive(w) && OneEpoch(w) && Ahead(w) && StrictlyIncreasing(w.published)
  }

  lemma ExclusiveStep(w: World, a: Action)
    requires Exclusive(w)
    ensures Exclusive(Next(w, a))
  {
    hide NextCounter, EpochOf;
  }

  lemma OneEpochStep(w: World, a: Action)
    requires OneEpoch(w) && Ahead(w)
    ensures OneEpoch(Next(w, a))
  {
    hide NextCounter, OneEpoch, Ahead;
    if a.MintEpoch? || a.WriteEpoch? {
      OneEpochFirst(w, a);
    } else if a.Publish? {
      OneEpochPublish(w, a.p);
    } else {
      OneEpochRest(w, a);
    }
  }

  lemma OneEpochFirst(w: World, a: Action)
    requires OneEpoch(w) && (a.MintEpoch? || a.WriteEpoch?)
    ensures OneEpoch(Next(w, a))
  {
  }

  lemma OneEpochPublish(w: World, p: Pid)
    requires OneEpoch(w)
    ensures OneEpoch(Next(w, Publish(p)))
  {
    assert w.pcs(p).Publishing? ==> EpochOf(w.pcs(p)) == Some(w.pcs(p).next.epoch);
  }

  lemma OneEpochRest(w: World, a: Action)
    requires OneEpoch(w) && !a.MintEpoch? && !a.WriteEpoch? && !a.Publish?
    ensures OneEpoch(Next(w, a))
  {
    hide NextCounter;
  }

  /** A computed counter is past everything published. */
  lemma NextCounterAhead(w: World, p: Pid, wallSecond: int)
    requires OneEpoch(w) && Ahead(w) && w.pcs(p).Reading?
    ensures var c := NextCounter(w.counterFile, w.pcs(p).epoch, wallSecond);
            c.Some? && w.published != [] ==> c.value > Last(w.published).counter
  {
    assert EpochOf(w.pcs(p)) == Some(w.pcs(p).epoch);
  }

  lemma AheadStep(w: World, a: Action)
    requires Inv(w)
    ensures Ahead(Next(w, a)) && StrictlyIncreasing(Next(w, a).published)
  {
    hide Next, Inv, Ahead;
    match a
    case Compute(p, t) => AheadCompute(w, p, t);
    case Persist(p) => AheadPersist(w, p);
    case Publish(p) => AheadPublish(w, p);
    case _ => AheadRest(w, a);
  }

  lemma AheadCompute(w: World, p: Pid, wallSecond: int)
    requires Inv(w)
    ensures Ahead(Next(w, Compute(p, wallSecond))) && StrictlyIncreasing(Next(w, Compute(p, wallSecond)).published)
  {
    hide NextCounter;
    if w.pcs(p).Reading? {
      NextCounterAhead(w, p, wallSecond);
    }
  }

  lemma AheadPersist(w: World, p: Pid)
    requires Inv(w)
    ensures Ahead(Next(w, Persist(p))) && StrictlyIncreasing(Next(w, Persist(p)).published)
  {
    if w.pcs(p).Writing? {
      assert Holds(w.pcs(p));
      assert EpochOf(w.pcs(p)) == Some(w.pcs(p).next.epoch);
    }
  }

  lemma AheadPublish(w: World, p: Pid)
    requires Inv(w)
    ensures Ahead(Next(w, Publish(p))) && StrictlyIncreasing(Next(w, Publish(p)).published)
  {
    if w.pcs(p).Publishing? {
      assert Holds(w.pcs(p));
      var log := w.published;
      assert forall i :: 0 <= i < |log| ==> log[i].counter <= Last(log).counter;
    }
  }

  lemma AheadRest(w: World, a: Action)
    requires Inv(w) && !a.Compute? && !a.Persist? && !a.Publish?
    ensures Ahead(Next(w, a)) && StrictlyIncreasing(Next(w, a).published)
  {
    hide Exclusive, OneEpoch;
  }

  lemma {:induction false} RunInvariant(w: World, actions: seq<Action>)
    requires Inv(w)
    ensures Inv(RunFrom(w, actions))
    decreases |actions|
  {
    if actions != [] {
      hide Next, Exclusive, OneEpoch, Ahead;
      RunInvariant(w, Init(actions));
      var before, a := RunFrom(w, Init(actions)), Last(actions);
      ExclusiveStep(before, a);
      OneEpochStep(before, a);
      AheadStep(before, a);
    }
  }

  /**
    For any number of racing or crashing processes, any clock and any files left by earlier boots: published
    counters strictly increase in publication order, and everything published carries the one epoch.
   */
  lemma PublishedCountersIncrease(epochFile: EpochFile, lockFile: LockFile, counterFile: CounterFile, actions: seq<Action>)
    ensures var log := RunFrom(Boot(epochFile, lockFile, counterFile), actions).published;
            && (forall i, j :: 0 <= i < j < |log| ==> log[i].counter < log[j].counter)
            && forall i, j :: 0 <= i < j < |log| ==> log[i].epoch == log[j].epoch
  {
    RunInvariant(Boot(epochFile, lockFile, counterFile), actions);
  }

  // ---- what fails, fails cleanly -----------------------------------------------------------------------

  /** A process whose publication fails gives the lock back and has published nothing. */
  lemma FailureReleases(w: World, p: Pid)
    requires Inv(w) && (w.pcs(p).Publishing? || w.pcs(p).Writing?)
    ensures var w' := RunFrom(w, [PublishFails(p), CheckToken(p), RemoveLock(p)]);
            && w'.lockFile == NoLock && w'.pcs(p) == Finished && w'.published == w.published
            && w'.counterFile == w.counterFile && w'.epochFile == w.epochFile
  {
    hide NextCounter, OneEpoch, Ahead;
    assert Holds(w.pcs(p));
    var steps := [PublishFails(p), CheckToken(p), RemoveLock(p)];
    assert Init(steps) == [PublishFails(p), CheckToken(p)] && Init(Init(steps)) == [PublishFails(p)];
    RunOne(w, PublishFails(p));
    assert RunFrom(w, Init(steps)) == Next(Next(w, PublishFails(p)), CheckToken(p));
  }

  /** A process that has waited too long for a lock that is there fails, and changes nothing else. */
  lemma WaiterGivesUp(w: World, p: Pid)
    requires w.pcs(p).Locking? && w.lockFile.Lock?
    ensures var w' := Next(w, GiveUp(p));
            w'.pcs(p) == Failed && w'.lockFile == w.lockFile && w'.published == w.published
            && forall q :: q != p ==> w'.pcs(q) == w.pcs(q)
  {
  }

  // ---- where a published counter comes from ----------------------------------------------------------

  /** The counter is the clock's second, or one past what the file records for the epoch if that is larger. */
  ghost predicate ComputedFrom(file: CounterFile, wallSecond: int, s: Stamp) {
    match file
    case NoCounter => s.counter == wallSecond
    case Garbage => false
    case Counter(epoch, recorded) =>
      if epoch != Some(s.epoch) then s.counter == wallSecond
      else
        && recorded.Some? && s.counter >= wallSecond && s.counter >= recorded.value + 1
        && (s.counter == wallSecond || s.counter == recorded.value + 1)
  }

  /** Action n of the run reads the clock as t, and what it finds in the counter file gives the stamp. */
  ghost predicate ComputedAt(w: World, actions: seq<Action>, n: nat, p: Pid, t: int, s: Stamp) {
    n < |actions| && actions[n] == Compute(p, t) && ComputedFrom(RunFrom(w, actions[..n]).counterFile, t, s)
  }

  /** p computed the stamp in the first m actions. */
  ghost predicate Computed(w: World, actions: seq<Action>, m: nat, p: Pid, s: Stamp) {
    exists n: nat, t :: n < m && ComputedAt(w, actions, n, p, t, s)
  }

  /** Action m publishes the stamp as entry k; the counter file records it by then. */
  ghost predicate PublishedAt(w: World, actions: seq<Action>, m: nat, p: Pid, k: nat, s: Stamp) {
    && m < |actions| && actions[m] == Publish(p)
    && var before := RunFrom(w, actions[..m]);
       && |before.published| == k && RunFrom(w, actions[..m + 1]).published == before.published + [s]
       && before.counterFile == Counter(Some(s.epoch), Some(s.counter))
  }

  ghost predicate FullyTraced(w: World, actions: seq<Action>, k: nat, s: Stamp) {
    exists m: nat, p :: PublishedAt(w, actions, m, p, k, s) && Computed(w, actions, m, p, s)
  }

  /** Every stamp in hand, and every stamp published since the start, has been computed like that. */
  ghost predicate Traced(w: World, actions: seq<Action>) {
    var now := RunFrom(w, actions);
    && (forall p :: PastComputing(now.pcs(p)) ==> Computed(w, actions, |actions|, p, now.pcs(p).next))
    && |now.published| >= |w.published|
    && forall k :: |w.published| <= k < |now.published| ==> FullyTraced(w, actions, k, now.published[k])
  }

  lemma ComputedStays(w: World, actions: seq<Action>, a: Action, m: nat, p: Pid, s: Stamp)
    requires m <= |actions| && Computed(w, actions, m, p, s)
    ensures Computed(w, actions + [a], m, p, s)
  {
    var n: nat, t :| n < m && ComputedAt(w, actions, n, p, t, s);
    assert (actions + [a])[..n] == actions[..n];
    assert ComputedAt(w, actions + [a], n, p, t, s);
  }

  lemma FullyTracedStays(w: World, actions: seq<Action>, a: Action, k: nat, s: Stamp)
    requires FullyTraced(w, actions, k, s)
    ensures FullyTraced(w, actions + [a], k, s)
  {
    var m: nat, p :| PublishedAt(w, actions, m, p, k, s) && Computed(w, actions, m, p, s);
    assert (actions + [a])[..m] == actions[..m] && (actions + [a])[..m + 1] == actions[..m + 1];
    ComputedStays(w, actions, a, m, p, s);
    assert PublishedAt(w, actions + [a], m, p, k, s);
  }

  /** A computation uses the clock it has just read. */
  lemma ComputeUsesTheClock(w: World, p: Pid, t: int)
    ensures var pc := Next(w, Compute(p, t)).pcs(p);
            w.pcs(p).Reading? && pc.Writing? ==> ComputedFrom(w.counterFile, t, pc.next) && pc.next.epoch == w.pcs(p).epoch
  {
  }

  /** Which stamp a process has in hand changes only when it computes one. */
  lemma HandsChange(w: World, a: Action, q: Pid)
    ensures var pc, pc' := w.pcs(q), Next(w, a).pcs(q);
            PastComputing(pc') ==>
              (PastComputing(pc) && pc'.next == pc.next) || (pc.Reading? && a.Compute? && a.p == q && pc'.Writing?)
  {
    hide NextCounter;
  }

  lemma PublicationGrows(w: World, a: Action)
    ensures var w' := Next(w, a);
            if a.Publish? && w.pcs(a.p).Publishing? then w'.published == w.published + [w.pcs(a.p).next]
            else w'.published == w.published
  {
    hide NextCounter;
  }

  lemma TracedHands(w: World, actions: seq<Action>, a: Action, q: Pid)
    requires Traced(w, actions)
    ensures var pc := RunFrom(w, actions + [a]).pcs(q);
            PastComputing(pc) ==> Computed(w, actions + [a], |actions| + 1, q, pc.next)
  {
    hide Next, ComputedFrom;
    var now, all := RunFrom(w, actions), actions + [a];
    assert Init(all) == actions && all[..|actions|] == actions;
    HandsChange(now, a, q);
    var pc := Next(now, a).pcs(q);
    if PastComputing(pc) {
      if PastComputing(now.pcs(q)) && pc.next == now.pcs(q).next {
        ComputedStays(w, actions, a, |actions|, q, pc.next);
      } else {
        ComputeUsesTheClock(now, q, a.wallSecond);
        assert ComputedAt(w, all, |actions|, q, a.wallSecond, pc.next);
      }
    }
  }

  lemma TracedStep(w: World, actions: seq<Action>, a: Action)
    requires Inv(w) && Traced(w, actions)
    ensures Traced(w, actions + [a])
  {
    hide Next, ComputedAt, Computed, PublishedAt;
    var now, all := RunFrom(w, actions), actions + [a];
    assert Init(all) == actions;
    RunInvariant(w, actions);
    PublicationGrows(now, a);
    var next := RunFrom(w, all);
    forall q | PastComputing(next.pcs(q))
      ensures Computed(w, all, |all|, q, next.pcs(q).next)
    {
      TracedHands(w, actions, a, q);
    }
    forall k | |w.published| <= k < |next.published|
      ensures FullyTraced(w, all, k, next.published[k])
    {
      if k < |now.published| {
        FullyTracedStays(w, actions, a, k, now.published[k]);
      } else {
        TracedNow(w, actions, a);
      }
    }
  }

  lemma TracedNow(w: World, actions: seq<Action>, a: Action)
    requires Inv(w) && Traced(w, actions) && a.Publish? && RunFrom(w, actions).pcs(a.p).Publishing?
    ensures var now := RunFrom(w, actions);
            FullyTraced(w, actions + [a], |now.published|, now.pcs(a.p).next)
  {
    hide Next, ComputedAt, Computed;
    var now, all := RunFrom(w, actions), actions + [a];
    var s := now.pcs(a.p).next;
    RunInvariant(w, actions);
    PublicationGrows(now, a);
    assert Init(all) == actions && all[..|actions|] == actions && all[..|actions| + 1] == all;
    ComputedStays(w, actions, a, |actions|, a.p, s);
    assert PublishedAt(w, all, |actions|, a.p, |now.published|, s);
  }

  lemma {:induction false} RunIsTraced(w: World, actions: seq<Action>)
    requires Inv(w) && forall p :: !PastComputing(w.pcs(p))
    ensures Traced(w, actions)
    decreases |actions|
  {
    if actions != [] {
      hide Inv, Traced;
      RunIsTraced(w, Init(actions));
      TracedStep(w, Init(actions), Last(actions));
      assert Init(actions) + [Last(actions)] == actions;
    }
  }

  /**
    Every published stamp was computed by its publisher earlier in the run, from the clock as it read then and
    from the counter file as it was then: at least the clock's second, one past what the file recorded for
    the epoch if that is larger, and written to the file before it was published.
   */
  lemma EveryStampIsComputed(epochFile: EpochFile, lockFile: LockFile, counterFile: CounterFile, actions: seq<Action>, k: nat)
    requires k < |RunFrom(Boot(epochFile, lockFile, counterFile), actions).published|
    ensures var boot := Boot(epochFile, lockFile, counterFile);
            FullyTraced(boot, actions, k, RunFrom(boot, actions).published[k])
  {
    hide RunFrom, FullyTraced, Inv;
    BootInv(epochFile, lockFile, counterFile);
    BootHasNothing(epochFile, lockFile, counterFile);
    RunIsTraced(Boot(epochFile, lockFile, counterFile), actions);
  }

  lemma BootHasNothing(epochFile: EpochFile, lockFile: LockFile, counterFile: CounterFile)
    ensures var boot := Boot(epochFile, lockFile, counterFile);
            boot.published == [] && forall p :: !PastComputing(boot.pcs(p))
  {
  }

  /** All processes that get past the epoch file agree on its epoch, whoever created it. */
  lemma FirstPublishersAgree(epochFile: EpochFile, lockFile: LockFile, counterFile: CounterFile, actions: seq<Action>, p: Pid, q: Pid)
    ensures var w := RunFrom(Boot(epochFile, lockFile, counterFile), actions);
            EpochOf(w.pcs(p)).Some? && EpochOf(w.pcs(q)).Some? ==>
              EpochOf(w.pcs(p)) == EpochOf(w.pcs(q)) && w.epochFile == EpochText(EpochOf(w.pcs(p)).value)
    ensures var w := RunFrom(Boot(epochFile, lockFile, counterFile), actions);
            Holds(w.pcs(p)) && Holds(w.pcs(q)) ==> p == q
  {
    RunInvariant(Boot(epochFile, lockFile, counterFile), actions);
  }

  // ---- when nothing can be published any more -----------------------------------------------------

  /** The lock file is there and nobody who would remove it is. */
  ghost predicate Orphaned(w: World) {
    w.lockFile.Lock? && forall p :: !Holds(w.pcs(p))
  }

  /** The epoch file is there without a text, and nobody who would write it is. */
  ghost predicate EpochLost(w: World) {
    w.epochFile == EpochText("") && forall p :: !w.pcs(p).EpochCreated?
  }

  predicate PastComputing(pc: Pc) {
    pc.Writing? || pc.Publishing?
  }

  /** The epoch everybody has, or will have once its creator has written it. */
  ghost predicate EpochWillBe(w: World, e: string) {
    || (w.epochFile == EpochText(e) && e != "")
    || exists p :: w.pcs(p) == EpochCreated(e)
  }

  /** No counter can be computed for the epoch: the file is invalid for it, or used up. */
  predicate Unusable(file: CounterFile, epoch: string) {
    Invalid(file, epoch) || (file.Counter? && file.epoch == Some(epoch) && file.counter.value >= MAX_SAFE_INTEGER)
  }

  /** The counter file is of no use to the settled epoch, and nobody has computed a counter already. */
  ghost predicate CounterLost(w: World) {
    && (forall p :: !PastComputing(w.pcs(p)))
    && (w.counterFile.Garbage? || exists e :: EpochWillBe(w, e) && Unusable(w.counterFile, e))
  }

  ghost predicate Stuck(w: World) {
    Orphaned(w) || EpochLost(w) || CounterLost(w)
  }

  lemma OrphanedStep(w: World, a: Action)
    requires Orphaned(w)
    ensures Orphaned(Next(w, a)) && Next(w, a).published == w.published
  {
    hide NextCounter;
  }

  lemma EpochLostStep(w: World, a: Action)
    requires EpochLost(w) && OneEpoch(w)
    ensures EpochLost(Next(w, a)) && Next(w, a).published == w.published
  {
    hide NextCounter;
    forall p
      ensures EpochOf(w.pcs(p)).None?
    {
    }
    assert forall p :: EpochOf(w.pcs(p)).None? ==> !w.pcs(p).Publishing?;
  }

  /** An unusable counter file makes every computation throw. */
  lemma NoCounterComputed(file: CounterFile, epoch: string, wallSecond: int)
    ensures Unusable(file, epoch) ==> NextCounter(file, epoch, wallSecond).None?
  {
  }

  /** Whoever reads the counter file reads it for the epoch everybody has. */
  lemma ReadersAgree(w: World, p: Pid, e: string)
    requires OneEpoch(w) && w.pcs(p).Reading? && EpochWillBe(w, e)
    ensures w.pcs(p).epoch == e
  {
    assert EpochOf(w.pcs(p)) == Some(w.pcs(p).epoch);
  }

  lemma ComputeThrows(w: World, p: Pid, wallSecond: int)
    requires CounterLost(w) && OneEpoch(w) && w.pcs(p).Reading?
    ensures Next(w, Compute(p, wallSecond)) == Move(w, p, Releasing)
  {
    hide NextCounter, OneEpoch, EpochWillBe;
    var e := w.pcs(p).epoch;
    if !w.counterFile.Garbage? {
      var e' :| EpochWillBe(w, e') && Unusable(w.counterFile, e');
      ReadersAgree(w, p, e');
    }
    NoCounterComputed(w.counterFile, e, wallSecond);
    assert Unusable(w.counterFile, e);
  }

  /** The settled epoch stays, unless its creator crashes before writing it. */
  lemma EpochStays(w: World, a: Action, e: string)
    requires OneEpoch(w) && EpochWillBe(w, e)
    ensures EpochWillBe(Next(w, a), e) || EpochLost(Next(w, a))
  {
    hide NextCounter;
    if p :| w.pcs(p) == EpochCreated(e) {
      assert a != WriteEpoch(p) && a != Crash(p) ==> Next(w, a).pcs(p) == EpochCreated(e);
      assert a == WriteEpoch(p) ==> Next(w, a).epochFile == EpochText(e);
    }
  }

  lemma NobodyComputes(w: World, a: Action)
    requires CounterLost(w) && OneEpoch(w)
    ensures forall p :: !PastComputing(Next(w, a).pcs(p))
    ensures Next(w, a).counterFile == w.counterFile && Next(w, a).published == w.published
  {
    hide NextCounter, OneEpoch, EpochWillBe, Unusable;
    match a
    case Compute(p, wallSecond) =>
      if w.pcs(p).Reading? {
        ComputeThrows(w, p, wallSecond);
      }
    case _ =>
      assert forall p :: !w.pcs(p).Writing? && !w.pcs(p).Publishing?;
  }

  lemma CounterLostStep(w: World, a: Action)
    requires CounterLost(w) && OneEpoch(w)
    ensures CounterLost(Next(w, a)) || EpochLost(Next(w, a))
    ensures Next(w, a).published == w.published
  {
    hide Next, OneEpoch, EpochWillBe, Unusable, EpochLost;
    NobodyComputes(w, a);
    if !w.counterFile.Garbage? {
      var e :| EpochWillBe(w, e) && Unusable(w.counterFile, e);
      EpochStays(w, a, e);
    }
  }

  /** Once stuck, nothing is ever published again, whatever is tried. */
  lemma {:induction false} StuckForever(w: World, actions: seq<Action>)
    requires Inv(w) && Stuck(w)
    ensures Stuck(RunFrom(w, actions)) && RunFrom(w, actions).published == w.published
    decreases |actions|
  {
    hide Next, Inv, Orphaned, EpochLost, CounterLost;
    if actions != [] {
      StuckForever(w, Init(actions));
      RunInvariant(w, Init(actions));
      StuckStep(RunFrom(w, Init(actions)), Last(actions));
    }
  }

  lemma StuckStep(w: World, a: Action)
    requires Inv(w) && Stuck(w)
    ensures Stuck(Next(w, a)) && Next(w, a).published == w.published
  {
    hide Next, Exclusive, OneEpoch, Ahead, Orphaned, EpochLost, CounterLost;
    if Orphaned(w) {
      OrphanedStep(w, a);
    } else if EpochLost(w) {
      EpochLostStep(w, a);
    } else {
      CounterLostStep(w, a);
    }
  }

  // ---- and when it can -----------------------------------------------------------------------------

  /** Processes from n on have not started. */
  ghost predicate FreshFrom(w: World, n: Pid) {
    forall p :: p >= n ==> w.pcs(p).Start?
  }

  lemma FreshStep(w: World, a: Action, n: Pid)
    requires FreshFrom(w, n)
    ensures FreshFrom(Next(w, a), if a.p >= n then a.p + 1 else n)
  {
    hide NextCounter;
  }

  lemma {:induction false} SomeFresh(w: World, actions: seq<Action>, n: Pid) returns (m: Pid)
    requires FreshFrom(w, n)
    ensures FreshFrom(RunFrom(w, actions), m)
    decreases |actions|
  {
    m := n;
    if actions != [] {
      hide Next, FreshFrom;
      m := SomeFresh(w, Init(actions), n);
      FreshStep(RunFrom(w, Init(actions)), Last(actions), m);
      m := if Last(actions).p >= m then Last(actions).p + 1 else m;
    }
  }

  lemma {:induction false} RunConcat(w: World, a: seq<Action>, b: seq<Action>)
    ensures RunFrom(w, a + b) == RunFrom(RunFrom(w, a), b)
    decreases |b|
  {
    if b == [] {
      assert a + b == a;
    } else {
      hide Next;
      assert Init(a + b) == a + Init(b) && Last(a + b) == Last(b);
      RunConcat(w, a, Init(b));
    }
  }

  lemma RunOne(w: World, a: Action)
    ensures RunFrom(w, [a]) == Next(w, a)
  {
    hide Next;
    assert Init([a]) == [];
  }

  /** One more entry has been published. */
  ghost predicate PublishesMore(w: World, actions: seq<Action>) {
    |RunFrom(w, actions).published| == |w.published| + 1
  }

  lemma FirstThen(w: World, a: Action, more: seq<Action>)
    requires Next(w, a).published == w.published && PublishesMore(Next(w, a), more)
    ensures PublishesMore(w, [a] + more)
  {
    hide Next;
    RunOne(w, a);
    RunConcat(w, [a], more);
  }

  lemma PublishNow(w: World, p: Pid) returns (more: seq<Action>)
    requires PastComputing(w.pcs(p))
    ensures PublishesMore(w, more)
  {
    if w.pcs(p).Publishing? {
      more := [Publish(p)];
      RunOne(w, Publish(p));
    } else {
      var w' := Next(w, Persist(p));
      RunOne(w', Publish(p));
      FirstThen(w, Persist(p), [Publish(p)]);
      more := [Persist(p)] + [Publish(p)];
    }
  }

  lemma PublishFromReading(w: World, p: Pid) returns (more: seq<Action>)
    requires w.pcs(p).Reading? && !Unusable(w.counterFile, w.pcs(p).epoch)
    ensures PublishesMore(w, more)
  {
    var w' := Next(w, Compute(p, 0));
    assert PastComputing(w'.pcs(p));
    more := PublishNow(w', p);
    FirstThen(w, Compute(p, 0), more);
    more := [Compute(p, 0)] + more;
  }

  lemma PublishFromLocking(w: World, p: Pid) returns (more: seq<Action>)
    requires w.pcs(p).Locking? && w.lockFile.NoLock? && !Unusable(w.counterFile, w.pcs(p).epoch)
    ensures PublishesMore(w, more)
  {
    hide Unusable, PublishesMore;
    var w1 := Next(w, TryLock(p));
    var w2 := Next(w1, WriteToken(p));
    more := PublishFromReading(w2, p);
    FirstThen(w1, WriteToken(p), more);
    more := [WriteToken(p)] + more;
    FirstThen(w, TryLock(p), more);
    more := [TryLock(p)] + more;
  }

  /** With a free lock, a settled epoch and a usable counter file, a process that has not started can publish. */
  lemma PublishFresh(w: World, p: Pid, e: string) returns (more: seq<Action>)
    requires w.pcs(p).Start? && w.lockFile.NoLock? && w.epochFile == EpochText(e) && e != ""
    requires !Unusable(w.counterFile, e)
    ensures PublishesMore(w, more)
  {
    hide Unusable, PublishesMore;
    var a := MintEpoch(p, "mint");
    more := PublishFromLocking(Next(w, a), p);
    FirstThen(w, a, more);
    more := [a] + more;
  }

  /** A holder that has not computed yet publishes itself; one that is releasing lets a fresh process publish. */
  lemma PublishWithHolder(w: World, p: Pid, n: Pid, e: string) returns (more: seq<Action>)
    requires Inv(w) && Holds(w.pcs(p)) && FreshFrom(w, n) && w.epochFile == EpochText(e) && e != ""
    requires !Unusable(w.counterFile, e)
    ensures PublishesMore(w, more)
  {
    hide Unusable, PublishesMore, Ahead;
    var pc := w.pcs(p);
    if PastComputing(pc) {
      more := PublishNow(w, p);
    } else if pc.Reading? {
      assert EpochOf(pc) == Some(pc.epoch);
      more := PublishFromReading(w, p);
    } else if pc.LockCreated? {
      assert EpochOf(pc) == Some(pc.epoch);
      more := PublishFromReading(Next(w, WriteToken(p)), p);
      FirstThen(w, WriteToken(p), more);
      more := [WriteToken(p)] + more;
    } else if pc.Removing? {
      more := PublishAfterRemoval(w, p, n, e);
    } else {
      more := PublishAfterRemoval(Next(w, CheckToken(p)), p, n, e);
      FirstThen(w, CheckToken(p), more);
      more := [CheckToken(p)] + more;
    }
  }

  lemma PublishAfterRemoval(w: World, p: Pid, n: Pid, e: string) returns (more: seq<Action>)
    requires w.pcs(p).Removing? && FreshFrom(w, n) && w.epochFile == EpochText(e) && e != ""
    requires !Unusable(w.counterFile, e)
    ensures PublishesMore(w, more)
  {
    hide Unusable, PublishesMore;
    assert w.pcs(n).Start?;
    more := PublishFresh(Next(w, RemoveLock(p)), n, e);
    FirstThen(w, RemoveLock(p), more);
    more := [RemoveLock(p)] + more;
  }

  lemma PublishWithEpoch(w: World, n: Pid, e: string) returns (more: seq<Action>)
    requires Inv(w) && FreshFrom(w, n) && !Orphaned(w) && w.epochFile == EpochText(e) && e != ""
    requires !Unusable(w.counterFile, e)
    ensures PublishesMore(w, more)
  {
    hide Unusable, PublishesMore, Inv;
    if p :| Holds(w.pcs(p)) {
      more := PublishWithHolder(w, p, n, e);
    } else {
      assert w.pcs(n).Start?;
      more := PublishFresh(w, n, e);
    }
  }

  /** An epoch's creator writes its text, then as before. */
  lemma PublishAfterEpoch(w: World, p: Pid, n: Pid) returns (more: seq<Action>)
    requires Inv(w) && FreshFrom(w, n) && !Orphaned(w) && w.pcs(p).EpochCreated? && w.pcs(p).mine != ""
    requires !Unusable(w.counterFile, w.pcs(p).mine)
    ensures PublishesMore(w, more)
  {
    hide Unusable, PublishesMore, Inv, NextCounter;
    var a := WriteEpoch(p);
    var w' := Next(w, a);
    RunOne(w, a);
    RunInvariant(w, [a]);
    assert FreshFrom(w', n);
    assert !Orphaned(w') by {
      if w.lockFile.Lock? {
        var q :| Holds(w.pcs(q));
        assert Holds(w'.pcs(q));
      }
    }
    more := PublishWithEpoch(w', n, w.pcs(p).mine);
    FirstThen(w, a, more);
    more := [a] + more;
  }

  /** A name other than a given one, for the epoch a first publisher mints. */
  function OtherThan(e: Option<string>): (m: string)
    ensures m != "" && e != Some(m)
  {
    if e == Some("a") then "b" else "a"
  }

  lemma PublishUnlessStuck(w: World, n: Pid) returns (more: seq<Action>)
    requires Inv(w) && FreshFrom(w, n) && !Stuck(w)
    ensures PublishesMore(w, more)
  {
    hide PublishesMore, Ahead, Exclusive;
    if p :| PastComputing(w.pcs(p)) {
      more := PublishNow(w, p);
    } else {
      match w.epochFile
      case NoEpoch =>
        var mint := OtherThan(if w.counterFile.Counter? then w.counterFile.epoch else None);
        var a := MintEpoch(n, mint);
        var w' := Next(w, a);
        NotOrphanedBy(w, n, mint);
        RunOne(w, a);
        RunInvariant(w, [a]);
        more := PublishAfterEpoch(w', n, n + 1);
        FirstThen(w, a, more);
        more := [a] + more;
      case EpochText(e) =>
        if e == "" {
          var p :| w.pcs(p).EpochCreated?;
          assert EpochWillBe(w, w.pcs(p).mine);
          more := PublishAfterEpoch(w, p, n);
        } else {
          assert EpochWillBe(w, e);
          more := PublishWithEpoch(w, n, e);
        }
    }
  }

  lemma NotOrphanedBy(w: World, n: Pid, mint: string)
    requires !Orphaned(w) && w.pcs(n).Start?
    ensures !Orphaned(Next(w, MintEpoch(n, mint)))
  {
    var w' := Next(w, MintEpoch(n, mint));
    if w.lockFile.Lock? {
      var q :| Holds(w.pcs(q));
      assert Holds(w'.pcs(q));
    }
  }

  /**
    In any world the processes can reach, another publication is reachable if and only if the lock is not left
    behind by its holder, the epoch file is not left without a text by its creator, and the counter file can be
    used for the epoch (or somebody has computed a counter already).
   */
  lemma PublishableIffNotStuck(epochFile: EpochFile, lockFile: LockFile, counterFile: CounterFile, actions: seq<Action>)
    ensures var w := RunFrom(Boot(epochFile, lockFile, counterFile), actions);
            (exists more :: |RunFrom(w, more).published| > |w.published|) <==> !Stuck(w)
  {
    hide Next, Inv, Stuck;
    var boot := Boot(epochFile, lockFile, counterFile);
    BootInv(epochFile, lockFile, counterFile);
    RunInvariant(boot, actions);
    var n := SomeFresh(boot, actions, 0);
    var w := RunFrom(boot, actions);
    if Stuck(w) {
      forall more
        ensures RunFrom(w, more).published == w.published
      {
        StuckForever(w, more);
      }
    } else {
      var more := PublishUnlessStuck(w, n);
      assert |RunFrom(w, more).published| > |w.published|;
    }
  }

  lemma BootInv(epochFile: EpochFile, lockFile: LockFile, counterFile: CounterFile)
    ensures Inv(Boot(epochFile, lockFile, counterFile)) && FreshFrom(Boot(epochFile, lockFile, counterFile), 0)
  {
  }

  /**
    A crash ends publication for good exactly at two points: between creating and removing the lock file, and
    between creating the epoch file and writing it.
   */
  lemma CrashSticksIff(w: World, p: Pid)
    requires Inv(w) && !Stuck(w)
    ensures Stuck(Next(w, Crash(p))) <==> Holds(w.pcs(p)) || w.pcs(p).EpochCreated?
  {
    hide Ahead, Unusable;
    var w' := Next(w, Crash(p));
    assert forall q :: q != p ==> w'.pcs(q) == w.pcs(q);
    if !Holds(w.pcs(p)) && !w.pcs(p).EpochCreated? {
      assert Orphaned(w') ==> Orphaned(w);
      assert EpochLost(w') ==> EpochLost(w);
      assert forall e :: EpochWillBe(w', e) ==> EpochWillBe(w, e);
      assert CounterLost(w') ==> CounterLost(w);
    }
  }
}
