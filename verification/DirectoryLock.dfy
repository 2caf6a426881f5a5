/**
 * src/output/directory-lock.ts: processes of one host that share a lock directory, one file-system
 * call per step. A process identifier is not used again, and tokens do not repeat.
 */
module DirectoryLock {
  import opened Base

  type Pid = nat
  type Token = nat

  datatype Owner = Owner(pid: Pid, token: Token)

  /** owner.json: missing, created by the process with that token but not yet written, or written. */
  datatype OwnerFile = Absent | Partial(token: Token) | Written(owner: Owner)

  /**
   * The lock directory. `instance` and `creator` name the mkdir that made it, `changes` counts the
   * changes to its entries and its owner file since; neither is visible to the program, `mtime` is.
   */
  datatype LockDir = LockDir(instance: nat, creator: Pid, changes: nat, mtime: nat, file: OwnerFile)

  /** What a process is about to do. */
  datatype Pc =
    | Outside
    | Made(instance: nat)
    | Opened(instance: nat, token: Token)
    | Operating(instance: nat, token: Token)
    | Checking(instance: nat, token: Token)
    | Unlinking(instance: nat, token: Token)
    | Leaving(instance: nat)
    | Blocked
    | Statted(instance: nat, changes: nat, mtime: nat)
    | Judging(instance: nat, changes: nat, mtime: nat, seen: Option<Owner>)
    | Rechecking(dead: Owner)
    | Removing(instance: nat, changes: nat)
    | Clearing(instance: nat, changes: nat)

  datatype State = State(
    lock: Option<LockDir>,
    pcs: map<Pid, Pc>,
    alive: set<Pid>,
    issued: map<Token, Pid>,
    nextInstance: nat,
    now: nat)

  datatype Event =
    | Start(p: Pid)
    | Mkdir(p: Pid)
    | OpenOwner(p: Pid, token: Token)
    | WriteOwner(p: Pid)
    | Finish(p: Pid)
    | CheckOwner(p: Pid)
    | ReleaseUnlink(p: Pid)
    | ReleaseRmdir(p: Pid)
    | Stat(p: Pid)
    | ReadOwner(p: Pid)
    | Judge(p: Pid)
    | Recheck(p: Pid)
    | RecoverUnlink(p: Pid)
    | RecoverRmdir(p: Pid)
    | Crash(p: Pid)
    | Tick

  const INITIAL := State(None, map[], {}, map[], 0, 0)

  /** What readLockOwner gives: a file that does not parse is no owner. */
  function OwnerOf(lock: Option<LockDir>): (owner: Option<Owner>)
  {
    if lock.Some? && lock.value.file.Written? then Some(lock.value.file.owner) else None
  }

  function Refile(lock: LockDir, file: OwnerFile, now: nat): LockDir
  {
    lock.(file := file, changes := lock.changes + 1, mtime := now)
  }

  /** unlink(owner.json): nothing happens when it is missing. */
  function Unlinked(lock: Option<LockDir>, now: nat): Option<LockDir>
  {
    if lock.Some? && !lock.value.file.Absent? then Some(Refile(lock.value, Absent, now)) else lock
  }

  /** rmdir(lock): refused while the directory has an entry. */
  function Rmdirred(lock: Option<LockDir>): Option<LockDir>
  {
    if lock.Some? && lock.value.file.Absent? then None else lock
  }

  predicate At(s: State, p: Pid)
  {
    p in s.alive && p in s.pcs
  }

  predicate Enabled(s: State, e: Event)
  {
    match e
    case Start(p) => p !in s.pcs
    case Mkdir(p) => At(s, p) && s.pcs[p].Outside?
    case OpenOwner(p, token) => At(s, p) && s.pcs[p].Made? && token !in s.issued
    case WriteOwner(p) => At(s, p) && s.pcs[p].Opened?
    case Finish(p) => At(s, p) && s.pcs[p].Operating?
    case CheckOwner(p) => At(s, p) && s.pcs[p].Checking?
    case ReleaseUnlink(p) => At(s, p) && s.pcs[p].Unlinking?
    case ReleaseRmdir(p) => At(s, p) && s.pcs[p].Leaving?
    case Stat(p) => At(s, p) && s.pcs[p].Blocked?
    case ReadOwner(p) => At(s, p) && s.pcs[p].Statted?
    case Judge(p) => At(s, p) && s.pcs[p].Judging?
    case Recheck(p) => At(s, p) && s.pcs[p].Rechecking?
    case RecoverUnlink(p) => At(s, p) && s.pcs[p].Removing?
    case RecoverRmdir(p) => At(s, p) && s.pcs[p].Clearing?
    case Crash(p) => At(s, p)
    case Tick => true
  }

  function Move(s: State, p: Pid, pc: Pc): State
  {
    s.(pcs := s.pcs[p := pc])
  }

  function Act(s: State, p: Pid, pc: Pc, lock: Option<LockDir>): State
  {
    s.(pcs := s.pcs[p := pc], lock := lock)
  }

  /** mkdir, and the contender's way into recovery. */
  function AfterMkdir(s: State, p: Pid): State
  {
    if s.lock.Some? then Move(s, p, Blocked)
    else
      s.(pcs := s.pcs[p := Made(s.nextInstance)],
         lock := Some(LockDir(s.nextInstance, p, 0, s.now, Absent)),
         nextInstance := s.nextInstance + 1)
  }

  /**
   * Creating owner.json. The directory may be gone, which fails the acquisition; an owner file that
   * is there already makes the writer clean up what it takes for its own lock and contend again.
   */
  function AfterOpen(s: State, p: Pid, token: Token): State
    requires p in s.pcs && s.pcs[p].Made?
  {
    if s.lock.None? then Move(s, p, Outside)
    else if !s.lock.value.file.Absent? then Act(s, p, Blocked, Rmdirred(Unlinked(s.lock, s.now)))
    else
      Act(s, p, Opened(s.pcs[p].instance, token), Some(Refile(s.lock.value, Partial(token), s.now)))
      .(issued := s.issued[token := p])
  }

  /** The text goes to the file that was opened, whether or not it is still in place; its directory keeps its time. */
  function AfterWrite(s: State, p: Pid): State
    requires p in s.pcs && s.pcs[p].Opened?
  {
    var pc := s.pcs[p];
    var lock := if s.lock.Some? && s.lock.value.file == Partial(pc.token)
                then Some(Refile(s.lock.value, Written(Owner(p, pc.token)), s.lock.value.mtime)) else s.lock;
    Act(s, p, Operating(pc.instance, pc.token), lock)
  }

  /** Release goes on only when the owner file still holds the token. */
  function AfterCheck(s: State, p: Pid): State
    requires p in s.pcs && s.pcs[p].Checking?
  {
    var owner := OwnerOf(s.lock);
    if owner.Some? && owner.value.token == s.pcs[p].token then Move(s, p, Unlinking(s.pcs[p].instance, s.pcs[p].token))
    else Move(s, p, Outside)
  }

  /** A missing owner file fails the release there. */
  function AfterReleaseUnlink(s: State, p: Pid): State
    requires p in s.pcs && s.pcs[p].Unlinking?
  {
    if s.lock.Some? && !s.lock.value.file.Absent? then Act(s, p, Leaving(s.pcs[p].instance), Unlinked(s.lock, s.now))
    else Move(s, p, Outside)
  }

  function AfterStat(s: State, p: Pid): State
  {
    if s.lock.None? then Move(s, p, Outside)
    else Move(s, p, Statted(s.lock.value.instance, s.lock.value.changes, s.lock.value.mtime))
  }

  /** Stale: without an owner, by age; with one, when its process is gone. */
  function AfterJudge(s: State, p: Pid, staleAfter: nat): State
    requires p in s.pcs && s.pcs[p].Judging?
  {
    var pc := s.pcs[p];
    match pc.seen
    case None =>
      if s.now - pc.mtime >= staleAfter then Move(s, p, Removing(pc.instance, pc.changes)) else Move(s, p, Outside)
    case Some(owner) =>
      if owner.pid !in s.alive then Move(s, p, Rechecking(owner)) else Move(s, p, Outside)
  }

  function AfterRecheck(s: State, p: Pid): State
    requires p in s.pcs && s.pcs[p].Rechecking?
  {
    var owner := OwnerOf(s.lock);
    if owner.Some? && owner.value.token == s.pcs[p].dead.token
    then Move(s, p, Removing(s.lock.value.instance, s.lock.value.changes))
    else Move(s, p, Outside)
  }

  function AfterRecoverUnlink(s: State, p: Pid): State
    requires p in s.pcs && s.pcs[p].Removing?
  {
    var lock := Unlinked(s.lock, s.now);
    Act(s, p, if lock.Some? then Clearing(lock.value.instance, lock.value.changes) else Outside, lock)
  }

  function Step(s: State, e: Event, staleAfter: nat): (s': State)
    requires Enabled(s, e)
  {
    match e
    case Start(p) => s.(pcs := s.pcs[p := Outside], alive := s.alive + {p})
    case Mkdir(p) => AfterMkdir(s, p)
    case OpenOwner(p, token) => AfterOpen(s, p, token)
    case WriteOwner(p) => AfterWrite(s, p)
    case Finish(p) => Move(s, p, Checking(s.pcs[p].instance, s.pcs[p].token))
    case CheckOwner(p) => AfterCheck(s, p)
    case ReleaseUnlink(p) => AfterReleaseUnlink(s, p)
    case ReleaseRmdir(p) => Act(s, p, Outside, Rmdirred(s.lock))
    case Stat(p) => AfterStat(s, p)
    case ReadOwner(p) => Move(s, p, Judging(s.pcs[p].instance, s.pcs[p].changes, s.pcs[p].mtime, OwnerOf(s.lock)))
    case Judge(p) => AfterJudge(s, p, staleAfter)
    case Recheck(p) => AfterRecheck(s, p)
    case RecoverUnlink(p) => AfterRecoverUnlink(s, p)
    case RecoverRmdir(p) => Act(s, p, Outside, Rmdirred(s.lock))
    case Crash(p) => s.(alive := s.alive - {p})
    case Tick => s.(now := s.now + 1)
  }

  /* ------------------------------ what is asked of a run ------------------------------ */

  predicate IsRemoval(e: Event)
  {
    e.RecoverUnlink? || e.RecoverRmdir?
  }

  /**
   * A recoverer meets no lock, or one whose maker is dead. A directory that has an owner file by then
   * refuses to be removed, whoever made it.
   */
  predicate SparesTheLiving(s: State, e: Event)
  {
    match e
    case RecoverUnlink(_) => s.lock.None? || s.lock.value.creator !in s.alive
    case RecoverRmdir(_) => s.lock.None? || s.lock.value.creator !in s.alive || !s.lock.value.file.Absent?
    case _ => true
  }

  /** A live process does not leave its lock without an owner for as long as the stale age. */
  predicate Prompt(s: State, staleAfter: nat)
  {
    s.lock.Some? && s.lock.value.creator in s.alive && OwnerOf(s.lock).None? ==> s.now - s.lock.value.mtime < staleAfter
  }

  /** A sequence of events each of which is possible when it comes. */
  predicate Possible(s: State, events: seq<Event>, staleAfter: nat)
    decreases |events|
  {
    events != [] ==> Enabled(s, events[0]) && Possible(Step(s, events[0], staleAfter), events[1..], staleAfter)
  }

  function Run(s: State, events: seq<Event>, staleAfter: nat): State
    requires Possible(s, events, staleAfter)
    decreases |events|
  {
    if events == [] then s else Run(Step(s, events[0], staleAfter), events[1..], staleAfter)
  }

  /** Prompt at every moment. */
  predicate PromptThroughout(s: State, events: seq<Event>, staleAfter: nat)
    requires Possible(s, events, staleAfter)
    decreases |events|
  {
    && Prompt(s, staleAfter)
    && (events != [] ==> PromptThroughout(Step(s, events[0], staleAfter), events[1..], staleAfter))
  }

  /** No removal in the run meets a live process's lock. */
  predicate Harmless(s: State, events: seq<Event>, staleAfter: nat)
    requires Possible(s, events, staleAfter)
    decreases |events|
  {
    events != [] ==> SparesTheLiving(s, events[0]) && Harmless(Step(s, events[0], staleAfter), events[1..], staleAfter)
  }

  /** From its mkdir to the last call of its release. */
  predicate Holding(pc: Pc)
  {
    pc.Made? || pc.Opened? || pc.Operating? || pc.Checking? || pc.Unlinking? || pc.Leaving?
  }

  /** At most one live process holds the lock. */
  ghost predicate MutuallyExclusive(s: State)
  {
    forall p, q | At(s, p) && At(s, q) && Holding(s.pcs[p]) && Holding(s.pcs[q]) :: p == q
  }

  /* ------------------------------ the invariant ------------------------------ */

  /** `p` made the lock that is in place, and its owner file is as expected. */
  predicate Holds(s: State, p: Pid, instance: nat, file: OwnerFile)
  {
    s.lock.Some? && s.lock.value.instance == instance && s.lock.value.creator == p && s.lock.value.file == file
  }

  /** The lock is the one that was looked at, and nothing about it has changed since. */
  predicate Unchanged(lock: Option<LockDir>, instance: nat, changes: nat)
  {
    lock.Some? && lock.value.instance == instance && lock.value.changes == changes
  }

  /** A look at a lock in the past. */
  predicate Looked(s: State, instance: nat, changes: nat)
  {
    instance < s.nextInstance && (s.lock.Some? && s.lock.value.instance == instance ==> changes <= s.lock.value.changes)
  }

  predicate Issued(s: State, owner: Owner)
  {
    owner.token in s.issued && s.issued[owner.token] == owner.pid
  }

  predicate IsDead(s: State, p: Pid)
  {
    p in s.pcs && p !in s.alive
  }

  predicate ProcessOk(s: State, p: Pid, pc: Pc)
  {
    match pc
    case Made(i) => Holds(s, p, i, Absent)
    case Opened(i, t) => Holds(s, p, i, Partial(t)) && Issued(s, Owner(p, t))
    case Operating(i, t) => Holds(s, p, i, Written(Owner(p, t)))
    case Checking(i, t) => Holds(s, p, i, Written(Owner(p, t)))
    case Unlinking(i, t) => Holds(s, p, i, Written(Owner(p, t)))
    case Leaving(i) => Holds(s, p, i, Absent)
    case Statted(i, c, m) => Looked(s, i, c) && (Unchanged(s.lock, i, c) ==> s.lock.value.mtime == m)
    case Judging(i, c, m, seen) =>
      && Looked(s, i, c)
      && (Unchanged(s.lock, i, c) ==> s.lock.value.mtime == m && seen == OwnerOf(s.lock))
      && (seen.Some? ==> Issued(s, seen.value) && seen.value.pid in s.pcs)
    case Rechecking(dead) => Issued(s, dead) && IsDead(s, dead.pid)
    case Removing(i, c) => Looked(s, i, c) && (Unchanged(s.lock, i, c) ==> IsDead(s, s.lock.value.creator))
    case Clearing(i, c) => Looked(s, i, c) && (Unchanged(s.lock, i, c) ==> IsDead(s, s.lock.value.creator))
    case _ => true
  }

  predicate LockOk(s: State)
  {
    s.lock.Some? ==>
      && s.lock.value.instance < s.nextInstance && s.lock.value.mtime <= s.now && s.lock.value.creator in s.pcs
      && (s.lock.value.creator in s.alive ==> Holding(s.pcs[s.lock.value.creator]))
      && (s.lock.value.file.Written? ==>
            s.lock.value.file.owner.pid == s.lock.value.creator && Issued(s, s.lock.value.file.owner))
  }

  ghost predicate Inv(s: State)
  {
    && s.alive <= s.pcs.Keys && LockOk(s)
    && forall p | At(s, p) :: ProcessOk(s, p, s.pcs[p])
  }

  /** Two live holders would both have made the lock that is in place. */
  lemma HolderIsExclusive(s: State)
    requires Inv(s)
    ensures MutuallyExclusive(s)
  {
    forall p, q | At(s, p) && At(s, q) && Holding(s.pcs[p]) && Holding(s.pcs[q]) ensures p == q {
      assert ProcessOk(s, p, s.pcs[p]) && ProcessOk(s, q, s.pcs[q]);
    }
  }

  /** How a step may change the lock from the point of view of the other processes. */
  predicate Spares(s: State, s': State, p: Pid)
  {
    && s'.alive == s.alive && s'.nextInstance >= s.nextInstance && s'.now == s.now
    && s'.pcs.Keys == s.pcs.Keys && (forall q | q in s.pcs && q != p :: s'.pcs[q] == s.pcs[q])
    && (forall t | t in s.issued :: t in s'.issued && s'.issued[t] == s.issued[t])
    && (s'.lock == s.lock
        || (s.lock.Some? && (s.lock.value.creator == p || IsDead(s, s.lock.value.creator))
            && (s'.lock.None? || (s'.lock.value.instance == s.lock.value.instance
                                  && s'.lock.value.creator == s.lock.value.creator
                                  && s'.lock.value.changes > s.lock.value.changes)))
        || (s.lock.None? && s'.lock.Some? && s'.lock.value.instance == s.nextInstance))
  }

  /** Whatever a step does to a lock that is free, its own or a dead process's, the others stay as they should be. */
  lemma OthersKeep(s: State, s': State, p: Pid, q: Pid)
    requires Inv(s) && Spares(s, s', p) && At(s, q) && q != p
    ensures ProcessOk(s', q, s'.pcs[q])
  {
    assert ProcessOk(s, q, s.pcs[q]);
  }

  lemma OneMoves(s: State, s': State, p: Pid)
    requires Inv(s) && Spares(s, s', p) && At(s, p) && LockOk(s') && ProcessOk(s', p, s'.pcs[p])
    ensures Inv(s')
  {
    hide ProcessOk, LockOk, Spares;
    assert Spares(s, s', p) ==> s'.alive == s.alive && s'.pcs.Keys == s.pcs.Keys by { SparesFrame(s, s', p); }
    forall q | At(s', q) ensures ProcessOk(s', q, s'.pcs[q]) {
      if q != p {
        OthersKeep(s, s', p, q);
      }
    }
  }

  lemma SparesFrame(s: State, s': State, p: Pid)
    ensures Spares(s, s', p) ==> s'.alive == s.alive && s'.pcs.Keys == s.pcs.Keys
  {
  }

  lemma AcquireKeeps(s: State, e: Event, staleAfter: nat)
    requires Inv(s) && Enabled(s, e) && (e.Mkdir? || e.OpenOwner? || e.WriteOwner?)
    ensures Inv(Step(s, e, staleAfter))
  {
    assert ProcessOk(s, e.p, s.pcs[e.p]);
    OneMoves(s, Step(s, e, staleAfter), e.p);
  }

  lemma ReleaseKeeps(s: State, e: Event, staleAfter: nat)
    requires Inv(s) && Enabled(s, e) && (e.Finish? || e.CheckOwner? || e.ReleaseUnlink? || e.ReleaseRmdir?)
    ensures Inv(Step(s, e, staleAfter))
  {
    assert ProcessOk(s, e.p, s.pcs[e.p]);
    OneMoves(s, Step(s, e, staleAfter), e.p);
  }

  lemma LookKeeps(s: State, e: Event, staleAfter: nat)
    requires Inv(s) && Enabled(s, e) && (e.Stat? || e.ReadOwner?)
    ensures Inv(Step(s, e, staleAfter))
  {
    assert ProcessOk(s, e.p, s.pcs[e.p]);
    OneMoves(s, Step(s, e, staleAfter), e.p);
  }

  /** Stale means dead: an owner's process is gone, and a live creator would have been prompt. */
  lemma VerdictKeeps(s: State, e: Event, staleAfter: nat)
    requires Inv(s) && Enabled(s, e) && Prompt(s, staleAfter) && (e.Judge? || e.Recheck?)
    ensures Inv(Step(s, e, staleAfter))
  {
    assert ProcessOk(s, e.p, s.pcs[e.p]);
    OneMoves(s, Step(s, e, staleAfter), e.p);
  }

  lemma RemoveKeeps(s: State, e: Event, staleAfter: nat)
    requires Inv(s) && Enabled(s, e) && IsRemoval(e) && SparesTheLiving(s, e)
    ensures Inv(Step(s, e, staleAfter))
  {
    assert ProcessOk(s, e.p, s.pcs[e.p]);
    OneMoves(s, Step(s, e, staleAfter), e.p);
  }

  lemma WorldKeeps(s: State, e: Event, staleAfter: nat)
    requires Inv(s) && Enabled(s, e) && (e.Start? || e.Crash? || e.Tick?)
    ensures Inv(Step(s, e, staleAfter))
  {
    var s' := Step(s, e, staleAfter);
    forall q | At(s', q) ensures ProcessOk(s', q, s'.pcs[q]) {
      assert At(s, q) ==> ProcessOk(s, q, s.pcs[q]);
    }
  }

  lemma StepKeepsInv(s: State, e: Event, staleAfter: nat)
    requires Inv(s) && Enabled(s, e) && Prompt(s, staleAfter) && SparesTheLiving(s, e)
    ensures Inv(Step(s, e, staleAfter))
  {
    hide Inv, Step, SparesTheLiving, Prompt, Enabled;
    if e.Mkdir? || e.OpenOwner? || e.WriteOwner? {
      AcquireKeeps(s, e, staleAfter);
    } else if e.Finish? || e.CheckOwner? || e.ReleaseUnlink? || e.ReleaseRmdir? {
      ReleaseKeeps(s, e, staleAfter);
    } else if e.Stat? || e.ReadOwner? {
      LookKeeps(s, e, staleAfter);
    } else if e.Judge? || e.Recheck? {
      VerdictKeeps(s, e, staleAfter);
    } else if IsRemoval(e) {
      RemoveKeeps(s, e, staleAfter);
    } else {
      WorldKeeps(s, e, staleAfter);
    }
  }

  /* ------------------------------ whole runs ------------------------------ */

  lemma {:induction false} RunKeepsInv(s: State, events: seq<Event>, staleAfter: nat)
    requires Inv(s) && Possible(s, events, staleAfter)
    requires PromptThroughout(s, events, staleAfter) && Harmless(s, events, staleAfter)
    ensures Inv(Run(s, events, staleAfter))
    decreases |events|
  {
    hide Inv, Step, SparesTheLiving, Prompt, Enabled;
    if events != [] {
      StepKeepsInv(s, events[0], staleAfter);
      RunKeepsInv(Step(s, events[0], staleAfter), events[1..], staleAfter);
    }
  }

  /**
   * Mutual exclusion, over every interleaving of acquiring, operating, crashing, recovering and
   * releasing in which live processes are prompt and no removal meets a live process's lock.
   */
  lemma MutualExclusion(events: seq<Event>, staleAfter: nat)
    requires Possible(INITIAL, events, staleAfter)
    requires PromptThroughout(INITIAL, events, staleAfter) && Harmless(INITIAL, events, staleAfter)
    ensures MutuallyExclusive(Run(INITIAL, events, staleAfter))
  {
    RunKeepsInv(INITIAL, events, staleAfter);
    HolderIsExclusive(Run(INITIAL, events, staleAfter));
  }

  /** In such a run the calls of a live holder meet its own lock only, and none of them fails. */
  lemma HoldersMeetTheirOwnLock(events: seq<Event>, e: Event, staleAfter: nat)
    requires Possible(INITIAL, events, staleAfter)
    requires PromptThroughout(INITIAL, events, staleAfter) && Harmless(INITIAL, events, staleAfter)
    requires Enabled(Run(INITIAL, events, staleAfter), e)
    ensures var s := Run(INITIAL, events, staleAfter);
      var s' := Step(s, e, staleAfter);
      && (e.OpenOwner? ==> s'.pcs[e.p].Opened? && s.lock.Some? && s.lock.value.creator == e.p)
      && (e.CheckOwner? ==> s'.pcs[e.p].Unlinking?)
      && (e.ReleaseUnlink? ==> s'.pcs[e.p].Leaving? && s.lock.Some? && s.lock.value.creator == e.p)
      && (e.ReleaseRmdir? ==> s'.lock.None? && s.lock.Some? && s.lock.value.creator == e.p)
  {
    RunKeepsInv(INITIAL, events, staleAfter);
    var s := Run(INITIAL, events, staleAfter);
    if e.OpenOwner? || e.CheckOwner? || e.ReleaseUnlink? || e.ReleaseRmdir? {
      assert ProcessOk(s, e.p, s.pcs[e.p]);
    }
  }

  /* ------------------------------ the exact condition ------------------------------ */

  /** Steps of one process only. */
  predicate Alone(events: seq<Event>, p: Pid)
  {
    forall e: Event | e in events :: !e.Tick? && e.p == p
  }

  /** Whatever the process does next by itself after that step, at most one live process holds the lock. */
  ghost predicate SafeToGoOn(s: State, e: Event, staleAfter: nat)
    requires Enabled(s, e) && IsRemoval(e)
  {
    forall more | Alone(more, e.p) && Possible(Step(s, e, staleAfter), more, staleAfter)
      :: MutuallyExclusive(Run(Step(s, e, staleAfter), more, staleAfter))
  }

  /** Each recoverer of the run may go on by itself after each of its removals. */
  ghost predicate RecoverersMayGoOn(s: State, events: seq<Event>, staleAfter: nat)
    requires Possible(s, events, staleAfter)
    decreases |events|
  {
    events != [] ==>
      && (IsRemoval(events[0]) ==> SafeToGoOn(s, events[0], staleAfter))
      && RecoverersMayGoOn(Step(s, events[0], staleAfter), events[1..], staleAfter)
  }

  /** A process by itself: what it has looked at is still in place, or gone. */
  predicate Steady(s: State, p: Pid)
  {
    At(s, p) ==>
      match s.pcs[p]
      case Statted(i, c, _) => s.lock.None? || Unchanged(s.lock, i, c)
      case Judging(i, c, _, _) => s.lock.None? || Unchanged(s.lock, i, c)
      case Removing(i, c) => s.lock.None? || Unchanged(s.lock, i, c)
      case Clearing(i, c) => s.lock.None? || Unchanged(s.lock, i, c)
      case _ => true
  }

  /** When nothing changes between a recoverer's last look and its removal, it meets a dead process's lock. */
  lemma SteadySpares(s: State, e: Event)
    requires Inv(s) && Enabled(s, e) && (IsRemoval(e) ==> Steady(s, e.p))
    ensures SparesTheLiving(s, e)
  {
    if IsRemoval(e) {
      assert ProcessOk(s, e.p, s.pcs[e.p]);
    }
  }

  /** A process that acts alone stays prompt and steady. */
  lemma AloneKeeps(s: State, e: Event, staleAfter: nat)
    requires 0 < staleAfter && LockOk(s) && Prompt(s, staleAfter)
    requires Enabled(s, e) && !e.Tick? && !e.Start? && (IsRemoval(e) || Steady(s, e.p))
    ensures Prompt(Step(s, e, staleAfter), staleAfter) && Steady(Step(s, e, staleAfter), e.p)
  {
  }

  lemma {:induction false} AloneIsSafe(s: State, p: Pid, events: seq<Event>, staleAfter: nat)
    requires 0 < staleAfter && Inv(s) && Prompt(s, staleAfter) && Steady(s, p) && p in s.pcs
    requires Alone(events, p) && Possible(s, events, staleAfter)
    ensures Inv(Run(s, events, staleAfter))
    decreases |events|
  {
    hide Step, SparesTheLiving, Prompt, Steady, LockOk, ProcessOk;
    if events != [] {
      var e := events[0];
      SteadySpares(s, e);
      StepKeepsInv(s, e, staleAfter);
      AloneKeeps(s, e, staleAfter);
      StillThere(s, e, p, staleAfter);
      AloneIsSafe(Step(s, e, staleAfter), p, events[1..], staleAfter);
    }
  }

  lemma StillThere(s: State, e: Event, p: Pid, staleAfter: nat)
    requires Enabled(s, e) && p in s.pcs
    ensures p in Step(s, e, staleAfter).pcs
  {
  }

  /** A removal that meets a live process's lock: two steps later there are two holders. */
  lemma MeetingTheLivingBreaks(s: State, e: Event, staleAfter: nat)
    requires Inv(s) && Enabled(s, e) && IsRemoval(e) && !SparesTheLiving(s, e)
    ensures var more := if e.RecoverUnlink? then [RecoverRmdir(e.p), Mkdir(e.p)] else [Mkdir(e.p)];
      && Alone(more, e.p) && Possible(Step(s, e, staleAfter), more, staleAfter)
      && !MutuallyExclusive(Run(Step(s, e, staleAfter), more, staleAfter))
  {
    var p, q := e.p, s.lock.value.creator;
    var s1 := Step(s, e, staleAfter);
    var more := if e.RecoverUnlink? then [RecoverRmdir(p), Mkdir(p)] else [Mkdir(p)];
    var s2 := if e.RecoverUnlink? then Step(s1, RecoverRmdir(p), staleAfter) else s1;
    assert s2.lock.None? && s2.pcs[p] == Outside && s2.pcs[q] == s.pcs[q] && p != q;
    var s3 := Step(s2, Mkdir(p), staleAfter);
    assert [Mkdir(p)][1..] == [] && [RecoverRmdir(p), Mkdir(p)][1..] == [Mkdir(p)];
    assert Run(s2, [Mkdir(p)], staleAfter) == Run(s3, [], staleAfter) == s3;
    assert Run(s1, more, staleAfter) == s3;
    assert At(s3, p) && At(s3, q) && Holding(s3.pcs[p]) && Holding(s3.pcs[q]);
  }

  /** A removal leaves the recoverer free to go on exactly when it meets no live process's lock. */
  lemma RemovalSafeIff(s: State, e: Event, staleAfter: nat)
    requires 0 < staleAfter && Inv(s) && Enabled(s, e) && IsRemoval(e) && Prompt(s, staleAfter)
    ensures SafeToGoOn(s, e, staleAfter) <==> SparesTheLiving(s, e)
  {
    hide Step, SparesTheLiving, Prompt, Steady, LockOk, ProcessOk, Enabled;
    var s' := Step(s, e, staleAfter);
    if SparesTheLiving(s, e) {
      StepKeepsInv(s, e, staleAfter);
      RemoverIsSteady(s, e, staleAfter);
      forall more | Alone(more, e.p) && Possible(s', more, staleAfter)
        ensures MutuallyExclusive(Run(s', more, staleAfter)) {
        AloneIsSafe(s', e.p, more, staleAfter);
        HolderIsExclusive(Run(s', more, staleAfter));
      }
    } else {
      MeetingTheLivingBreaks(s, e, staleAfter);
    }
  }

  lemma RemoverIsSteady(s: State, e: Event, staleAfter: nat)
    requires 0 < staleAfter && Inv(s) && Enabled(s, e) && IsRemoval(e) && Prompt(s, staleAfter)
    ensures var s' := Step(s, e, staleAfter); Prompt(s', staleAfter) && Steady(s', e.p) && e.p in s'.pcs
  {
    AloneKeeps(s, e, staleAfter);
  }

  lemma {:induction false} HarmlessIff(s: State, events: seq<Event>, staleAfter: nat)
    requires 0 < staleAfter && Inv(s) && Possible(s, events, staleAfter) && PromptThroughout(s, events, staleAfter)
    ensures RecoverersMayGoOn(s, events, staleAfter) <==> Harmless(s, events, staleAfter)
    decreases |events|
  {
    hide Step, SparesTheLiving, Prompt, LockOk, ProcessOk, Enabled, SafeToGoOn, Inv;
    if events != [] {
      if IsRemoval(events[0]) {
        RemovalSafeIff(s, events[0], staleAfter);
      } else {
        OthersRemoveNothing(s, events[0]);
      }
      if SparesTheLiving(s, events[0]) {
        StepKeepsInv(s, events[0], staleAfter);
        HarmlessIff(Step(s, events[0], staleAfter), events[1..], staleAfter);
      }
    }
  }

  lemma OthersRemoveNothing(s: State, e: Event)
    requires !IsRemoval(e)
    ensures SparesTheLiving(s, e)
  {
  }

  /**
   * The exact condition. Exclusion holds at the end of a prompt run, and at the end of every run that
   * one of its recoverers makes of a beginning of it by going on alone after a removal, if and only
   * if no removal of the run meets a live process's lock.
   */
  lemma ExclusionIff(events: seq<Event>, staleAfter: nat)
    requires 0 < staleAfter && Possible(INITIAL, events, staleAfter) && PromptThroughout(INITIAL, events, staleAfter)
    ensures MutuallyExclusive(Run(INITIAL, events, staleAfter)) && RecoverersMayGoOn(INITIAL, events, staleAfter)
      <==> Harmless(INITIAL, events, staleAfter)
  {
    HarmlessIff(INITIAL, events, staleAfter);
    if Harmless(INITIAL, events, staleAfter) {
      MutualExclusion(events, staleAfter);
    }
  }

  /** No process comes between a recoverer's last look and its removals. */
  predicate Undisturbed(s: State, events: seq<Event>, staleAfter: nat)
    requires Possible(s, events, staleAfter)
    decreases |events|
  {
    events != [] ==>
      && (IsRemoval(events[0]) ==> Steady(s, events[0].p))
      && Undisturbed(Step(s, events[0], staleAfter), events[1..], staleAfter)
  }

  /** So exclusion holds in all runs in which removals come undisturbed; but others are harmless too. */
  lemma {:induction false} UndisturbedIsHarmless(s: State, events: seq<Event>, staleAfter: nat)
    requires Inv(s) && Possible(s, events, staleAfter) && PromptThroughout(s, events, staleAfter)
    requires Undisturbed(s, events, staleAfter)
    ensures Harmless(s, events, staleAfter)
    decreases |events|
  {
    hide Step, SparesTheLiving, Prompt, LockOk, ProcessOk, Steady, Inv;
    if events != [] {
      SteadySpares(s, events[0]);
      StepKeepsInv(s, events[0], staleAfter);
      UndisturbedIsHarmless(Step(s, events[0], staleAfter), events[1..], staleAfter);
    }
  }

  /* ------------------------------ what goes wrong otherwise ------------------------------ */

  lemma {:induction false} OneMore(s: State, events: seq<Event>, e: Event, staleAfter: nat)
    requires Possible(s, events, staleAfter) && PromptThroughout(s, events, staleAfter)
    requires Enabled(Run(s, events, staleAfter), e)
      && Prompt(Step(Run(s, events, staleAfter), e, staleAfter), staleAfter)
    ensures Possible(s, events + [e], staleAfter) && PromptThroughout(s, events + [e], staleAfter)
    ensures Run(s, events + [e], staleAfter) == Step(Run(s, events, staleAfter), e, staleAfter)
    decreases |events|
  {
    hide Step, Prompt, Enabled;
    if events == [] {
      assert [e][1..] == [];
    } else {
      assert (events + [e])[0] == events[0] && (events + [e])[1..] == events[1..] + [e];
      OneMore(Step(s, events[0], staleAfter), events[1..], e, staleAfter);
    }
  }

  /**
   * One state leads to another by steps each of which is possible and prompt. No lock with an owner
   * is recovered on the way, so no second look at an owner is at stake.
   */
  ghost predicate LeadsTo(s: State, t: State, staleAfter: nat)
  {
    exists events ::
      && Possible(s, events, staleAfter) && PromptThroughout(s, events, staleAfter) && Run(s, events, staleAfter) == t
      && forall e: Event | e in events :: !e.Recheck?
  }

  lemma Stay(s: State, staleAfter: nat)
    requires Prompt(s, staleAfter)
    ensures LeadsTo(s, s, staleAfter)
  {
    assert Possible(s, [], staleAfter) && PromptThroughout(s, [], staleAfter) && Run(s, [], staleAfter) == s;
  }

  lemma Go(s: State, t: State, e: Event, staleAfter: nat)
    requires LeadsTo(s, t, staleAfter) && Enabled(t, e) && Prompt(Step(t, e, staleAfter), staleAfter) && !e.Recheck?
    ensures LeadsTo(s, Step(t, e, staleAfter), staleAfter)
  {
    hide Step, Prompt, Enabled;
    var events :| Possible(s, events, staleAfter) && PromptThroughout(s, events, staleAfter)
      && Run(s, events, staleAfter) == t
      && forall e: Event | e in events :: !e.Recheck?;
    OneMore(s, events, e, staleAfter);
    assert Run(s, events + [e], staleAfter) == Step(t, e, staleAfter);
  }

  /** A process crashes between its mkdir and its owner file, and the directory grows stale. */
  lemma CrashedCreator() returns (t: State)
    ensures t == State(Some(LockDir(0, 1, 0, 0, Absent)), map[1 := Made(0)], {}, map[], 1, 1)
    ensures LeadsTo(INITIAL, t, 1)
  {
    hide LeadsTo;
    Stay(INITIAL, 1);
    Go(INITIAL, INITIAL, Start(1), 1);
    var started := State(None, map[1 := Outside], {1}, map[], 0, 0);
    assert {} + {1} == {1};
    assert Step(INITIAL, Start(1), 1) == started;
    Go(INITIAL, started, Mkdir(1), 1);
    var made := State(Some(LockDir(0, 1, 0, 0, Absent)), map[1 := Made(0)], {1}, map[], 1, 0);
    assert Step(started, Mkdir(1), 1) == made;
    Go(INITIAL, made, Crash(1), 1);
    assert {1} - {1} == {};
    var crashed := made.(alive := {});
    Go(INITIAL, crashed, Tick, 1);
    t := crashed.(now := 1);
  }

  /** A contender meets that directory and looks at it. */
  lemma LooksAtIt(s: State, p: Pid) returns (t: State)
    requires LeadsTo(INITIAL, s, 1)
    requires p !in s.pcs && s.lock == Some(LockDir(0, 1, 0, 0, Absent)) && s.now == 1 && 1 !in s.alive && p != 1
    ensures t == s.(pcs := s.pcs[p := Statted(0, 0, 0)], alive := s.alive + {p})
    ensures LeadsTo(INITIAL, t, 1)
  {
    hide LeadsTo;
    var alive := s.alive + {p};
    Go(INITIAL, s, Start(p), 1);
    var t1 := s.(pcs := s.pcs[p := Outside], alive := alive);
    Go(INITIAL, t1, Mkdir(p), 1);
    var t2 := s.(pcs := s.pcs[p := Blocked], alive := alive);
    assert Step(t1, Mkdir(p), 1) == t2;
    Go(INITIAL, t2, Stat(p), 1);
    t := s.(pcs := s.pcs[p := Statted(0, 0, 0)], alive := alive);
    assert Step(t2, Stat(p), 1) == t;
  }

  /** And judges it stale by its age. */
  lemma JudgesStale(s: State, p: Pid) returns (t: State)
    requires LeadsTo(INITIAL, s, 1)
    requires p !in s.pcs && s.lock == Some(LockDir(0, 1, 0, 0, Absent)) && s.now == 1 && 1 !in s.alive && p != 1
    ensures t == s.(pcs := s.pcs[p := Removing(0, 0)], alive := s.alive + {p})
    ensures LeadsTo(INITIAL, t, 1)
  {
    hide LeadsTo;
    var t3 := LooksAtIt(s, p);
    Go(INITIAL, t3, ReadOwner(p), 1);
    var t4 := t3.(pcs := s.pcs[p := Judging(0, 0, 0, None)]);
    assert Step(t3, ReadOwner(p), 1) == t4;
    Go(INITIAL, t4, Judge(p), 1);
    t := t3.(pcs := s.pcs[p := Removing(0, 0)]);
    assert Step(t4, Judge(p), 1) == t;
  }

  /** A contender that judged a directory stale removes what is there now, whoever made it. */
  lemma RemovesIt(s: State, p: Pid) returns (t: State)
    requires LeadsTo(INITIAL, s, 1) && Prompt(s, 1) && At(s, p) && s.pcs[p] == Removing(0, 0) && s.lock.Some?
    ensures t == s.(lock := None, pcs := s.pcs[p := Outside])
    ensures LeadsTo(INITIAL, t, 1)
  {
    hide LeadsTo;
    var lock := Unlinked(s.lock, s.now).value;
    Go(INITIAL, s, RecoverUnlink(p), 1);
    var t1 := s.(lock := Some(lock), pcs := s.pcs[p := Clearing(lock.instance, lock.changes)]);
    assert Step(s, RecoverUnlink(p), 1) == t1;
    Go(INITIAL, t1, RecoverRmdir(p), 1);
    t := s.(lock := None, pcs := s.pcs[p := Outside]);
    assert Step(t1, RecoverRmdir(p), 1) == t;
  }

  /** Then it makes the lock anew and operates. */
  lemma MakesIt(s: State, p: Pid, token: Token) returns (t: State)
    requires LeadsTo(INITIAL, s, 1) && At(s, p) && s.pcs[p] == Outside && s.lock.None? && token !in s.issued
    ensures t == s.(
      lock := Some(LockDir(s.nextInstance, p, 2, s.now, Written(Owner(p, token)))),
      pcs := s.pcs[p := Operating(s.nextInstance, token)],
      issued := s.issued[token := p],
      nextInstance := s.nextInstance + 1)
    ensures LeadsTo(INITIAL, t, 1)
  {
    hide LeadsTo;
    var i := s.nextInstance;
    Go(INITIAL, s, Mkdir(p), 1);
    var t1 := s.(lock := Some(LockDir(i, p, 0, s.now, Absent)), pcs := s.pcs[p := Made(i)], nextInstance := i + 1);
    Go(INITIAL, t1, OpenOwner(p, token), 1);
    var t2 := t1.(lock := Some(LockDir(i, p, 1, s.now, Partial(token))), pcs := s.pcs[p := Opened(i, token)],
                  issued := s.issued[token := p]);
    assert Step(t1, OpenOwner(p, token), 1) == t2;
    Go(INITIAL, t2, WriteOwner(p), 1);
    t := t2.(lock := Some(LockDir(i, p, 2, s.now, Written(Owner(p, token)))), pcs := s.pcs[p := Operating(i, token)]);
    assert Step(t2, WriteOwner(p), 1) == t;
  }

  /**
   * A directory without an owner is not looked at again before it is removed. So two contenders that
   * both judged it stale can come to operate at the same time, every process being prompt.
   */
  lemma OwnerlessRecoveryBreaksExclusion() returns (t: State)
    ensures LeadsTo(INITIAL, t, 1)
    ensures At(t, 2) && At(t, 3) && t.pcs[2].Operating? && t.pcs[3].Operating?
    ensures !MutuallyExclusive(t)
  {
    hide LeadsTo;
    t := CrashedCreator();
    t := JudgesStale(t, 2);
    t := JudgesStale(t, 3);
    t := RemovesIt(t, 2);
    t := MakesIt(t, 2, 0);
    t := RemovesIt(t, 3);
    t := MakesIt(t, 3, 1);
  }
}
