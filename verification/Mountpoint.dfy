/** The bounded pool of IPC clients: threads check clients out and return them under a recursive
    mutex and a condition variable. Every interleaving of the threads' steps is a run. */
module Mountpoint {
  import opened Wrappers

  type Tid = nat
  type Client = nat

  /** Where a thread is. `woken` says that it has come back from a sleep and not looked at the
      idle clients since. */
  datatype Pc =
    | Outside
    | Entering(woken: bool)
    | Looking(woken: bool)
    | Creating
    | FallingAsleep
    | Asleep
    | Woken
    | Leaving(got: Option<Client>)
    | Using(client: Client)
    | Returning(client: Client)
    | Appending(client: Client)
    | Signalling

  /** A thread, with the number of times it has come back from a sleep. */
  datatype Thread = Thread(pc: Pc, sleeps: nat) {
    /** The thread is between taking the lock and giving it back. */
    predicate Critical() {
      pc.Looking? || pc.Creating? || pc.FallingAsleep? || pc.Leaving? || pc.Appending? || pc.Signalling?
    }

    /** How many levels of the recursive mutex the thread has: coming back from a sleep takes one
        that is never given back. */
    function Level(): nat {
      sleeps + if Critical() then 1 else 0
    }

    function Held(): Option<Client> {
      match pc
      case Leaving(got) => got
      case Using(c) => Some(c)
      case Returning(c) => Some(c)
      case Appending(c) => Some(c)
      case _ => None
    }

    /** Woken, but not yet through to the idle clients; or about to wake another thread. */
    predicate Due() {
      pc.Woken? || (pc.Entering? && pc.woken) || (pc.Looking? && pc.woken) || pc.Signalling?
    }
  }

  datatype Pool = Pool(maxclients: int, current: nat, idle: seq<Client>, owner: Option<Tid>, depth: nat,
                       threads: map<Tid, Thread>) {
    function At(t: Tid, pc: Pc): Pool
      requires t in threads
    {
      this.(threads := threads[t := threads[t].(pc := pc)])
    }

    predicate MayLock(t: Tid) { owner == None || owner == Some(t) }

    /** One more level for `t`. */
    function Locked(t: Tid): Pool { this.(owner := Some(t), depth := depth + 1) }

    /** One level less. The mutex is free when the last level is given back. */
    function Unlocked(): Pool
      requires depth > 0
    {
      this.(owner := if depth == 1 then None else owner, depth := depth - 1)
    }
  }

  ghost predicate Init(s: Pool) {
    && s.current == 0 && s.idle == [] && s.owner == None && s.depth == 0
    && forall t :: t in s.threads ==> s.threads[t] == Thread(Outside, 0)
  }

  datatype Action =
    | CallCheckout | Acquire | Look | Create(ok: bool) | Sleep | WakeUp | Relock | Release
    | CallReturn | AcquireReturn | Append | Signal(sleeper: Option<Tid>)

  /** Thread `t` does one step of `mountpoint_checkout_client`, `mountpoint_return_client` or the
      operations of the condition variable. */
  ghost predicate Step(s: Pool, s': Pool, t: Tid, a: Action) {
    && t in s.threads
    && var pc := s.threads[t].pc;
    match a
    case CallCheckout => pc == Outside && s' == s.At(t, Entering(false))
    case Acquire => pc.Entering? && s.MayLock(t) && s' == s.Locked(t).At(t, Looking(pc.woken))
    case Look =>
      pc.Looking? && s' == if s.idle != [] then s.(idle := s.idle[1..]).At(t, Leaving(Some(s.idle[0])))
                           else if s.current < s.maxclients then s.At(t, Creating)
                           else s.At(t, FallingAsleep)
    case Create(ok) =>
      // A client that could not be set up is not counted; the caller is given the error.
      pc == Creating && s' == if ok then s.(current := s.current + 1).At(t, Leaving(Some(s.current)))
                              else s.At(t, Leaving(None))
    case Sleep => pc == FallingAsleep && s.depth > 0 && s' == s.Unlocked().At(t, Asleep)
    case WakeUp => pc == Asleep && s' == s.At(t, Woken)
    case Relock =>
      pc == Woken && s.MayLock(t)
      && s' == s.Locked(t).(threads := s.threads[t := Thread(Entering(true), s.threads[t].sleeps + 1)])
    case Release =>
      pc.Leaving? && s.depth > 0
      && s' == s.Unlocked().At(t, if pc.got.Some? then Using(pc.got.value) else Outside)
    case CallReturn => pc.Using? && s' == s.At(t, Returning(pc.client))
    case AcquireReturn => pc.Returning? && s.MayLock(t) && s' == s.Locked(t).At(t, Appending(pc.client))
    case Append => pc.Appending? && s' == s.(idle := s.idle + [pc.client]).At(t, Signalling)
    case Signal(sleeper) =>
      pc == Signalling && s.depth > 0
      && match sleeper
         case Some(u) => u in s.threads && s.threads[u].pc == Asleep && s' == s.Unlocked().At(u, Woken).At(t, Outside)
         case None => (forall u :: u in s.threads ==> s.threads[u].pc != Asleep) && s' == s.Unlocked().At(t, Outside)
  }

  // ---------- invariants ----------

  /** The mutex belongs to the one thread that has a level of it, and its depth is that level. */
  ghost predicate LockInv(s: Pool) {
    && (forall t | t in s.threads && s.threads[t].Level() > 0 ::
          s.owner == Some(t) && s.depth == s.threads[t].Level())
    && (s.owner.Some? ==> s.owner.value in s.threads && s.threads[s.owner.value].Level() > 0)
    && (s.owner == None ==> s.depth == 0)
  }

  ghost function Holders(s: Pool): set<Tid> { set t | t in s.threads && s.threads[t].Held().Some? }

  /** Every client is idle or held by one thread, and nothing else is. */
  ghost predicate ClientInv(s: Pool) {
    && (forall i, j :: 0 <= i < j < |s.idle| ==> s.idle[i] != s.idle[j])
    && (forall i :: 0 <= i < |s.idle| ==> s.idle[i] < s.current)
    && (forall t :: t in Holders(s) ==> s.threads[t].Held().value < s.current && s.threads[t].Held().value !in s.idle)
    && (forall t, u :: t in Holders(s) && u in Holders(s) && t != u ==> s.threads[t].Held() != s.threads[u].Held())
    && |s.idle| + |Holders(s)| == s.current
  }

  /** No client is lost: each one that was created is idle or held. */
  ghost predicate NoneLost(s: Pool) {
    forall c :: 0 <= c < s.current ==> c in s.idle || IsHeld(s, c)
  }

  ghost predicate IsHeld(s: Pool, c: Client) {
    exists t :: t in s.threads && s.threads[t].Held() == Some(c)
  }

  ghost predicate BoundInv(s: Pool) {
    && (s.current == 0 || s.current <= s.maxclients)
    && (forall t :: t in s.threads && s.threads[t].pc == Creating ==> s.current < s.maxclients)
  }

  ghost function DueThreads(s: Pool): set<Tid> { set t | t in s.threads && s.threads[t].Due() }

  ghost predicate SomeAsleep(s: Pool) { exists t :: t in s.threads && s.threads[t].pc == Asleep }

  /** While a thread sleeps, every idle client has a thread on its way to it. A thread goes to
      sleep only when no client is idle. */
  ghost predicate WakeInv(s: Pool) {
    && (SomeAsleep(s) ==> |s.idle| <= |DueThreads(s)|)
    && (forall t :: t in s.threads && s.threads[t].pc == FallingAsleep ==> s.idle == [])
  }

  /** A thread goes to sleep only when there is no room for another client. */
  ghost predicate FullInv(s: Pool) {
    forall t :: t in s.threads && s.threads[t].pc == FallingAsleep ==> s.current >= s.maxclients
  }

  ghost predicate Inv(s: Pool) {
    LockInv(s) && ClientInv(s) && NoneLost(s) && BoundInv(s) && WakeInv(s) && FullInv(s)
  }

  lemma OthersKept(s: Pool, s': Pool, t: Tid, a: Action)
    requires Step(s, s', t, a)
    ensures t in s.threads && s'.threads.Keys == s.threads.Keys && s'.maxclients == s.maxclients
    ensures forall u | u in s.threads && u != t ::
              s'.threads[u] == (if a == Signal(Some(u)) then s.threads[u].(pc := Woken) else s.threads[u])
    ensures forall u :: a == Signal(Some(u)) ==> u in s.threads && u != t && s.threads[u].pc == Asleep
  {}

  // ---------- the mutex ----------

  /** The levels of all threads but `t` stay. */
  ghost predicate SameLevels(s: Pool, s': Pool, t: Tid) {
    && t in s.threads && s'.threads.Keys == s.threads.Keys
    && forall u :: u in s.threads && u != t ==> s'.threads[u].Level() == s.threads[u].Level()
  }

  lemma LockUntouched(s: Pool, s': Pool, t: Tid)
    requires LockInv(s) && SameLevels(s, s', t) && s'.threads[t].Level() == s.threads[t].Level()
    requires s'.owner == s.owner && s'.depth == s.depth
    ensures LockInv(s')
  {}

  lemma LockTaken(s: Pool, s': Pool, t: Tid)
    requires LockInv(s) && SameLevels(s, s', t) && s.MayLock(t) && s'.threads[t].Level() == s.threads[t].Level() + 1
    requires s'.owner == Some(t) && s'.depth == s.depth + 1
    ensures LockInv(s')
  {}

  lemma LockGiven(s: Pool, s': Pool, t: Tid)
    requires LockInv(s) && SameLevels(s, s', t) && s'.threads[t].Level() == s.threads[t].Level() - 1
    requires s.depth > 0 && s'.owner == s.Unlocked().owner && s'.depth == s.Unlocked().depth
    ensures LockInv(s')
  {}

  lemma LockStep(s: Pool, s': Pool, t: Tid, a: Action)
    requires LockInv(s) && Step(s, s', t, a)
    ensures LockInv(s')
  {
    hide LockInv;
    OthersKept(s, s', t, a);
    assert SameLevels(s, s', t);
    match a
    case Acquire => LockTaken(s, s', t);
    case AcquireReturn => LockTaken(s, s', t);
    case Relock => LockTaken(s, s', t);
    case Sleep => LockGiven(s, s', t);
    case Release => LockGiven(s, s', t);
    case Signal(_) => LockGiven(s, s', t);
    case _ => LockUntouched(s, s', t);
  }

  /** Only one thread at a time is between taking the lock and giving it back. */
  lemma MutualExclusion(s: Pool, t: Tid, u: Tid)
    requires LockInv(s) && t in s.threads && u in s.threads && s.threads[t].Critical() && s.threads[u].Critical()
    ensures t == u
  {}

  // ---------- the clients ----------

  lemma HoldersStep(s: Pool, s': Pool, t: Tid, a: Action)
    requires Step(s, s', t, a)
    ensures Holders(s') == if s'.threads[t].Held().Some? then Holders(s) + {t} else Holders(s) - {t}
    ensures forall u :: u in Holders(s') && u != t ==> s'.threads[u].Held() == s.threads[u].Held()
  {
    OthersKept(s, s', t, a);
  }

  /** The holders after a step of `t` that leaves the others' clients alone. */
  ghost predicate HoldersBut(s: Pool, s': Pool, t: Tid) {
    && t in s.threads && t in s'.threads && s'.threads.Keys == s.threads.Keys
    && Holders(s') == (if s'.threads[t].Held().Some? then Holders(s) + {t} else Holders(s) - {t})
    && forall u :: u in Holders(s') && u != t ==> s'.threads[u].Held() == s.threads[u].Held()
  }

  lemma ClientsUntouched(s: Pool, s': Pool, t: Tid)
    requires ClientInv(s) && HoldersBut(s, s', t) && s'.threads[t].Held() == s.threads[t].Held()
    requires s'.idle == s.idle && s'.current == s.current
    ensures ClientInv(s')
  {
    assert t in Holders(s) <==> s.threads[t].Held().Some?;
    assert Holders(s') == Holders(s);
  }

  lemma ClientTaken(s: Pool, s': Pool, t: Tid)
    requires ClientInv(s) && HoldersBut(s, s', t) && s.threads[t].Held() == None
    requires s.idle != [] && s'.threads[t].Held() == Some(s.idle[0])
    requires s'.idle == s.idle[1..] && s'.current == s.current
    ensures ClientInv(s')
  {
    assert t !in Holders(s);
    assert forall c :: c in s'.idle ==> c in s.idle;
  }

  lemma ClientCreated(s: Pool, s': Pool, t: Tid)
    requires ClientInv(s) && HoldersBut(s, s', t) && s.threads[t].Held() == None
    requires s'.threads[t].Held() == Some(s.current) && s'.idle == s.idle && s'.current == s.current + 1
    ensures ClientInv(s')
  {
    assert t !in Holders(s);
  }

  lemma ClientReturned(s: Pool, s': Pool, t: Tid)
    requires ClientInv(s) && HoldersBut(s, s', t) && s'.threads[t].Held() == None && s.threads[t].Held().Some?
    requires s'.idle == s.idle + [s.threads[t].Held().value] && s'.current == s.current
    ensures ClientInv(s')
  {
    assert t in Holders(s);
    assert |Holders(s')| == |Holders(s)| - 1;
  }

  lemma HeldButStep(s: Pool, s': Pool, t: Tid, a: Action)
    requires Step(s, s', t, a)
    ensures HoldersBut(s, s', t)
  {
    OthersKept(s, s', t, a);
    HoldersStep(s, s', t, a);
    hide Step;
  }

  lemma ClientStep(s: Pool, s': Pool, t: Tid, a: Action)
    requires ClientInv(s) && Step(s, s', t, a)
    ensures ClientInv(s')
  {
    hide ClientInv, Holders;
    HeldButStep(s, s', t, a);
    hide HoldersBut;
    match a
    case Look => if s.idle != [] { ClientTaken(s, s', t); } else { ClientsUntouched(s, s', t); }
    case Create(ok) => if ok { ClientCreated(s, s', t); } else { ClientsUntouched(s, s', t); }
    case Append => ClientReturned(s, s', t);
    case _ => ClientsUntouched(s, s', t);
  }

  lemma IdleKept(s: Pool, s': Pool, t: Tid, a: Action, c: Client)
    requires Step(s, s', t, a) && c in s.idle
    ensures t in s'.threads && (c in s'.idle || s'.threads[t].Held() == Some(c))
  {
  }

  lemma OwnKept(s: Pool, s': Pool, t: Tid, a: Action, c: Client)
    requires Step(s, s', t, a) && c < s'.current && (c < s.current ==> s.threads[t].Held() == Some(c))
    ensures t in s'.threads && (c in s'.idle || s'.threads[t].Held() == Some(c))
  {
  }

  /** The client that changes hands in a step is idle or held after it, and the others stay where they
      are. */
  lemma ClientKept(s: Pool, s': Pool, t: Tid, a: Action, c: Client)
    requires Step(s, s', t, a) && c < s'.current && (c < s.current ==> c in s.idle || IsHeld(s, c))
    ensures c in s'.idle || IsHeld(s', c)
  {
    OthersKept(s, s', t, a);
    hide Step;
    if c in s.idle {
      IdleKept(s, s', t, a, c);
    } else if c >= s.current || s.threads[t].Held() == Some(c) {
      OwnKept(s, s', t, a, c);
    } else {
      var u :| u in s.threads && s.threads[u].Held() == Some(c);
      assert s'.threads[u].Held() == Some(c);
    }
  }

  lemma NoneLostStep(s: Pool, s': Pool, t: Tid, a: Action)
    requires NoneLost(s) && Step(s, s', t, a)
    ensures NoneLost(s')
  {
    hide IsHeld, Step;
    forall c | 0 <= c < s'.current ensures c in s'.idle || IsHeld(s', c) {
      ClientKept(s, s', t, a, c);
    }
  }

  lemma BoundStep(s: Pool, s': Pool, t: Tid, a: Action)
    requires LockInv(s) && BoundInv(s) && Step(s, s', t, a)
    ensures BoundInv(s')
  {
    OthersKept(s, s', t, a);
  }

  // ---------- wakeups ----------

  lemma DueStep(s: Pool, s': Pool, t: Tid, a: Action)
    requires Step(s, s', t, a)
    ensures DueThreads(s') == (if s'.threads[t].Due() then DueThreads(s) + {t} else DueThreads(s) - {t})
                              + (if a.Signal? && a.sleeper.Some? then {a.sleeper.value} else {})
    ensures a.Signal? && a.sleeper.Some? ==> a.sleeper.value !in DueThreads(s)
  {
    OthersKept(s, s', t, a);
  }

  lemma DueChange(s: Pool, s': Pool, t: Tid, a: Action)
    requires Step(s, s', t, a)
    ensures t in s.threads && t in s'.threads
    ensures a.Append? || a.WakeUp? ==> !s.threads[t].Due() && s'.threads[t].Due()
    ensures a.Look? ==> !s'.threads[t].Due()
    ensures a.Signal? ==> s.threads[t].Due() && !s'.threads[t].Due() && a.sleeper != Some(t)
    ensures !a.Append? && !a.WakeUp? && !a.Look? && !a.Signal? ==> s'.threads[t].Due() == s.threads[t].Due()
  {
  }

  /** How the number of due threads changes. */
  lemma DueCount(s: Pool, s': Pool, t: Tid, a: Action)
    requires Step(s, s', t, a)
    ensures a.Append? || a.WakeUp? ==> |DueThreads(s')| == |DueThreads(s)| + 1
    ensures a.Look? ==> |DueThreads(s')| >= |DueThreads(s)| - 1
    ensures a.Signal? ==> |DueThreads(s')| == |DueThreads(s)| - if a.sleeper.Some? then 0 else 1
    ensures !a.Append? && !a.WakeUp? && !a.Look? && !a.Signal? ==> DueThreads(s') == DueThreads(s)
  {
    hide Step;
    DueStep(s, s', t, a);
    DueChange(s, s', t, a);
    assert t in DueThreads(s) <==> s.threads[t].Due();
    var d := DueThreads(s);
    match a
    case Append => assert DueThreads(s') == d + {t};
    case WakeUp => assert DueThreads(s') == d + {t};
    case Look => assert DueThreads(s') == d - {t};
    case Signal(u) =>
      if u.Some? {
        assert DueThreads(s') == (d - {t}) + {u.value};
      } else {
        assert DueThreads(s') == d - {t};
      }
    case _ =>
  }

  lemma SleepersStep(s: Pool, s': Pool, t: Tid, a: Action)
    requires Step(s, s', t, a)
    ensures SomeAsleep(s') && !a.Sleep? ==> SomeAsleep(s)
    ensures a.Signal? && a.sleeper == None ==> !SomeAsleep(s')
  {
    OthersKept(s, s', t, a);
  }

  lemma SleepCheckStep(s: Pool, s': Pool, t: Tid, a: Action)
    requires LockInv(s) && WakeInv(s) && Step(s, s', t, a)
    ensures forall u :: u in s'.threads && s'.threads[u].pc == FallingAsleep ==> s'.idle == []
  {
    OthersKept(s, s', t, a);
    forall u | u in s'.threads && s'.threads[u].pc == FallingAsleep ensures s'.idle == [] {
      if a.Append? && u != t { MutualExclusion(s, t, u); }
    }
  }

  lemma WakeStep(s: Pool, s': Pool, t: Tid, a: Action)
    requires LockInv(s) && WakeInv(s) && Step(s, s', t, a)
    ensures WakeInv(s')
  {
    hide LockInv, SomeAsleep, DueThreads;
    DueCount(s, s', t, a);
    SleepersStep(s, s', t, a);
    SleepCheckStep(s, s', t, a);
  }

  lemma FullStep(s: Pool, s': Pool, t: Tid, a: Action)
    requires FullInv(s) && Step(s, s', t, a)
    ensures FullInv(s') && s.current <= s'.current
  {
    OthersKept(s, s', t, a);
  }

  // ---------- runs ----------

  lemma InvStep(s: Pool, s': Pool, t: Tid, a: Action)
    requires Inv(s) && Step(s, s', t, a)
    ensures Inv(s')
  {
    hide LockInv, ClientInv, NoneLost, BoundInv, WakeInv, FullInv, Step;
    LockStep(s, s', t, a);
    ClientStep(s, s', t, a);
    NoneLostStep(s, s', t, a);
    BoundStep(s, s', t, a);
    WakeStep(s, s', t, a);
    FullStep(s, s', t, a);
  }

  ghost predicate Next(s: Pool, s': Pool) {
    exists t, a :: Step(s, s', t, a)
  }

  /** A run: the states that the threads' steps lead through, in any interleaving. */
  ghost predicate IsRun(run: seq<Pool>) {
    && run != [] && Init(run[0])
    && forall i :: 0 <= i < |run| - 1 ==> Next(run[i], run[i + 1])
  }

  lemma InitInv(s: Pool)
    requires Init(s)
    ensures Inv(s)
  {
    assert Holders(s) == {};
  }

  lemma {:induction false} Reachable(run: seq<Pool>)
    requires IsRun(run)
    ensures Inv(run[|run| - 1])
  {
    if |run| == 1 {
      InitInv(run[0]);
    } else {
      hide Inv, Init, Step;
      var n := |run| - 2;
      assert Next(run[n], run[n + 1]);
      assert IsRun(run[..n + 1]);
      Reachable(run[..n + 1]);
      var t, a :| Step(run[n], run[n + 1], t, a);
      InvStep(run[n], run[n + 1], t, a);
    }
  }

  /** At every point of every run: the number of clients respects the limit, each client that was
      created is idle or held by exactly one thread, and no wakeup is lost. */
  lemma PoolIsSafe(run: seq<Pool>)
    requires IsRun(run)
    ensures var s := run[|run| - 1];
            && s.current <= (if s.maxclients < 0 then 0 else s.maxclients)
            && |s.idle| + |Holders(s)| == s.current
            && (forall c :: 0 <= c < s.current ==> c in s.idle || IsHeld(s, c))
            && (forall c :: c in s.idle ==> forall t :: t in s.threads ==> s.threads[t].Held() != Some(c))
            && (forall t, u :: t in s.threads && u in s.threads && t != u && s.threads[t].Held().Some?
                               ==> s.threads[t].Held() != s.threads[u].Held())
            && (SomeAsleep(s) ==> |s.idle| <= |DueThreads(s)|)
  {
    Reachable(run);
    var s := run[|run| - 1];
    forall t, u | t in s.threads && u in s.threads && t != u && s.threads[t].Held().Some?
      ensures s.threads[t].Held() != s.threads[u].Held()
    {
      if s.threads[u].Held().Some? { assert t in Holders(s) && u in Holders(s); }
    }
    forall c, t | c in s.idle && t in s.threads ensures s.threads[t].Held() != Some(c) {
      assert s.threads[t].Held() == Some(c) ==> t in Holders(s);
    }
  }

  /** What the extra lock after a sleep does: a thread that is done with the pool functions still owns
      the mutex if and only if it has ever come back from a sleep, and from then on no other
      thread is between taking the lock and giving it back, or comes back from a sleep. */
  lemma SleepKeepsLock(run: seq<Pool>, t: Tid)
    requires IsRun(run) && t in run[|run| - 1].threads
    ensures var s := run[|run| - 1];
            && (!s.threads[t].Critical() ==> (s.owner == Some(t) <==> s.threads[t].sleeps > 0))
            && (s.threads[t].sleeps > 0 ==>
                  forall u :: u in s.threads && u != t ==> !s.threads[u].Critical() && s.threads[u].sleeps == 0)
  {
    Reachable(run);
  }

  lemma PartOfRun(run: seq<Pool>, j: nat)
    requires IsRun(run) && j < |run|
    ensures Inv(run[j])
  {
    hide Inv, Next, Init;
    assert run[..j + 1][j] == run[j];
    Reachable(run[..j + 1]);
  }

  // ---------- room for more clients ----------

  ghost predicate AllHeld(s: Pool) {
    s.idle == [] && forall c :: 0 <= c < s.current ==> IsHeld(s, c)
  }

  /** A thread that is about to sleep has found as many clients created as there may be, and each of them held. */
  lemma FullWhileFalling(s: Pool, t: Tid)
    requires Inv(s) && t in s.threads && s.threads[t].pc == FallingAsleep
    ensures s.current >= s.maxclients && AllHeld(s)
  {
    hide LockInv, ClientInv, BoundInv, IsHeld;
  }

  /** Only a full pool makes a thread wait: wherever in a run a thread takes the step that leads to its sleep, as many
      clients are created as there may be, each of them is held by a thread, and that is still so after the step. */
  lemma SleepsOnlyWhenFull(run: seq<Pool>, i: nat, t: Tid, a: Action)
    requires IsRun(run) && i < |run| - 1 && Step(run[i], run[i + 1], t, a)
    requires t in run[i + 1].threads && run[i + 1].threads[t].pc == FallingAsleep
    ensures a == Look
    ensures run[i].current >= run[i].maxclients && AllHeld(run[i])
    ensures run[i + 1].current >= run[i + 1].maxclients && AllHeld(run[i + 1])
  {
    hide IsRun, Inv, IsHeld;
    PartOfRun(run, i + 1);
    FullWhileFalling(run[i + 1], t);
    FellAsleep(run[i], run[i + 1], t, a);
  }

  lemma FellAsleep(s: Pool, s': Pool, t: Tid, a: Action)
    requires Step(s, s', t, a) && t in s'.threads && s'.threads[t].pc == FallingAsleep
    ensures s.idle == s'.idle && s.current == s'.current && s.maxclients == s'.maxclients && a == Look
    ensures forall c: Client :: IsHeld(s', c) ==> IsHeld(s, c)
  {
    OthersKept(s, s', t, a);
    forall c: Client | IsHeld(s', c) ensures IsHeld(s, c) {
      var u :| u in s'.threads && s'.threads[u].Held() == Some(c);
      assert s.threads[u].Held() == Some(c);
    }
  }

  /** Some thread other than `t` takes a step. */
  ghost predicate NextBut(s: Pool, s': Pool, t: Tid) {
    exists u, a :: u != t && Step(s, s', u, a)
  }

  /** Thread `t` takes no step from `i` to `j`. */
  ghost predicate Rests(run: seq<Pool>, i: nat, j: nat, t: Tid) {
    j < |run| && forall k :: i <= k < j ==> NextBut(run[k], run[k + 1], t)
  }

  /** While a thread is about to create a client, what it has seen stays so. */
  lemma CreatorUndisturbed(s: Pool, s': Pool, u: Tid, a: Action, t: Tid)
    requires LockInv(s) && Step(s, s', u, a) && u != t && t in s.threads && s.threads[t].pc == Creating
    ensures t in s'.threads && s'.threads[t] == s.threads[t] && s'.idle == s.idle && s'.current == s.current
  {
    OthersKept(s, s', u, a);
    if s.threads[u].Critical() { MutualExclusion(s, t, u); }
  }

  lemma {:induction false} CreatorWaits(run: seq<Pool>, i: nat, j: nat, t: Tid)
    requires IsRun(run) && i <= j < |run| && t in run[i].threads && run[i].threads[t].pc == Creating
    requires Rests(run, i, j, t)
    ensures t in run[j].threads && run[j].threads[t] == run[i].threads[t]
    ensures run[j].idle == run[i].idle && run[j].current == run[i].current
    decreases j
  {
    hide Step, IsRun, LockInv, ClientInv, NoneLost, BoundInv, WakeInv, FullInv;
    if i < j {
      CreatorWaits(run, i, j - 1, t);
      PartOfRun(run, j - 1);
      assert NextBut(run[j - 1], run[j], t);
      var u, a :| u != t && Step(run[j - 1], run[j], u, a);
      CreatorUndisturbed(run[j - 1], run[j], u, a, t);
    }
  }

  /** Where there is room and no client is idle, a thread that looks for one does not wait: its next step, whatever the
      other threads do before it, creates one. It gets that client, which nobody had before, unless creating it fails;
      then it goes without, and no client counts as created. */
  lemma RoomMeansNew(run: seq<Pool>, i: nat, j: nat, t: Tid, a: Action)
    requires IsRun(run) && i < j < |run| - 1 && Step(run[i], run[i + 1], t, Look)
    requires run[i].idle == [] && run[i].current < run[i].maxclients
    requires Rests(run, i + 1, j, t) && Step(run[j], run[j + 1], t, a)
    ensures a.Create? && run[j + 1].threads[t].pc == Leaving(if a.ok then Some(run[i].current) else None)
    ensures run[j + 1].current == run[i].current + if a.ok then 1 else 0
    ensures !IsHeld(run[i], run[i].current) && !IsHeld(run[j], run[i].current)
  {
    OthersKept(run[i], run[i + 1], t, Look);
    CreatorWaits(run, i + 1, j, t);
    PartOfRun(run, i);
    PartOfRun(run, j);
    NotYetHeld(run[i]);
    NotYetHeld(run[j]);
  }

  lemma NotYetHeld(s: Pool)
    requires ClientInv(s)
    ensures !IsHeld(s, s.current)
  {
    forall t | t in s.threads ensures s.threads[t].Held() != Some(s.current) {
      assert s.threads[t].Held().Some? ==> t in Holders(s);
    }
  }

  // ---------- clients in turn ----------

  ghost predicate Before(s: Pool, c: Client, d: Client) {
    exists p, q :: 0 <= p < q < |s.idle| && s.idle[p] == c && s.idle[q] == d
  }

  lemma ReturnedBehind(s: Pool, s': Pool, t: Tid, a: Action, c: Client, d: Client)
    requires ClientInv(s) && Step(s, s', t, a) && c in s.idle && d !in s.idle && d in s'.idle
    ensures Before(s', c, d)
  {
    OthersKept(s, s', t, a);
    var p :| 0 <= p < |s.idle| && s.idle[p] == c;
    assert s'.idle == s.idle + [d];
    assert s'.idle[p] == c && s'.idle[|s.idle|] == d;
  }

  lemma StaysBefore(s: Pool, s': Pool, t: Tid, a: Action, c: Client, d: Client)
    requires ClientInv(s) && Step(s, s', t, a) && Before(s, c, d) && c in s'.idle
    ensures Before(s', c, d)
  {
    OthersKept(s, s', t, a);
    var p, q :| 0 <= p < q < |s.idle| && s.idle[p] == c && s.idle[q] == d;
    if s'.idle == s.idle[1..] {
      assert p > 0 && s'.idle[p - 1] == c && s'.idle[q - 1] == d;
    } else {
      assert s'.idle[p] == c && s'.idle[q] == d;
    }
  }

  /** Clients are handed out in the order in which they came back: while a client waits that was idle when another one
      came back, that one is idle as well, behind it. */
  lemma {:induction false} HandedOutInTurn(run: seq<Pool>, i: nat, j: nat, c: Client, d: Client)
    requires IsRun(run) && i < j < |run| && d !in run[i].idle && d in run[i + 1].idle
    requires forall k :: i <= k <= j ==> c in run[k].idle
    ensures Before(run[j], c, d)
    decreases j
  {
    hide Step, Init, ClientInv, LockInv, NoneLost, BoundInv, WakeInv, FullInv, Before;
    PartOfRun(run, j - 1);
    assert Next(run[j - 1], run[j]);
    var t, a :| Step(run[j - 1], run[j], t, a);
    if i + 1 < j {
      HandedOutInTurn(run, i, j - 1, c, d);
      StaysBefore(run[j - 1], run[j], t, a, c, d);
    } else {
      ReturnedBehind(run[i], run[j], t, a, c, d);
    }
  }

  // ---------- after a sleep ----------

  lemma SleepsStep(s: Pool, s': Pool, u: Tid, a: Action, t: Tid)
    requires Step(s, s', u, a) && t in s.threads
    ensures t in s'.threads && s.threads[t].sleeps <= s'.threads[t].sleeps
  {
    OthersKept(s, s', u, a);
  }

  lemma {:induction false} SleepsNeverFall(run: seq<Pool>, i: nat, j: nat, t: Tid)
    requires IsRun(run) && i <= j < |run| && t in run[i].threads
    ensures t in run[j].threads && run[i].threads[t].sleeps <= run[j].threads[t].sleeps
    decreases j
  {
    hide Step, Init;
    if i < j {
      SleepsNeverFall(run, i, j - 1, t);
      assert Next(run[j - 1], run[j]);
      var u, a :| Step(run[j - 1], run[j], u, a);
      SleepsStep(run[j - 1], run[j], u, a, t);
    }
  }

  /** Once a thread has come back from a sleep, nobody else ever takes or gives back an idle client: whatever
      happens later in the run, other threads only call the pool functions, or wake up without getting on. */
  lemma OthersLockedOut(run: seq<Pool>, i: nat, j: nat, t: Tid, u: Tid, a: Action)
    requires IsRun(run) && i <= j < |run| - 1 && t in run[i].threads && run[i].threads[t].sleeps > 0
    requires Step(run[j], run[j + 1], u, a) && u != t
    ensures a.CallCheckout? || a.CallReturn? || a.WakeUp?
    ensures run[j + 1].idle == run[j].idle && run[j + 1].current == run[j].current
    ensures run[j + 1].threads[u].Held() == run[j].threads[u].Held()
  {
    SleepsNeverFall(run, i, j, t);
    PartOfRun(run, j);
  }

  ghost function Last(run: seq<Pool>): Pool
    requires run != []
  {
    run[|run| - 1]
  }

  lemma Then(run: seq<Pool>, s: Pool, t: Tid, a: Action) returns (longer: seq<Pool>)
    requires IsRun(run) && run != [] && Step(Last(run), s, t, a)
    ensures IsRun(longer) && longer != [] && Last(longer) == s
  {
    hide Step, Init;
    assert Next(Last(run), s);
    longer := run + [s];
  }

  /** `n` of the threads use a client each, all of them different, and the others have not called. */
  ghost function Filled(max: nat, n: nat): Pool {
    Pool(max, n, [], None, 0, map t: nat | 0 <= t <= max :: Thread(if t < n then Using(t) else Outside, 0))
  }

  /** The limit can be reached, whatever it is: as many threads as there is room for get a client without a wait. */
  lemma {:induction false} RoomForAll(max: nat, n: nat) returns (run: seq<Pool>)
    requires n <= max
    ensures IsRun(run) && run != [] && Last(run) == Filled(max, n)
  {
    hide IsRun;
    if n == 0 {
      run := [Filled(max, 0)];
      OneState(Filled(max, 0));
    } else {
      hide Init;
      run := RoomForAll(max, n - 1);
      run := OneMore(run, max, n - 1);
    }
  }

  lemma OneMore(run: seq<Pool>, max: nat, t: nat) returns (longer: seq<Pool>)
    requires IsRun(run) && run != [] && Last(run) == Filled(max, t) && t < max
    ensures IsRun(longer) && longer != [] && Last(longer) == Filled(max, t + 1)
  {
    hide IsRun, Init;
    longer := Then(run, Last(run).At(t, Entering(false)), t, CallCheckout);
    longer := Then(longer, Last(longer).Locked(t).At(t, Looking(false)), t, Acquire);
    longer := Then(longer, Last(longer).At(t, Creating), t, Look);
    longer := Then(longer, Last(longer).(current := t + 1).At(t, Leaving(Some(t))), t, Create(true));
    longer := Then(longer, Last(longer).Unlocked().At(t, Using(t)), t, Release);
    assert Last(longer).threads == Filled(max, t + 1).threads;
  }

  /** A thread takes the client that there is room for. */
  lemma OneTakes() returns (run: seq<Pool>)
    ensures IsRun(run) && run != []
    ensures Last(run) == Pool(1, 1, [], None, 0, map[0 := Thread(Using(0), 0), 1 := Thread(Outside, 0)])
  {
    hide IsRun;
    run := RoomForAll(1, 1);
    assert Filled(1, 1).threads == map[0 := Thread(Using(0), 0), 1 := Thread(Outside, 0)];
  }

  /** Another one finds none and sleeps. */
  lemma OtherSleeps() returns (run: seq<Pool>)
    ensures IsRun(run) && run != []
    ensures Last(run) == Pool(1, 1, [], None, 0, map[0 := Thread(Using(0), 0), 1 := Thread(Asleep, 0)])
  {
    hide IsRun, Init;
    run := OneTakes();
    run := Then(run, Last(run).At(1, Entering(false)), 1, CallCheckout);
    run := Then(run, Last(run).Locked(1).At(1, Looking(false)), 1, Acquire);
    run := Then(run, Last(run).At(1, FallingAsleep), 1, Look);
    run := Then(run, Last(run).Unlocked().At(1, Asleep), 1, Sleep);
    assert Last(run).threads == map[0 := Thread(Using(0), 0), 1 := Thread(Asleep, 0)];
  }

  /** The first returns the client and wakes the sleeper. */
  lemma OneReturns() returns (run: seq<Pool>)
    ensures IsRun(run) && run != []
    ensures Last(run) == Pool(1, 1, [0], None, 0, map[0 := Thread(Outside, 0), 1 := Thread(Woken, 0)])
  {
    hide IsRun, Init;
    run := OtherSleeps();
    run := Then(run, Last(run).At(0, Returning(0)), 0, CallReturn);
    run := Then(run, Last(run).Locked(0).At(0, Appending(0)), 0, AcquireReturn);
    run := Then(run, Last(run).(idle := [0]).At(0, Signalling), 0, Append);
    run := Then(run, Last(run).Unlocked().At(1, Woken).At(0, Outside), 0, Signal(Some(1)));
    assert Last(run).threads == map[0 := Thread(Outside, 0), 1 := Thread(Woken, 0)];
  }

  /** With room for one client, a thread that has slept until it was returned still owns the mutex when it is done. */
  lemma SleeperKeepsLock() returns (run: seq<Pool>)
    ensures IsRun(run) && run != []
    ensures Last(run) == Pool(1, 1, [], Some(1), 1, map[0 := Thread(Outside, 0), 1 := Thread(Using(0), 1)])
  {
    hide IsRun, Init;
    run := OneReturns();
    var woken := Last(run);
    run := Then(run, woken.Locked(1).(threads := woken.threads[1 := Thread(Entering(true), 1)]), 1, Relock);
    run := Then(run, Last(run).Locked(1).At(1, Looking(true)), 1, Acquire);
    run := Then(run, Last(run).(idle := []).At(1, Leaving(Some(0))), 1, Look);
    run := Then(run, Last(run).Unlocked().At(1, Using(0)), 1, Release);
    assert Last(run).threads == map[0 := Thread(Outside, 0), 1 := Thread(Using(0), 1)];
  }

  lemma OneState(s: Pool)
    requires Init(s)
    ensures IsRun([s])
  {
  }
}
