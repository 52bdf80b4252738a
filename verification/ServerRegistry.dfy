/**
 The server's thread registries: every TCP connection is a task running `client_loop`;
 its thread is listed in `unauthorized_clients` or filed in `clients`. Each locked section
 is one atomic step and the steps of all tasks interleave freely. Threads are reference
 counted, and other parts of the server hold short-lived clones of them.
 */
module ServerRegistry {
  import opened Collections

  type TaskId = nat
  type ThreadId = nat
  type Peer = nat

  datatype Phase =
    | Starting                                  // waiting for the stream marker
    | Unauth(thread: ThreadId)                  // running an unauthorized thread
    | Upgrading(thread: ThreadId)               // delisted, about to unwrap and upgrade it
    | Auth(thread: ThreadId, peer: Peer)        // running an authorized thread
    | Leaving(thread: ThreadId, terminate: bool) // delisted, waiting for other references to go
    | Downgrading(thread: ThreadId)             // about to unwrap and downgrade it
    | Recovering                                // took the recovery marker, reads account and key
    | Borrowing(thread: ThreadId)               // holds a clone of the thread it hands its socket to
    | Finished
    | Panicked                                  // an `expect` failed

  datatype Server = Server(
    clients: map<Peer, ThreadId>,
    unauthorized: seq<ThreadId>,
    tasks: map<TaskId, Phase>,
    clones: multiset<ThreadId>,
    next: ThreadId)

  datatype Event =
    | Accept(task: TaskId)
    | MarkerInitial(task: TaskId)
    | MarkerRecovery(task: TaskId)
    | RecoveryReadFails(task: TaskId)
    | RecoveryLookup(task: TaskId, found: Option<ThreadId>)
    | RecoveryReturns(task: TaskId)
    | MarkerInvalid(task: TaskId)
    | UnauthEnds(task: TaskId, upgrade: bool)
    | Upgrade(task: TaskId, peer: Peer)
    | AuthEnds(task: TaskId, terminate: bool)
    | ClonesGone(task: TaskId)
    | Downgrade(task: TaskId)
    | CloneUnauth(thread: ThreadId)
    | CloneAuth(peer: Peer)
    | DropClone(thread: ThreadId)

  const EMPTY := Server(map[], [], map[], multiset{}, 0)

  function IndexOf(xs: seq<ThreadId>, t: ThreadId): (k: nat)
    requires t in xs
    ensures k < |xs| && xs[k] == t && t !in xs[..k]
  {
    if xs[0] == t then 0 else 1 + IndexOf(xs[1..], t)
  }

  function Removed(xs: seq<ThreadId>, t: ThreadId): (r: seq<ThreadId>)
    requires t in xs
  {
    Without(xs, IndexOf(xs, t))
  }

  function Set(s: Server, task: TaskId, p: Phase): (r: Server) {
    s.(tasks := s.tasks[task := p])
  }

  /** Someone besides its task holds a reference to the thread: a short-lived clone, or a recovery connection. */
  predicate Shared(s: Server, t: ThreadId) {
    s.clones[t] > 0 || exists a :: a in s.tasks && s.tasks[a] == Borrowing(t)
  }

  predicate Listing(s: Server, found: Option<ThreadId>) {
    found.Some? && found.value in s.unauthorized
  }

  function Step(s: Server, e: Event): (r: Server) {
    match e
    case Accept(task) => if task in s.tasks then s else Set(s, task, Starting)
    case MarkerInitial(task) =>
      if task !in s.tasks || !s.tasks[task].Starting? then s
      else Set(s, task, Unauth(s.next)).(unauthorized := s.unauthorized + [s.next], next := s.next + 1)
    case MarkerRecovery(task) =>
      if task !in s.tasks || !s.tasks[task].Starting? then s else Set(s, task, Recovering)
    case RecoveryReadFails(task) =>
      if task !in s.tasks || !s.tasks[task].Recovering? then s else Set(s, task, Finished)
    case RecoveryLookup(task, found) =>
      if task !in s.tasks || !s.tasks[task].Recovering? then s
      else Set(s, task, if Listing(s, found) then Borrowing(found.value) else Finished)
    case RecoveryReturns(task) =>
      if task !in s.tasks || !s.tasks[task].Borrowing? then s else Set(s, task, Finished)
    case MarkerInvalid(task) =>
      if task !in s.tasks || !s.tasks[task].Starting? then s else Set(s, task, Finished)
    case UnauthEnds(task, upgrade) =>
      if task !in s.tasks || !s.tasks[task].Unauth? then s
      else
        var t := s.tasks[task].thread;
        if t !in s.unauthorized then Set(s, task, Panicked)
        else Set(s, task, if upgrade then Upgrading(t) else Finished).(unauthorized := Removed(s.unauthorized, t))
    case Upgrade(task, peer) =>
      if task !in s.tasks || !s.tasks[task].Upgrading? then s
      else if Shared(s, s.tasks[task].thread) then Set(s, task, Panicked)
      else Set(s, task, Auth(s.next, peer)).(clients := s.clients[peer := s.next], next := s.next + 1)
    case AuthEnds(task, terminate) =>
      if task !in s.tasks || !s.tasks[task].Auth? then s
      else
        var a := s.tasks[task];
        Set(s, task, Leaving(a.thread, terminate)).(clients := s.clients - {a.peer})
    case ClonesGone(task) =>
      if task !in s.tasks || !s.tasks[task].Leaving? || Shared(s, s.tasks[task].thread) then s
      else Set(s, task, if s.tasks[task].terminate then Finished else Downgrading(s.tasks[task].thread))
    case Downgrade(task) =>
      if task !in s.tasks || !s.tasks[task].Downgrading? then s
      else if Shared(s, s.tasks[task].thread) then Set(s, task, Panicked)
      else Set(s, task, Unauth(s.next)).(unauthorized := s.unauthorized + [s.next], next := s.next + 1)
    case CloneUnauth(t) => if t in s.unauthorized then s.(clones := s.clones + multiset{t}) else s
    case CloneAuth(peer) => if peer in s.clients then s.(clones := s.clones + multiset{s.clients[peer]}) else s
    case DropClone(t) => s.(clones := s.clones - multiset{t})
  }

  function After(s: Server, es: seq<Event>): (r: Server) {
    if es == [] then s else Step(After(s, es[..|es| - 1]), es[|es| - 1])
  }

  // ---------------------------------------------------------------- the invariant

  predicate Holding(p: Phase) {
    p.Unauth? || p.Upgrading? || p.Auth? || p.Leaving? || p.Downgrading?
  }

  /** Each thread belongs to one task, and thread numbers are not reused. */
  predicate Owned(s: Server) {
    && (forall a, b | a in s.tasks && b in s.tasks && Holding(s.tasks[a]) && Holding(s.tasks[b]) ::
          s.tasks[a].thread == s.tasks[b].thread ==> a == b)
    && (forall a | a in s.tasks && Holding(s.tasks[a]) :: s.tasks[a].thread < s.next)
    && (forall t | t in s.clones :: t < s.next)
  }

  predicate NoRepeats(xs: seq<ThreadId>) {
    forall j, k :: 0 <= j < k < |xs| ==> xs[j] != xs[k]
  }

  ghost predicate Runs(s: Server, p: Phase) {
    exists a :: a in s.tasks && s.tasks[a] == p
  }

  /** `unauthorized_clients` lists exactly the threads of the tasks that run one, each once. */
  ghost predicate Listed(s: Server) {
    && NoRepeats(s.unauthorized)
    && (forall a | a in s.tasks && s.tasks[a].Unauth? :: s.tasks[a].thread in s.unauthorized)
    && (forall t | t in s.unauthorized :: Runs(s, Unauth(t)))
  }

  /** Every entry of `clients` names a live authorized thread, filed under its own peer. */
  ghost predicate Filed(s: Server) {
    forall p | p in s.clients :: Runs(s, Auth(s.clients[p], p))
  }

  /** Once the wait for other references is over, none can appear again. */
  predicate Unshared(s: Server) {
    forall a | a in s.tasks && s.tasks[a].Downgrading? :: !Shared(s, s.tasks[a].thread)
  }

  /** Only unauthorized threads are borrowed: none that is or was authorized. */
  predicate Lent(s: Server) {
    forall a | a in s.tasks && s.tasks[a].Borrowing? ::
      && s.tasks[a].thread < s.next
      && forall b | b in s.tasks && WasAuthorized(s.tasks[b]) :: s.tasks[b].thread != s.tasks[a].thread
  }

  predicate WasAuthorized(p: Phase) {
    p.Auth? || p.Leaving? || p.Downgrading?
  }

  ghost predicate Inv(s: Server) {
    Owned(s) && Listed(s) && Filed(s) && Unshared(s) && Lent(s)
  }

  lemma {:induction false} RemovedKeeps(xs: seq<ThreadId>, t: ThreadId)
    requires t in xs && NoRepeats(xs)
    ensures NoRepeats(Removed(xs, t))
    ensures forall x :: x in Removed(xs, t) <==> x in xs && x != t
  {
    var k := IndexOf(xs, t);
    var r := Removed(xs, t);
    hide Without, NoRepeats;
    WithoutKeeps(xs, k, r);
  }

  lemma {:induction false} WithoutKeeps(xs: seq<ThreadId>, k: nat, r: seq<ThreadId>)
    requires k < |xs| && NoRepeats(xs) && r == Without(xs, k)
    ensures NoRepeats(r) && forall x :: x in r <==> x in xs && x != xs[k]
  {
    hide Without;
    forall x | x in r
      ensures x in xs && x != xs[k]
    {
      var j :| 0 <= j < |r| && r[j] == x;
      assert x == xs[if j < k then j else j + 1];
    }
    forall x | x in xs && x != xs[k]
      ensures x in r
    {
      var j :| 0 <= j < |xs| && xs[j] == x;
      assert r[if j < k then j else j - 1] == x;
    }
  }

  /** What a step does to the tasks: one of them moves on, keeping its thread, taking a fresh one or letting go. */
  predicate Moves(s: Server, r: Server, task: TaskId, q: Phase) {
    && r.tasks == s.tasks[task := q] && s.next <= r.next
    && (Holding(q) ==>
          || (q.thread == s.next && r.next == s.next + 1)
          || (task in s.tasks && Holding(s.tasks[task]) && q.thread == s.tasks[task].thread))
  }

  lemma {:induction false} StepMoves(s: Server, e: Event)
    requires !e.CloneUnauth? && !e.CloneAuth? && !e.DropClone?
    ensures Step(s, e).clones == s.clones
    ensures Step(s, e) == s || (e.task in Step(s, e).tasks && Moves(s, Step(s, e), e.task, Step(s, e).tasks[e.task]))
  {
    hide Removed, IndexOf;
  }

  lemma MovesKeepOwned(s: Server, r: Server, task: TaskId, q: Phase)
    requires Owned(s) && Moves(s, r, task, q) && r.clones == s.clones
    ensures Owned(r)
  {
  }

  /** A thread that is listed or filed has a task running it. */
  lemma {:induction false} CloneOwner(s: Server, e: Event)
    requires Inv(s) && (e.CloneUnauth? || e.CloneAuth?)
    ensures Step(s, e) == s || exists t: ThreadId ::
              && Step(s, e) == s.(clones := s.clones + multiset{t}) && t < s.next
              && (Runs(s, Unauth(t)) || (e.CloneAuth? && Runs(s, Auth(t, e.peer))))
  {
    if e.CloneUnauth? && e.thread in s.unauthorized {
      RunningIsOld(s, Unauth(e.thread));
      hide Owned, Listed, Filed, Unshared, Lent, Runs;
      assert Step(s, e) == s.(clones := s.clones + multiset{e.thread});
    } else if e.CloneAuth? && e.peer in s.clients {
      RunningIsOld(s, Auth(s.clients[e.peer], e.peer));
      hide Owned, Listed, Filed, Unshared, Lent, Runs;
      assert Step(s, e) == s.(clones := s.clones + multiset{s.clients[e.peer]});
    }
  }

  lemma RunningIsOld(s: Server, p: Phase)
    requires Owned(s) && Holding(p) && Runs(s, p)
    ensures p.thread < s.next
  {
  }

  lemma {:induction false} StepKeepsOwned(s: Server, e: Event)
    requires Inv(s)
    ensures Owned(Step(s, e))
  {
    if e.CloneUnauth? || e.CloneAuth? {
      CloneOwner(s, e);
      hide Step, Listed, Filed, Unshared;
    } else if !e.DropClone? {
      StepMoves(s, e);
      hide Step, Moves, Owned, Listed, Filed, Unshared;
      if Step(s, e) != s { MovesKeepOwned(s, Step(s, e), e.task, Step(s, e).tasks[e.task]); }
    }
  }

  lemma {:induction false} StepKeepsUnshared(s: Server, e: Event)
    requires Inv(s)
    ensures Unshared(Step(s, e))
  {
    if e.CloneUnauth? || e.CloneAuth? {
      CloneOwner(s, e);
      hide Step, Listed, Filed, Lent;
    } else if e.RecoveryLookup? {
      BorrowKeepsUnshared(s, e);
    } else if !e.DropClone? {
      StepKinds(s, e);
      hide Step, Owned, Listed, Filed, Lent, Shared, Promotes;
      if Step(s, e) != s { PromotesKeepsUnshared(s, Step(s, e), e.task, Step(s, e).tasks[e.task]); }
    }
  }

  /**
   What a step does beside borrowing: one task moves on, to an authorized thread only if it is fresh
   or was authorized before, and to a downgrade only when nobody else holds the thread.
   */
  predicate Promotes(s: Server, r: Server, task: TaskId, q: Phase) {
    && r.tasks == s.tasks[task := q] && r.clones == s.clones && s.next <= r.next && !q.Borrowing?
    && (WasAuthorized(q) ==>
          || (q.thread == s.next && r.next == s.next + 1)
          || (task in s.tasks && WasAuthorized(s.tasks[task]) && q.thread == s.tasks[task].thread))
    && (q.Downgrading? ==> !Shared(s, q.thread))
  }

  lemma {:induction false} StepKinds(s: Server, e: Event)
    requires !e.CloneUnauth? && !e.CloneAuth? && !e.DropClone? && !e.RecoveryLookup?
    ensures Step(s, e) == s || (e.task in Step(s, e).tasks && Promotes(s, Step(s, e), e.task, Step(s, e).tasks[e.task]))
  {
    hide Removed, IndexOf, Shared;
  }

  lemma {:induction false} PromotesKeepsUnshared(s: Server, r: Server, task: TaskId, q: Phase)
    requires Unshared(s) && Promotes(s, r, task, q)
    ensures Unshared(r)
  {
  }

  lemma {:induction false} PromotesKeepsLent(s: Server, r: Server, task: TaskId, q: Phase)
    requires Lent(s) && Promotes(s, r, task, q)
    ensures Lent(r)
  {
    hide Shared;
  }

  lemma {:induction false} BorrowKeepsUnshared(s: Server, e: Event)
    requires Inv(s) && e.RecoveryLookup?
    ensures Unshared(Step(s, e))
  {
    hide Filed, Lent, NoRepeats;
    if Listing(s, e.found) {
      assert Runs(s, Unauth(e.found.value));
    }
  }

  lemma {:induction false} StepKeepsLent(s: Server, e: Event)
    requires Inv(s)
    ensures Lent(Step(s, e))
  {
    if e.RecoveryLookup? {
      BorrowKeepsLent(s, e);
    } else if !e.CloneUnauth? && !e.CloneAuth? && !e.DropClone? {
      StepKinds(s, e);
      hide Step, Owned, Listed, Filed, Unshared, Lent, Promotes;
      if Step(s, e) != s { PromotesKeepsLent(s, Step(s, e), e.task, Step(s, e).tasks[e.task]); }
    }
  }

  lemma {:induction false} BorrowKeepsLent(s: Server, e: Event)
    requires Inv(s) && e.RecoveryLookup?
    ensures Lent(Step(s, e))
  {
    hide Filed, Unshared, NoRepeats;
    if Listing(s, e.found) {
      assert Runs(s, Unauth(e.found.value));
    }
  }

  lemma {:induction false} StepKeepsFiled(s: Server, e: Event)
    requires Inv(s)
    ensures Filed(Step(s, e))
  {
    if e.CloneUnauth? || e.CloneAuth? || e.DropClone? {
      assert Step(s, e) == s.(clones := Step(s, e).clones);
      hide Step, Owned, Listed, Unshared, Lent, Filed;
      SameFiling(s, Step(s, e));
    } else {
      StepFiles(s, e);
      hide Step, Owned, Listed, Unshared, Lent, Files, Filed;
      if Step(s, e) != s { FilesKeepsFiled(s, Step(s, e), e.task, Step(s, e).tasks[e.task]); }
    }
  }

  /** What a step does to `clients`: an authorized thread that ends takes its peer out, one that begins files itself. */
  predicate Files(s: Server, r: Server, task: TaskId, q: Phase) {
    && r.tasks == s.tasks[task := q]
    && r.clients == (if task in s.tasks && s.tasks[task].Auth? then s.clients - {s.tasks[task].peer}
                     else if q.Auth? then s.clients[q.peer := q.thread]
                     else s.clients)
  }

  lemma {:induction false} StepFiles(s: Server, e: Event)
    requires !e.CloneUnauth? && !e.CloneAuth? && !e.DropClone?
    ensures Step(s, e) == s || (e.task in Step(s, e).tasks && Files(s, Step(s, e), e.task, Step(s, e).tasks[e.task]))
  {
    hide Removed, IndexOf, Shared;
  }

  lemma {:induction false} SameFiling(s: Server, r: Server)
    requires Filed(s) && r.tasks == s.tasks && r.clients == s.clients
    ensures Filed(r)
  {
    forall p | p in r.clients
      ensures Runs(r, Auth(r.clients[p], p))
    {
      assert Runs(s, Auth(s.clients[p], p));
    }
  }

  lemma {:induction false} FilesKeepsFiled(s: Server, r: Server, task: TaskId, q: Phase)
    requires Filed(s) && Files(s, r, task, q)
    ensures Filed(r)
  {
    forall p | p in r.clients
      ensures Runs(r, Auth(r.clients[p], p))
    {
      if p in s.clients && r.clients[p] == s.clients[p] {
        var a :| a in s.tasks && s.tasks[a] == Auth(s.clients[p], p);
        assert r.tasks[if a == task then task else a] == if a == task then q else s.tasks[a];
      } else {
        assert r.tasks[task] == Auth(r.clients[p], p);
      }
    }
  }

  lemma {:induction false} FreshThread(s: Server)
    requires Inv(s)
    ensures s.next !in s.unauthorized
  {
    forall t | t in s.unauthorized
      ensures t < s.next
    {
      var a :| a in s.tasks && s.tasks[a] == Unauth(t);
    }
  }

  lemma {:induction false} StepKeepsListed(s: Server, e: Event)
    requires Inv(s)
    ensures Listed(Step(s, e))
  {
    if e.UnauthEnds? {
      if e.task in s.tasks && s.tasks[e.task].Unauth? { DelistKeepsListed(s, e); }
    } else if e.CloneUnauth? || e.CloneAuth? || e.DropClone? {
      assert Step(s, e) == s.(clones := Step(s, e).clones);
      hide Step, Owned, Filed, Unshared, Lent, Listed;
      SameListing(s, Step(s, e));
    } else {
      FreshThread(s);
      StepLists(s, e);
      hide Step, Owned, Filed, Unshared, Lent, Relists, Listed;
      if Step(s, e) != s { RelistsKeepsListed(s, Step(s, e), e.task, Step(s, e).tasks[e.task]); }
    }
  }

  /** What a step beside the end of an unauthorized thread does to the list: a task that starts one lists it. */
  predicate Relists(s: Server, r: Server, task: TaskId, q: Phase) {
    && r.tasks == s.tasks[task := q] && (task in s.tasks ==> !s.tasks[task].Unauth?)
    && (q.Unauth? ==> q.thread == s.next)
    && r.unauthorized == if q.Unauth? then s.unauthorized + [s.next] else s.unauthorized
  }

  lemma {:induction false} StepLists(s: Server, e: Event)
    requires !e.CloneUnauth? && !e.CloneAuth? && !e.DropClone? && !e.UnauthEnds?
    ensures Step(s, e) == s || (e.task in Step(s, e).tasks && Relists(s, Step(s, e), e.task, Step(s, e).tasks[e.task]))
  {
    hide Removed, IndexOf, Shared;
  }

  lemma {:induction false} SameListing(s: Server, r: Server)
    requires Listed(s) && r.tasks == s.tasks && r.unauthorized == s.unauthorized
    ensures Listed(r)
  {
    forall t | t in r.unauthorized
      ensures Runs(r, Unauth(t))
    {
      assert Runs(s, Unauth(t));
    }
  }

  lemma {:induction false} RelistsKeepsListed(s: Server, r: Server, task: TaskId, q: Phase)
    requires Listed(s) && s.next !in s.unauthorized && Relists(s, r, task, q)
    ensures Listed(r)
  {
    assert r.tasks[task] == q;
    forall t | t in s.unauthorized
      ensures Runs(r, Unauth(t))
    {
      var a :| a in s.tasks && s.tasks[a] == Unauth(t);
      assert r.tasks[a] == s.tasks[a];
    }
  }

  lemma {:induction false} DelistKeepsListed(s: Server, e: Event)
    requires Inv(s) && e.UnauthEnds? && e.task in s.tasks && s.tasks[e.task].Unauth?
    ensures Listed(Step(s, e))
  {
    var r, t := Step(s, e), s.tasks[e.task].thread;
    RemovedKeeps(s.unauthorized, t);
    hide Removed, Unshared, Filed, NoRepeats;
    forall x | x in r.unauthorized
      ensures Runs(r, Unauth(x))
    {
      var a :| a in s.tasks && s.tasks[a] == Unauth(x);
      assert r.tasks[a] == s.tasks[a];
    }
  }

  lemma {:induction false} InvAlways(es: seq<Event>)
    ensures Inv(After(EMPTY, es))
  {
    if es != [] {
      var s, e := After(EMPTY, es[..|es| - 1]), es[|es| - 1];
      InvAlways(es[..|es| - 1]);
      StepKeepsOwned(s, e);
      StepKeepsListed(s, e);
      StepKeepsFiled(s, e);
      StepKeepsUnshared(s, e);
      StepKeepsLent(s, e);
      hide Step, Owned, Listed, Filed, Unshared, Lent;
    }
  }

  // ---------------------------------------------------------------- what every interleaving guarantees

  /** "failed to find thread in unauthorized thread list" cannot happen. */
  lemma {:induction false} LookupNeverFails(es: seq<Event>, task: TaskId, upgrade: bool)
    requires task in After(EMPTY, es).tasks && After(EMPTY, es).tasks[task].Unauth?
    ensures
      var s := After(EMPTY, es);
      var r := Step(s, UnauthEnds(task, upgrade));
      r.tasks[task] == if upgrade then Upgrading(s.tasks[task].thread) else Finished
  {
    InvAlways(es);
    hide After;
  }

  /** Unwrapping the authorized thread after the wait for its other references cannot fail. */
  lemma {:induction false} UnwrapAfterWait(es: seq<Event>, task: TaskId)
    requires task in After(EMPTY, es).tasks && After(EMPTY, es).tasks[task].Downgrading?
    ensures Step(After(EMPTY, es), Downgrade(task)).tasks[task].Unauth?
  {
    InvAlways(es);
    hide After;
  }

  /** Unwrapping the unauthorized thread has no such wait: it fails exactly when a clone or a recovery connection still holds it. */
  lemma UnwrapOnUpgrade(s: Server, task: TaskId, peer: Peer)
    requires task in s.tasks && s.tasks[task].Upgrading?
    ensures Step(s, Upgrade(task, peer)).tasks[task].Panicked? <==> Shared(s, s.tasks[task].thread)
    ensures !Step(s, Upgrade(task, peer)).tasks[task].Panicked? ==>
              && Step(s, Upgrade(task, peer)).tasks[task] == Auth(s.next, peer)
              && Step(s, Upgrade(task, peer)).clients == s.clients[peer := s.next]
  {
  }

  /** A claim that is still holding its clone when the claimed task upgrades: a reachable failure. */
  lemma {:induction false} ClaimStillHolding() returns (es: seq<Event>)
    ensures 0 in After(EMPTY, es).tasks && After(EMPTY, es).tasks[0].Panicked?
  {
    ClaimSteps();
    es := ListedAndClaimed(CLAIMED);
    hide Step, After;
    Unroll(EMPTY, es, UnauthEnds(0, true));
    es := es + [UnauthEnds(0, true)];
    Unroll(EMPTY, es, Upgrade(0, 7));
    es := es + [Upgrade(0, 7)];
  }

  const CLAIMED := Server(map[], [0], map[0 := Unauth(0)], multiset{0}, 1)
  const HELD := Server(map[], [], map[0 := Upgrading(0)], multiset{0}, 1)

  lemma {:induction false} ClaimSteps()
    ensures Step(CLAIMED, UnauthEnds(0, true)) == HELD
    ensures 0 in Step(HELD, Upgrade(0, 7)).tasks && Step(HELD, Upgrade(0, 7)).tasks[0].Panicked?
  {
    assert Removed([0], 0) == [];
  }

  /** A recovery connection that has handed its socket over and not yet returned: the same failure. */
  lemma {:induction false} RecoveryStillHolding() returns (es: seq<Event>)
    ensures 0 in After(EMPTY, es).tasks && After(EMPTY, es).tasks[0].Panicked?
  {
    es := Accepted();
    es := LoggingIn(es);
    BorrowSteps();
    hide Step, After;
    Unroll(EMPTY, es, Accept(1));
    es := es + [Accept(1)];
    Unroll(EMPTY, es, MarkerRecovery(1));
    es := es + [MarkerRecovery(1)];
    Unroll(EMPTY, es, RecoveryLookup(1, Some(0)));
    es := es + [RecoveryLookup(1, Some(0))];
    Unroll(EMPTY, es, UnauthEnds(0, true));
    es := es + [UnauthEnds(0, true)];
    Unroll(EMPTY, es, Upgrade(0, 7));
    es := es + [Upgrade(0, 7)];
  }

  const LISTED := Server(map[], [0], map[0 := Unauth(0)], multiset{}, 1)
  const BORROWED := LISTED.(tasks := map[0 := Unauth(0), 1 := Borrowing(0)])
  const DELISTED := BORROWED.(tasks := map[0 := Upgrading(0), 1 := Borrowing(0)], unauthorized := [])

  lemma {:induction false} BorrowSteps()
    ensures Step(Step(Step(LISTED, Accept(1)), MarkerRecovery(1)), RecoveryLookup(1, Some(0))) == BORROWED
    ensures Step(BORROWED, UnauthEnds(0, true)) == DELISTED
    ensures 0 in Step(DELISTED, Upgrade(0, 7)).tasks && Step(DELISTED, Upgrade(0, 7)).tasks[0].Panicked?
  {
    assert Removed([0], 0) == [];
    assert DELISTED.tasks[1] == Borrowing(0);
  }

  lemma {:induction false} ListedAndClaimed(s: Server) returns (es: seq<Event>)
    requires s == Server(map[], [0], map[0 := Unauth(0)], multiset{0}, 1)
    ensures After(EMPTY, es) == s
  {
    es := Accepted();
    es := LoggingIn(es);
    Unroll(EMPTY, es, CloneUnauth(0));
    es := es + [CloneUnauth(0)];
    hide After;
  }

  lemma {:induction false} Accepted() returns (es: seq<Event>)
    ensures After(EMPTY, es) == Server(map[], [], map[0 := Starting], multiset{}, 0)
  {
    es := [] + [Accept(0)];
    Unroll(EMPTY, [], Accept(0));
    assert After(EMPTY, []) == EMPTY;
    hide After;
  }

  lemma {:induction false} LoggingIn(before: seq<Event>) returns (es: seq<Event>)
    requires After(EMPTY, before) == Server(map[], [], map[0 := Starting], multiset{}, 0)
    ensures After(EMPTY, es) == Server(map[], [0], map[0 := Unauth(0)], multiset{}, 1)
  {
    es := before + [MarkerInitial(0)];
    Unroll(EMPTY, before, MarkerInitial(0));
    hide After;
    var s := Server(map[], [], map[0 := Starting], multiset{}, 0);
    assert s.tasks[0 := Unauth(0)] == map[0 := Unauth(0)];
    assert s.unauthorized + [0] == [0];
  }

  lemma {:induction false} Unroll(s: Server, es: seq<Event>, e: Event)
    ensures After(s, es + [e]) == Step(After(s, es), e)
  {
    assert (es + [e])[..|es|] == es;
    hide Step;
  }

  // ---------------------------------------------------------------- the client map

  /** Every running authorized thread is filed under its peer. */
  predicate Exact(s: Server) {
    forall a | a in s.tasks && s.tasks[a].Auth? :: s.tasks[a].peer in s.clients && s.clients[s.tasks[a].peer] == s.tasks[a].thread
  }

  /** The event would file a thread under a peer that a live authorized thread already uses. */
  ghost predicate Collides(s: Server, e: Event) {
    && e.Upgrade? && e.task in s.tasks && s.tasks[e.task].Upgrading? && !Shared(s, s.tasks[e.task].thread)
    && exists a :: a in s.tasks && s.tasks[a].Auth? && s.tasks[a].peer == e.peer
  }

  /** Filing stays complete through a step exactly when the step does not collide. */
  lemma {:induction false} ExactStep(s: Server, e: Event)
    requires Inv(s) && Exact(s)
    ensures Exact(Step(s, e)) <==> !Collides(s, e)
  {
    hide Removed, Listed, Filed, Unshared;
    if Collides(s, e) {
      var a :| a in s.tasks && s.tasks[a].Auth? && s.tasks[a].peer == e.peer;
      var r := Step(s, e);
      assert r.tasks[a] == s.tasks[a] && r.clients[e.peer] == s.next;
    } else if e.AuthEnds? {
      EndKeepsExact(s, e);
    }
  }

  const FILED := Server(map[7 := 1], [], map[0 := Auth(1, 7)], multiset{}, 2)
  const READY := Server(map[7 := 1], [], map[0 := Auth(1, 7), 1 := Upgrading(2)], multiset{}, 3)

  lemma {:induction false} FileSteps()
    ensures Step(Step(LISTED, UnauthEnds(0, true)), Upgrade(0, 7)) == FILED
  {
    assert Removed([0], 0) == [];
    var s := Step(LISTED, UnauthEnds(0, true));
    assert s == Server(map[], [], map[0 := Upgrading(0)], multiset{}, 1);
  }

  const SECOND := Server(map[7 := 1], [2], map[0 := Auth(1, 7), 1 := Unauth(2)], multiset{}, 3)

  lemma {:induction false} SecondSteps()
    ensures Step(Step(FILED, Accept(1)), MarkerInitial(1)) == SECOND
  {
  }

  lemma {:induction false} ReadySteps()
    ensures Step(Step(Step(FILED, Accept(1)), MarkerInitial(1)), UnauthEnds(1, true)) == READY
  {
    SecondSteps();
    assert Removed([2], 2) == [];
    assert Step(SECOND, UnauthEnds(1, true)) == READY;
    hide *;
  }

  lemma {:induction false} CollideSteps()
    ensures Exact(READY) && Collides(READY, Upgrade(1, 7)) && !Exact(Step(READY, Upgrade(1, 7)))
  {
    assert READY.tasks[0] == Auth(1, 7);
    var r := Step(READY, Upgrade(1, 7));
    assert r.tasks[0] == Auth(1, 7) && r.clients[7] == 3;
  }

  /** Collisions can happen: two clients that claim their threads from one address. */
  lemma {:induction false} SamePeerTwice() returns (es: seq<Event>)
    ensures Exact(After(EMPTY, es)) && Collides(After(EMPTY, es), Upgrade(1, 7))
    ensures !Exact(After(EMPTY, es + [Upgrade(1, 7)]))
  {
    es := Accepted();
    es := LoggingIn(es);
    FileSteps();
    ReadySteps();
    CollideSteps();
    hide Step, After, Collides, Exact;
    Unroll(EMPTY, es, UnauthEnds(0, true));
    es := es + [UnauthEnds(0, true)];
    Unroll(EMPTY, es, Upgrade(0, 7));
    es := es + [Upgrade(0, 7)];
    Unroll(EMPTY, es, Accept(1));
    es := es + [Accept(1)];
    Unroll(EMPTY, es, MarkerInitial(1));
    es := es + [MarkerInitial(1)];
    Unroll(EMPTY, es, UnauthEnds(1, true));
    es := es + [UnauthEnds(1, true)];
    Unroll(EMPTY, es, Upgrade(1, 7));
  }

  lemma {:induction false} EndKeepsExact(s: Server, e: Event)
    requires Owned(s) && Exact(s) && e.AuthEnds?
    ensures Exact(Step(s, e))
  {
    hide Removed;
  }

  lemma {:induction false} ExactAlways(es: seq<Event>)
    requires forall k :: 0 <= k < |es| ==> !Collides(After(EMPTY, es[..k]), es[k])
    ensures Exact(After(EMPTY, es))
  {
    if es != [] {
      var n := |es| - 1;
      var h := es[..n];
      forall k | 0 <= k < n
        ensures !Collides(After(EMPTY, h[..k]), h[k])
      {
        assert h[..k] == es[..k];
      }
      hide Collides, Step, Inv;
      ExactAlways(h);
      InvAlways(h);
      ExactStep(After(EMPTY, h), es[n]);
    }
  }

  /** While peers never collide, the two registries divide the running tasks between them. */
  lemma {:induction false} RegistriesPartition(es: seq<Event>, t: ThreadId)
    requires forall k :: 0 <= k < |es| ==> !Collides(After(EMPTY, es[..k]), es[k])
    ensures
      var s := After(EMPTY, es);
      && (t in s.unauthorized <==> Runs(s, Unauth(t)))
      && (t in s.clients.Values <==> exists p :: Runs(s, Auth(t, p)))
      && !(t in s.unauthorized && t in s.clients.Values)
  {
    ExactAlways(es);
    InvAlways(es);
    var s := After(EMPTY, es);
    hide After, Step, Collides;
    PartitionOf(s, t);
  }

  lemma {:induction false} PartitionOf(s: Server, t: ThreadId)
    requires Inv(s) && Exact(s)
    ensures t in s.unauthorized <==> Runs(s, Unauth(t))
    ensures t in s.clients.Values <==> exists p :: Runs(s, Auth(t, p))
    ensures !(t in s.unauthorized && t in s.clients.Values)
  {
    if p :| Runs(s, Auth(t, p)) {
      assert s.clients[p] == t;
    }
    if t in s.clients.Values {
      var p :| p in s.clients && s.clients[p] == t;
      assert Runs(s, Auth(t, p));
    }
  }

  // ---------------------------------------------------------------- recovery connections

  predicate OfRecovery(p: Phase) {
    p.Recovering? || p.Borrowing? || p.Finished?
  }

  /** Whatever happens, a recovery connection goes on to the end of its own path, and its own events leave both registries alone. */
  lemma {:induction false} RecoveryStep(s: Server, task: TaskId, e: Event)
    requires task in s.tasks && OfRecovery(s.tasks[task])
    ensures task in Step(s, e).tasks && OfRecovery(Step(s, e).tasks[task])
    ensures !e.CloneUnauth? && !e.CloneAuth? && !e.DropClone? && e.task == task ==>
              Step(s, e).clients == s.clients && Step(s, e).unauthorized == s.unauthorized && Step(s, e).next == s.next
  {
    hide Removed, Shared;
  }

  lemma {:induction false} RecoveryStays(s: Server, task: TaskId, es: seq<Event>)
    requires task in s.tasks && OfRecovery(s.tasks[task])
    ensures task in After(s, es).tasks && OfRecovery(After(s, es).tasks[task])
  {
    if es != [] {
      RecoveryStays(s, task, es[..|es| - 1]);
      RecoveryStep(After(s, es[..|es| - 1]), task, es[|es| - 1]);
      hide Step;
    }
  }

  lemma {:induction false} AfterSplit(s: Server, x: seq<Event>, y: seq<Event>)
    ensures After(s, x + y) == After(After(s, x), y)
  {
    hide Step;
    if y == [] {
      assert x + y == x;
    } else {
      var n := |y| - 1;
      AfterSplit(s, x, y[..n]);
      assert (x + y)[..|x + y| - 1] == x + y[..n];
    }
  }

  lemma {:induction false} RecoveryInRun(es: seq<Event>, task: TaskId, k: nat)
    requires k < |es| && es[k] == MarkerRecovery(task)
    requires task in After(EMPTY, es[..k]).tasks && After(EMPTY, es[..k]).tasks[task].Starting?
    ensures task in After(EMPTY, es).tasks && OfRecovery(After(EMPTY, es).tasks[task])
  {
    hide Step, After;
    var x, y := es[..k], es[k + 1..];
    assert es == x + [es[k]] + y;
    MarkerTaken(After(EMPTY, x), task);
    Unroll(EMPTY, x, es[k]);
    AfterSplit(EMPTY, x + [es[k]], y);
    RecoveryStays(After(EMPTY, x + [es[k]]), task, y);
  }

  lemma MarkerTaken(s: Server, task: TaskId)
    requires task in s.tasks && s.tasks[task].Starting?
    ensures task in Step(s, MarkerRecovery(task)).tasks && Step(s, MarkerRecovery(task)).tasks[task] == Recovering
  {
  }

  /**
   Under every interleaving, a task that took the recovery marker never owns an entry of either
   registry: each entry belongs to another task that runs the thread.
   */
  lemma {:induction false} RecoveryAddsNothing(es: seq<Event>, task: TaskId, k: nat)
    requires k < |es| && es[k] == MarkerRecovery(task)
    requires task in After(EMPTY, es[..k]).tasks && After(EMPTY, es[..k]).tasks[task].Starting?
    ensures
      var s := After(EMPTY, es);
      && task in s.tasks && OfRecovery(s.tasks[task])
      && (forall t | t in s.unauthorized :: exists a :: a != task && a in s.tasks && s.tasks[a] == Unauth(t))
      && (forall p | p in s.clients :: exists a :: a != task && a in s.tasks && s.tasks[a] == Auth(s.clients[p], p))
  {
    RecoveryInRun(es, task, k);
    InvAlways(es);
    var s := After(EMPTY, es);
    hide After, Step, Owned, Unshared, Lent, NoRepeats;
    forall t | t in s.unauthorized
      ensures exists a :: a != task && a in s.tasks && s.tasks[a] == Unauth(t)
    {
      assert Runs(s, Unauth(t));
    }
    forall p | p in s.clients
      ensures exists a :: a != task && a in s.tasks && s.tasks[a] == Auth(s.clients[p], p)
    {
      assert Runs(s, Auth(s.clients[p], p));
    }
  }

  /** The clone a recovery connection holds while it hands its socket over is dropped with its task, not before. */
  lemma BorrowedStep(s: Server, task: TaskId, e: Event)
    requires task in s.tasks && s.tasks[task].Borrowing? && e != RecoveryReturns(task)
    ensures task in Step(s, e).tasks && Step(s, e).tasks[task] == s.tasks[task]
  {
    hide Removed, IndexOf, Shared;
  }

  /** Through any run in which it does not return, every upgrade of that thread panics. */
  lemma {:induction false} BorrowedUntilReturn(s: Server, task: TaskId, es: seq<Event>, upgrading: TaskId, peer: Peer)
    requires task in s.tasks && s.tasks[task].Borrowing? && RecoveryReturns(task) !in es
    ensures
      var r, t := After(s, es), s.tasks[task].thread;
      && task in r.tasks && r.tasks[task] == s.tasks[task]
      && (upgrading in r.tasks && r.tasks[upgrading] == Upgrading(t) ==> Step(r, Upgrade(upgrading, peer)).tasks[upgrading].Panicked?)
  {
    if es != [] {
      BorrowedUntilReturn(s, task, es[..|es| - 1], upgrading, peer);
      BorrowedStep(After(s, es[..|es| - 1]), task, es[|es| - 1]);
    }
    var r := After(s, es);
    hide After;
    if upgrading in r.tasks && r.tasks[upgrading] == Upgrading(s.tasks[task].thread) {
      UnwrapOnUpgrade(r, upgrading, peer);
    }
  }

  // ---------------------------------------------------------------- the end of an authorized thread

  function At(es: seq<Event>, k: nat): (s: Server)
    requires k <= |es|
  {
    After(EMPTY, es[..k])
  }

  lemma {:induction false} AtNext(es: seq<Event>, k: nat)
    requires k < |es|
    ensures At(es, k + 1) == Step(At(es, k), es[k])
  {
    assert es[..k + 1][..k] == es[..k];
    hide Step;
  }

  predicate InPhase(s: Server, task: TaskId, p: Phase) {
    task in s.tasks && s.tasks[task] == p
  }

  /** At the `k`-th event the authorized thread `t` of the task ends, with this outcome. */
  predicate EndsAt(es: seq<Event>, task: TaskId, k: nat, t: ThreadId, terminate: bool) {
    && k < |es| && es[k] == AuthEnds(task, terminate)
    && task in At(es, k).tasks && At(es, k).tasks[task].Auth? && At(es, k).tasks[task].thread == t
  }

  /** At the `j`-th event the task looks for other references to the thread and finds none. */
  predicate FoundAlone(es: seq<Event>, task: TaskId, t: ThreadId, j: nat) {
    j < |es| && es[j] == ClonesGone(task) && !Shared(At(es, j), t)
  }

  lemma {:induction false} LeavingStep(s: Server, task: TaskId, t: ThreadId, terminate: bool, e: Event)
    requires InPhase(s, task, Leaving(t, terminate))
    ensures InPhase(Step(s, e), task,
                    if e != ClonesGone(task) || Shared(s, t) then Leaving(t, terminate)
                    else if terminate then Finished else Downgrading(t))
  {
    hide Removed, IndexOf, Shared;
  }

  /** From the end of its authorized thread until it finds nobody else holding it, the task waits. */
  lemma {:induction false} WaitsAlone(es: seq<Event>, task: TaskId, k: nat, t: ThreadId, terminate: bool, n: nat)
    requires EndsAt(es, task, k, t, terminate) && k < n <= |es| && forall j | k < j < n :: !FoundAlone(es, task, t, j)
    ensures InPhase(At(es, n), task, Leaving(t, terminate))
    decreases n
  {
    hide At, Step, Shared;
    AtNext(es, n - 1);
    if n == k + 1 {
      AuthEndsStep(At(es, k), task, terminate);
    } else {
      WaitsAlone(es, task, k, t, terminate, n - 1);
      LeavingStep(At(es, n - 1), task, t, terminate, es[n - 1]);
      assert !FoundAlone(es, task, t, n - 1);
    }
  }

  lemma AuthEndsStep(s: Server, task: TaskId, terminate: bool)
    requires task in s.tasks && s.tasks[task].Auth?
    ensures InPhase(Step(s, AuthEnds(task, terminate)), task, Leaving(s.tasks[task].thread, terminate))
  {
  }

  lemma {:induction false} FirstAlone(es: seq<Event>, task: TaskId, t: ThreadId, k: nat, n: nat) returns (j: nat)
    requires exists i :: k < i < n && FoundAlone(es, task, t, i)
    ensures k < j < n && FoundAlone(es, task, t, j) && forall i | k < i < j :: !FoundAlone(es, task, t, i)
  {
    hide FoundAlone;
    j := k + 1;
    while !FoundAlone(es, task, t, j)
      invariant k < j < n && (forall i | k < i < j :: !FoundAlone(es, task, t, i))
      decreases n - j
    {
      j := j + 1;
    }
  }

  /** What it does then: a terminated client is finished with, any other is downgraded. */
  lemma {:induction false} AfterTheWait(es: seq<Event>, task: TaskId, k: nat, t: ThreadId, terminate: bool, j: nat)
    requires EndsAt(es, task, k, t, terminate) && k < j && FoundAlone(es, task, t, j)
    requires forall i | k < i < j :: !FoundAlone(es, task, t, i)
    ensures InPhase(At(es, j + 1), task, if terminate then Finished else Downgrading(t))
  {
    hide At, Step, Shared;
    WaitsAlone(es, task, k, t, terminate, j);
    AtNext(es, j);
    LeavingStep(At(es, j), task, t, terminate, es[j]);
  }

  lemma {:induction false} FinishedSince(es: seq<Event>, task: TaskId, j: nat, n: nat)
    requires j <= n <= |es| && InPhase(At(es, j), task, Finished)
    ensures InPhase(At(es, n), task, Finished)
  {
    hide Step, After;
    var x, y := es[..j], es[j..n];
    assert es[..n] == x + y;
    AfterSplit(EMPTY, x, y);
    FinishedForGood(After(EMPTY, x), task, y);
  }

  /**
   A client that was terminated never has an entry in either registry again, under any
   interleaving: its task waits, and it is finished exactly once it has found nobody else holding
   the thread.
   */
  lemma {:induction false} TerminatedForGood(es: seq<Event>, task: TaskId, k: nat, t: ThreadId, n: nat)
    requires EndsAt(es, task, k, t, true) && k < n <= |es|
    ensures
      var s := At(es, n);
      && (InPhase(s, task, Finished) <==> exists j :: k < j < n && FoundAlone(es, task, t, j))
      && (InPhase(s, task, Finished) || InPhase(s, task, Leaving(t, true)))
      && (forall x | x in s.unauthorized :: exists a :: a != task && InPhase(s, a, Unauth(x)))
      && (forall p | p in s.clients :: exists a :: a != task && InPhase(s, a, Auth(s.clients[p], p)))
  {
    hide FoundAlone, EndsAt, At, Inv;
    if exists j :: k < j < n && FoundAlone(es, task, t, j) {
      var j := FirstAlone(es, task, t, k, n);
      AfterTheWait(es, task, k, t, true, j);
      FinishedSince(es, task, j + 1, n);
    } else {
      WaitsAlone(es, task, k, t, true, n);
    }
    ReachedInv(es, n);
    EntriesOfOthers(At(es, n), task);
  }

  /** A task that runs no thread has no entry. */
  lemma {:induction false} EntriesOfOthers(s: Server, task: TaskId)
    requires Inv(s) && task in s.tasks && !s.tasks[task].Unauth? && !s.tasks[task].Auth?
    ensures forall x | x in s.unauthorized :: exists a :: a != task && InPhase(s, a, Unauth(x))
    ensures forall p | p in s.clients :: exists a :: a != task && InPhase(s, a, Auth(s.clients[p], p))
  {
    hide Owned, Unshared, Lent, NoRepeats;
    forall x | x in s.unauthorized
      ensures exists a :: a != task && InPhase(s, a, Unauth(x))
    {
      var a :| a in s.tasks && s.tasks[a] == Unauth(x);
      assert InPhase(s, a, Unauth(x));
    }
    forall p | p in s.clients
      ensures exists a :: a != task && InPhase(s, a, Auth(s.clients[p], p))
    {
      var a :| a in s.tasks && s.tasks[a] == Auth(s.clients[p], p);
      assert InPhase(s, a, Auth(s.clients[p], p));
    }
  }

  /** The event hands out a clone of the thread. */
  predicate TakesClone(s: Server, e: Event, t: ThreadId) {
    (e == CloneUnauth(t) && t in s.unauthorized) || (e.CloneAuth? && e.peer in s.clients && s.clients[e.peer] == t)
  }

  lemma {:induction false} CloneStep(s: Server, e: Event, t: ThreadId)
    ensures
      var n := s.clones[t];
      Step(s, e).clones[t] == if TakesClone(s, e, t) then n + 1 else if e == DropClone(t) && n > 0 then n - 1 else n
  {
    hide Removed, IndexOf, Shared;
  }

  function Drops(es: seq<Event>, n: nat, m: nat, t: ThreadId): (k: nat)
    requires n <= m <= |es|
  {
    if n == m then 0 else Drops(es, n, m - 1, t) + if es[m - 1] == DropClone(t) then 1 else 0
  }

  predicate TakesAt(es: seq<Event>, j: nat, t: ThreadId)
    requires j < |es|
  {
    TakesClone(At(es, j), es[j], t)
  }

  /**
   Once no more clones of a thread are handed out, under any interleaving as many are left as have
   not been dropped since: so the wait for them ends exactly when all have been.
   */
  lemma {:induction false} ClonesGoExactly(es: seq<Event>, n: nat, m: nat, t: ThreadId)
    requires n <= m <= |es| && forall j | n <= j < m :: !TakesAt(es, j, t)
    ensures
      var had, dropped := At(es, n).clones[t], Drops(es, n, m, t);
      At(es, m).clones[t] == if dropped < had then had - dropped else 0
    decreases m
  {
    hide Step, At, TakesClone;
    if n < m {
      ClonesGoExactly(es, n, m - 1, t);
      AtNext(es, m - 1);
      CloneStep(At(es, m - 1), es[m - 1], t);
      assert !TakesAt(es, m - 1, t);
    }
  }

  lemma {:induction false} DowngradingStep(s: Server, task: TaskId, t: ThreadId, e: Event)
    requires Inv(s) && InPhase(s, task, Downgrading(t))
    ensures
      var r := Step(s, e);
      if e != Downgrade(task) then InPhase(r, task, Downgrading(t))
      else InPhase(r, task, Unauth(s.next)) && r.unauthorized == s.unauthorized + [s.next] && s.next !in s.unauthorized
  {
    FreshThread(s);
    assert !Shared(s, t);
    hide Owned, Listed, Filed, Lent, Unshared, Shared, Step;
    if Own(task, e) {
      OwnDowngrade(s, task, t, e);
    } else {
      OtherStep(s, task, e);
    }
  }

  lemma {:induction false} OwnDowngrade(s: Server, task: TaskId, t: ThreadId, e: Event)
    requires InPhase(s, task, Downgrading(t)) && !Shared(s, t) && Own(task, e)
    ensures
      var r := Step(s, e);
      if e != Downgrade(task) then InPhase(r, task, Downgrading(t))
      else InPhase(r, task, Unauth(s.next)) && r.unauthorized == s.unauthorized + [s.next]
  {
    hide Removed, IndexOf, Shared;
  }

  /**
   A client that only lost its connection is downgraded: once nobody else holds the thread, its
   task stays about to downgrade it until it does, and then runs a fresh unauthorized thread that
   is listed behind the others.
   */
  lemma {:induction false} DowngradedNext(es: seq<Event>, task: TaskId, k: nat, t: ThreadId, j: nat, n: nat)
    requires EndsAt(es, task, k, t, false) && k < j < n <= |es| && FoundAlone(es, task, t, j)
    requires (forall i | k < i < j :: !FoundAlone(es, task, t, i)) && (forall i | j < i < n :: es[i] != Downgrade(task))
    ensures InPhase(At(es, n), task, Downgrading(t))
    ensures n < |es| && es[n] == Downgrade(task) ==>
              var s, r := At(es, n), At(es, n + 1);
              InPhase(r, task, Unauth(s.next)) && r.unauthorized == s.unauthorized + [s.next] && s.next !in s.unauthorized
    decreases n
  {
    hide Step, FoundAlone, EndsAt, At;
    if n == j + 1 {
      AfterTheWait(es, task, k, t, false, j);
    } else {
      DowngradedNext(es, task, k, t, j, n - 1);
      AtNext(es, n - 1);
      ReachedInv(es, n - 1);
      DowngradingStep(At(es, n - 1), task, t, es[n - 1]);
    }
    if n < |es| && es[n] == Downgrade(task) {
      AtNext(es, n);
      ReachedInv(es, n);
      DowngradingStep(At(es, n), task, t, es[n]);
    }
  }

  lemma {:induction false} ReachedInv(es: seq<Event>, n: nat)
    requires n <= |es|
    ensures Inv(At(es, n))
  {
    InvAlways(es[..n]);
    hide After;
  }

  /** A finished task never touches the registries again. */
  lemma {:induction false} FinishedForGood(s: Server, task: TaskId, es: seq<Event>)
    requires task in s.tasks && s.tasks[task] == Finished
    ensures task in After(s, es).tasks && After(s, es).tasks[task] == Finished
  {
    if es != [] {
      FinishedForGood(s, task, es[..|es| - 1]);
      FinishedStep(After(s, es[..|es| - 1]), task, es[|es| - 1]);
      hide Step;
    }
  }

  /** The ways to the end of a task: a bad marker, the three ends of a recovery, a login that failed, a termination. */
  predicate Finishes(s: Server, task: TaskId, e: Event) {
    task in s.tasks &&
    match s.tasks[task]
    case Starting => e == MarkerInvalid(task)
    case Recovering => e == RecoveryReadFails(task) || (e.RecoveryLookup? && e.task == task && !Listing(s, e.found))
    case Borrowing(_) => e == RecoveryReturns(task)
    case Unauth(_) => e == UnauthEnds(task, false)
    case Leaving(t, terminate) => terminate && e == ClonesGone(task) && !Shared(s, t)
    case _ => false
  }

  predicate FinishesAt(es: seq<Event>, task: TaskId, j: nat)
    requires j < |es|
  {
    Finishes(At(es, j), task, es[j])
  }

  /** Under every interleaving, a task is finished exactly if it came to one of these ends; then for good. */
  lemma {:induction false} FinishedExactly(es: seq<Event>, task: TaskId, n: nat)
    requires n <= |es|
    ensures InPhase(At(es, n), task, Finished) <==> exists j :: 0 <= j < n && FinishesAt(es, task, j)
    decreases n
  {
    hide Step, Finishes;
    if n == 0 {
      assert es[..0] == [];
    } else {
      var m := n - 1;
      FinishedExactly(es, task, m);
      ReachedInv(es, m);
      AtNext(es, m);
      EndStep(At(es, m), task, es[m]);
      hide At, Inv, InPhase;
      assert FinishesAt(es, task, m) <==> Finishes(At(es, m), task, es[m]);
      if j :| 0 <= j < n && FinishesAt(es, task, j) { assert j < m || j == m; }
    }
  }

  lemma {:induction false} EndStep(s: Server, task: TaskId, e: Event)
    requires Inv(s)
    ensures InPhase(Step(s, e), task, Finished) <==> InPhase(s, task, Finished) || Finishes(s, task, e)
  {
    hide Owned, Filed, Unshared, Lent, Listed, Step, Shared;
    if Own(task, e) {
      OwnEndStep(s, task, e);
    } else {
      OtherStep(s, task, e);
    }
  }

  predicate Own(task: TaskId, e: Event) {
    !e.CloneUnauth? && !e.CloneAuth? && !e.DropClone? && e.task == task
  }

  /** Nothing but its own events moves a task. */
  lemma {:induction false} OtherStep(s: Server, task: TaskId, e: Event)
    requires !Own(task, e)
    ensures task in Step(s, e).tasks <==> task in s.tasks
    ensures task in s.tasks ==> Step(s, e).tasks[task] == s.tasks[task]
  {
    hide Removed, IndexOf, Shared;
  }

  lemma {:induction false} OwnEndStep(s: Server, task: TaskId, e: Event)
    requires Listed(s) && Own(task, e)
    ensures InPhase(Step(s, e), task, Finished) <==> InPhase(s, task, Finished) || Finishes(s, task, e)
  {
    hide Removed, IndexOf, Shared, NoRepeats, Runs;
  }

  lemma {:induction false} FinishedStep(s: Server, task: TaskId, e: Event)
    requires task in s.tasks && s.tasks[task] == Finished
    ensures task in Step(s, e).tasks && Step(s, e).tasks[task] == Finished
    ensures !e.CloneUnauth? && !e.CloneAuth? && !e.DropClone? && e.task == task ==> Step(s, e) == s
  {
    hide Removed;
  }

  // ---------------------------------------------------------------- the object

  class GameServer {
    var clients: map<Peer, ThreadId>
    var unauthorized: seq<ThreadId>
    var tasks: map<TaskId, Phase>
    var clones: multiset<ThreadId>
    var next: ThreadId

    ghost function View(): (s: Server) reads this {
      Server(clients, unauthorized, tasks, clones, next)
    }

    constructor ()
      ensures View() == EMPTY
    {
      clients, unauthorized, tasks, clones, next := map[], [], map[], multiset{}, 0;
    }

    method InitialLogin(task: TaskId)
      requires task in tasks && tasks[task].Starting?
      modifies this
      ensures View() == Step(old(View()), MarkerInitial(task))
    {
      unauthorized := unauthorized + [next];
      tasks := tasks[task := Unauth(next)];
      next := next + 1;
    }

    /** `position` by pointer equality, then `remove`. */
    method UnauthorizedEnds(task: TaskId, upgrade: bool)
      requires task in tasks && tasks[task].Unauth?
      modifies this
      ensures View() == Step(old(View()), UnauthEnds(task, upgrade))
    {
      var t := tasks[task].thread;
      var idx := 0;
      while idx < |unauthorized| && unauthorized[idx] != t
        invariant 0 <= idx <= |unauthorized| && t !in unauthorized[..idx]
      {
        idx := idx + 1;
      }
      if idx == |unauthorized| {
        tasks := tasks[task := Panicked];
      } else {
        assert idx == IndexOf(unauthorized, t);
        unauthorized := unauthorized[..idx] + unauthorized[idx + 1..];
        tasks := tasks[task := if upgrade then Upgrading(t) else Finished];
      }
    }

    /** `Arc::into_inner` fails exactly if there are any. */
    method HasOtherReferences(t: ThreadId) returns (r: bool)
      ensures r == Shared(View(), t)
    {
      r := clones[t] > 0 || exists a :: a in tasks && tasks[a] == Borrowing(t);
    }

    method UpgradeThread(task: TaskId, peer: Peer)
      requires task in tasks && tasks[task].Upgrading?
      modifies this
      ensures View() == Step(old(View()), Upgrade(task, peer))
    {
      var shared := HasOtherReferences(tasks[task].thread);
      if shared {
        tasks := tasks[task := Panicked];
      } else {
        clients := clients[peer := next];
        tasks := tasks[task := Auth(next, peer)];
        next := next + 1;
      }
    }

    method AuthorizedEnds(task: TaskId, terminate: bool)
      requires task in tasks && tasks[task].Auth?
      modifies this
      ensures View() == Step(old(View()), AuthEnds(task, terminate))
    {
      var a := tasks[task];
      clients := clients - {a.peer};
      tasks := tasks[task := Leaving(a.thread, terminate)];
    }

    method DowngradeThread(task: TaskId)
      requires task in tasks && tasks[task].Downgrading?
      modifies this
      ensures View() == Step(old(View()), Downgrade(task))
    {
      var shared := HasOtherReferences(tasks[task].thread);
      if shared {
        tasks := tasks[task := Panicked];
      } else {
        unauthorized := unauthorized + [next];
        tasks := tasks[task := Unauth(next)];
        next := next + 1;
      }
    }

    /** A recovery connection looks for the thread with its account and key, and takes a clone of it. */
    method RecoveryFindsThread(task: TaskId, matches: ThreadId -> bool) returns (thr: Option<ThreadId>)
      requires task in tasks && tasks[task].Recovering?
      modifies this
      ensures View() == Step(old(View()), RecoveryLookup(task, thr))
      ensures thr.Some? <==> exists k :: 0 <= k < |unauthorized| && matches(unauthorized[k])
      ensures thr.Some? ==> matches(thr.value) && tasks[task] == Borrowing(thr.value)
    {
      var found, thread := FindUnauthorized(matches);
      if found {
        tasks := tasks[task := Borrowing(thread)];
        thr := Some(thread);
      } else {
        tasks := tasks[task := Finished];
        thr := None;
      }
    }

    /** The socket is handed over, or the thread is in the wrong state; either way the task is done and its clone gone. */
    method RecoveryIsDone(task: TaskId)
      requires task in tasks && tasks[task].Borrowing?
      modifies this
      ensures View() == Step(old(View()), RecoveryReturns(task))
    {
      tasks := tasks[task := Finished];
    }

    /** The lookup of `claim_thread` and of a recovery: the first listed thread that matches, or none. */
    method FindUnauthorized(matches: ThreadId -> bool) returns (found: bool, t: ThreadId)
      ensures found <==> exists k :: 0 <= k < |unauthorized| && matches(unauthorized[k])
      ensures found ==> exists k :: 0 <= k < |unauthorized| && t == unauthorized[k] && matches(t)
                                    && forall j :: 0 <= j < k ==> !matches(unauthorized[j])
    {
      found, t := false, 0;
      for k := 0 to |unauthorized|
        invariant !found && forall j :: 0 <= j < k ==> !matches(unauthorized[j])
      {
        if matches(unauthorized[k]) {
          return true, unauthorized[k];
        }
      }
    }
  }
}
