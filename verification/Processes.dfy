/** What processes owe each other in the interleaved model: nothing; and what a writer owes its own. */
module Processes {
  import opened Wrappers
  import opened Ordering
  import opened Catalogue
  import opened Interleaved

  // ----- A committed writer stays pending until it clears

  predicate Pending(n: Net, wid: Id, pid: Pid) { wid in n.writers && n.writers[wid] == pid }

  /** The steps that end a pending writer: its clearing, the loss of its process, or another process
      taking over its id. */
  predicate Ends(a: Action, wid: Id, pid: Pid) {
    || a == Clear(wid)
    || a == Restart(pid)
    || (a.Commit? && a.wid == wid && a.pid != pid)
  }

  ghost predicate LeftPending(actions: seq<Action>, wid: Id, pid: Pid) {
    forall i :: 0 <= i < |actions| ==> !Ends(actions[i], wid, pid)
  }

  lemma PendingStep(n: Net, a: Action, wid: Id, pid: Pid)
    requires n.history != [] && Pending(n, wid, pid)
    ensures Pending(Next(n, a), wid, pid) <==> !Ends(a, wid, pid) || (a.Commit? && !a.clears)
  {
  }

  lemma {:induction false} PendingKept(n: Net, actions: seq<Action>, wid: Id, pid: Pid)
    requires n.history != [] && Pending(n, wid, pid) && LeftPending(actions, wid, pid)
    ensures Pending(Run(n, actions), wid, pid)
    decreases |actions|
  {
    if actions != [] {
      PendingStep(n, actions[0], wid, pid);
      PendingKept(Next(n, actions[0]), actions[1..], wid, pid);
    }
  }

  lemma HistoryStep(n: Net, a: Action)
    requires n.history != []
    ensures Next(n, a).history ==
            if a.Commit? then n.history + [Version(a.db, n.now)] else n.history
  {
  }

  lemma {:induction false} HistoryGrows(n: Net, actions: seq<Action>)
    requires n.history != []
    ensures n.history <= Run(n, actions).history
    decreases |actions|
  {
    if actions != [] {
      HistoryStep(n, actions[0]);
      HistoryGrows(Next(n, actions[0]), actions[1..]);
    }
  }

  /** A writer commits, anything at all happens elsewhere and in its process, and the writer clears:
      from there its process serves nothing older than that very commit exactly when no request in
      flight there holds an older menu. */
  lemma ReadOwnCommit(n: Net, wid: Id, pid: Pid, db: Db, actions: seq<Action>)
    requires NetInv(n) && LeftPending(actions, wid, pid)
    ensures var m := Run(Next(n, Commit(wid, pid, db, true)), actions);
            var v := |n.history|;
            && v < |m.history| && m.history[v] == Version(db, n.now)
            && Pending(m, wid, pid)
            && (NeverOlder(Next(m, Clear(wid)), pid, v) <==> ReadersNoOlder(m, pid, v))
  {
    var commit := Commit(wid, pid, db, true);
    var c := Next(n, commit);
    var m := Run(c, actions);
    HistoryStep(n, commit);
    HistoryGrows(c, actions);
    PendingKept(c, actions, wid, pid);
    InvKept(n, commit);
    InvAlways(c, actions);
    ReadYourWrites(m, wid, |n.history|);
  }

  // ----- Processes share nothing but the database and the clock

  /** The process a step belongs to, if it belongs to one. */
  function ProcessOf(n: Net, a: Action): Option<Pid> {
    match a
    case Tick(_) => None
    case Ask(_, pid, _) => Some(pid)
    case Read(rid) => if rid in n.readers then Some(n.readers[rid].pid) else None
    case Store(rid) => if rid in n.readers then Some(n.readers[rid].pid) else None
    case Commit(_, pid, _, _) => Some(pid)
    case Clear(wid) => if wid in n.writers then Some(n.writers[wid]) else None
    case Restart(pid) => Some(pid)
  }

  /** A step of one process changes no cache, no request in flight and no pending writer of another, unless
      it takes over a writer's id; and it gives none of its own to another. */
  lemma ProcessesApart(n: Net, a: Action, pid: Pid)
    requires n.history != [] && ProcessOf(n, a) != Some(pid)
    ensures var next := Next(n, a);
            && CacheOf(next, pid) == CacheOf(n, pid)
            && (forall rid, r :: rid in n.readers && n.readers[rid] == r && r.pid == pid ==>
                  rid in next.readers && next.readers[rid] == r)
            && (forall rid :: rid in next.readers && next.readers[rid].pid == pid ==>
                  rid in n.readers && n.readers[rid] == next.readers[rid])
            && (forall wid :: Pending(next, wid, pid) ==> Pending(n, wid, pid))
            && (forall wid :: Pending(n, wid, pid) && !(a.Commit? && a.wid == wid) ==> Pending(next, wid, pid))
  {
  }

  /** A clearing empties its own process's cache of menus and ends that writer; the requests in flight,
      the tables and all other writers are untouched. A commit touches no cache and no request. */
  lemma WriterSteps(n: Net, a: Action)
    requires NetInv(n) && (a.Commit? || (a.Clear? && a.wid in n.writers))
    ensures var next := Next(n, a);
            && next.readers == n.readers && next.now == n.now
            && (a.Commit? ==> next.caches == n.caches && Tables(next) == a.db)
            && (a.Clear? ==> CacheOf(next, n.writers[a.wid]) == map[] && next.history == n.history)
            && (forall w, p :: w != a.wid ==> (Pending(next, w, p) <==> Pending(n, w, p)))
            && (a.Clear? ==> a.wid !in next.writers)
            && (a.Commit? && a.clears ==> Pending(next, a.wid, a.pid))
  {
    if a.Clear? { ClearEmpties(n, a.wid); }
  }

  /** A process that starts afresh has an empty cache and nothing in flight; the tables stay. */
  lemma RestartForgets(n: Net, pid: Pid)
    requires n.history != []
    ensures var next := Next(n, Restart(pid));
            && CacheOf(next, pid) == map[] && next.history == n.history && next.now == n.now
            && (forall rid :: rid in next.readers ==> next.readers[rid].pid != pid)
            && (forall wid :: !Pending(next, wid, pid))
  {
  }
}
